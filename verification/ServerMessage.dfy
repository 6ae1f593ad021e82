/** The messages of the server as JSON documents, and the sender that puts them on the wire. */
module ServerMessage {
  import opened Options
  import opened Sequences
  import opened JsonValue
  import opened JsonWriter
  import opened JsonParser
  import opened Messages
  import S = ServerTypes
  import Utf8

  function KindCode(kind: S.ServerMsgType): int {
    match kind
    case LoginSuccess => 0
    case LoginFailInvalidUsername => 1
    case LoginFailTooManySessions => 2
    case LoginFailAlreadyConnectedToDifferentUser => 3
    case ServerSendCommand => 4
    case FollowCommandFail => 5
    case FollowCommandSuccess => 6
    case SendCommandFail => 7
    case SendCommandSuccess => 8
  }

  /** The members in key order; `ctime` is the text of a time. */
  function ServerMembers(m: S.MessageData, ctime: S.Time -> string): seq<Member>
    requires S.WellFormed(m)
  {
    var header := Header(m.id, KindCode(m.kind));
    match m.payload
    case Empty => header
    case Username(username) => header + [Member("username", Str(username))]
    case Carried(notice) =>
      [Member("body", Str(notice.body))] + header
      + [Member("time", Str(ctime(notice.time))), Member("username", Str(notice.author))]
  }

  lemma {:induction false} PutBetween(front: seq<Member>, back: seq<Member>, key: string, value: Json)
    requires forall i :: 0 <= i < |front| ==> Before(front[i].key, key)
    requires back != [] ==> Before(key, back[0].key)
    ensures Put(front + back, key, value) == front + [Member(key, value)] + back
  {
    hide Put;
    var members := front + back;
    if front == [] {
      assert members == back;
      PutFirst(back, key, value);
    } else {
      BeforeIsStrictTotal(front[0].key, key);
      hide Before;
      assert members[0] == front[0] && members[1..] == front[1..] + back;
      assert forall i :: 0 <= i < |front[1..]| ==> front[1..][i] == front[i + 1];
      PutBetween(front[1..], back, key, value);
      PutFurther(members, key, value);
      assert front == [front[0]] + front[1..];
    }
  }

  lemma PutFirst(members: seq<Member>, key: string, value: Json)
    requires members != [] ==> Before(key, members[0].key)
    ensures Put(members, key, value) == [] + [Member(key, value)] + members
  {
  }

  lemma PutFurther(members: seq<Member>, key: string, value: Json)
    requires members != [] && !Before(key, members[0].key) && key != members[0].key
    ensures Put(members, key, value) == [members[0]] + Put(members[1..], key, value)
  {
  }

  /** ServerMessageData::serialize */
  method SerializeServer(m: S.MessageData, ctime: S.Time -> string, doubles: Doubles) returns (json: string)
    requires S.WellFormed(m) && IsMsgId(m.id)
    ensures json == Document(Obj(ServerMembers(m, ctime)), doubles)
  {
    KeyOrder();
    hide Before, Put;
    var members := PutHeader(m.id, KindCode(m.kind));
    if m.kind == S.ServerSendCommand {
      var notice := m.payload.notice;
      members := PutNotice(members, m, ctime);
    } else if m.kind == S.FollowCommandFail || m.kind == S.FollowCommandSuccess {
      members := PutAfter(members, "username", Str(m.payload.username));
    }
    var writer := new FastWriter(doubles);
    assert members == ServerMembers(m, ctime);
    json := writer.Write(Obj(members));
  }

  method PutNotice(header: seq<Member>, m: S.MessageData, ctime: S.Time -> string) returns (members: seq<Member>)
    requires S.WellFormed(m) && m.kind == S.ServerSendCommand && header == Header(m.id, KindCode(m.kind))
    ensures members == ServerMembers(m, ctime)
  {
    KeyOrder();
    hide Before, Put;
    var notice := m.payload.notice;
    var author, body, time := Str(notice.author), Str(notice.body), Str(ctime(notice.time));
    members := PutAfter(header, "username", author);
    members := Put(members, "body", body);
    PutBetween([], header + [Member("username", author)], "body", body);
    assert [] + (header + [Member("username", author)]) == header + [Member("username", author)];
    assert members == ([Member("body", body)] + header) + [Member("username", author)];
    members := Put(members, "time", time);
    PutBetween([Member("body", body)] + header, [Member("username", author)], "time", time);
  }

  // ---------- Round trip ----------

  predicate TextsAreUtf8(m: S.MessageData, ctime: S.Time -> string) {
    match m.payload
    case Empty => true
    case Username(username) => Utf8.IsUtf8(username)
    case Carried(notice) =>
      Utf8.IsUtf8(notice.author) && Utf8.IsUtf8(notice.body) && Utf8.IsUtf8(ctime(notice.time))
  }

  /** A client reads a payload back as it was exactly if its texts are valid UTF-8, although its buffer still holds what
      came before; other texts are repaired. */
  lemma ServerMessageReadsBack(m: S.MessageData, ctime: S.Time -> string, stale: string, root: Json, doubles: Doubles)
    requires S.WellFormed(m) && IsMsgId(m.id)
    ensures var members := ServerMembers(m, ctime);
            var r := Parse(Document(Obj(members), doubles) + stale, root, doubles);
            && r.Parsed? && r.error == None && r.value == Obj(Arrived(members))
            && (r.value == Obj(members) <==> TextsAreUtf8(m, ctime))
  {
    ServerMembersArePlain(m, ctime);
    PlainReadsBack(ServerMembers(m, ctime), stale, root, doubles);
    ArriveUnchanged(m, ctime);
    hide *;
  }

  lemma ArriveUnchanged(m: S.MessageData, ctime: S.Time -> string)
    requires S.WellFormed(m)
    ensures Arrived(ServerMembers(m, ctime)) == ServerMembers(m, ctime) <==> TextsAreUtf8(m, ctime)
  {
    var members := ServerMembers(m, ctime);
    UnchangedIfUtf8(members);
    hide Utf8.Repaired, Utf8.IsUtf8, Arrived;
    match m.payload
    case Empty =>
    case Username(username) => assert members[2].value == Str(username);
    case Carried(notice) =>
      assert members[0].value == Str(notice.body) && members[4].value == Str(notice.author);
      assert members[3].value == Str(ctime(notice.time));
  }

  lemma UnchangedIfUtf8(members: seq<Member>)
    ensures Arrived(members) == members <==> forall i :: 0 <= i < |members| && members[i].value.Str? ==> Utf8.IsUtf8(members[i].value.s)
  {
    hide Utf8.Repaired, Utf8.IsUtf8;
    forall i | 0 <= i < |members|
      ensures Arrived(members)[i] == members[i] <==> (members[i].value.Str? ==> Utf8.IsUtf8(members[i].value.s))
    {
      if members[i].value.Str? {
        Utf8.RepairedIsUtf8(members[i].value.s);
      }
    }
  }

  lemma ServerMembersArePlain(m: S.MessageData, ctime: S.Time -> string)
    requires S.WellFormed(m) && IsMsgId(m.id)
    ensures Plain(ServerMembers(m, ctime)) && Sorted(ServerMembers(m, ctime))
  {
    hide Before;
    KeyOrder();
    if m.payload.Carried? {
      NoticeIsPlain(m.payload.notice, Header(m.id, KindCode(m.kind)), ctime(m.payload.notice.time));
    } else {
      forall x | x in ServerMembers(m, ctime) ensures forall i :: 0 <= i < |x.key| ==> x.key[i] as int < 128 {
        KeysAreAscii(x);
      }
    }
  }

  lemma NoticeIsPlain(notice: S.Notice, header: seq<Member>, time: string)
    requires |header| == 2 && header[0].key == "msg_id" && header[1].key == "msg_type"
    requires forall x <- header :: x.value.Int? && IsMsgId(x.value.i)
    ensures var members := [Member("body", Str(notice.body))] + header
                           + [Member("time", Str(time)), Member("username", Str(notice.author))];
            Plain(members) && Sorted(members)
  {
    hide Before;
    KeyOrder();
    var members := [Member("body", Str(notice.body))] + header
                   + [Member("time", Str(time)), Member("username", Str(notice.author))];
    assert members[1] == header[0] && members[2] == header[1];
    forall x | x in members ensures forall i :: 0 <= i < |x.key| ==> x.key[i] as int < 128 {
      KeysAreAscii(x);
    }
  }

  // ---------- The sender ----------

  datatype Datagram = Datagram(address: S.Address, bytes: string)

  function OnTheWire(packet: S.Packet, ctime: S.Time -> string, doubles: Doubles): seq<Datagram> {
    if S.WellFormed(packet.message)
    then [Datagram(packet.address, Document(Obj(ServerMembers(packet.message, ctime)), doubles))]
    else []
  }

  class ServerSender {
    const ctime: S.Time -> string
    const doubles: Doubles
    var sent: seq<Datagram>

    constructor (ctime: S.Time -> string, doubles: Doubles)
      ensures this.ctime == ctime && this.doubles == doubles && sent == []
    {
      this.ctime, this.doubles := ctime, doubles;
      sent := [];
    }

    /** The messages of one drained batch. */
    method SendAll(queue: seq<S.Packet>)
      requires forall i :: 0 <= i < |queue| ==> S.WellFormed(queue[i].message) && IsMsgId(queue[i].message.id)
      modifies this
      ensures sent == old(sent) + Flat(queue, packet => OnTheWire(packet, ctime, doubles))
    {
      for i := 0 to |queue|
        invariant sent == old(sent) + Flat(queue[..i], packet => OnTheWire(packet, ctime, doubles))
      {
        assert queue[..i + 1][..i] == queue[..i];
        var json := SerializeServer(queue[i].message, ctime, doubles);
        sent := sent + [Datagram(queue[i].address, json)];
      }
      assert queue[..|queue|] == queue;
    }
  }
}
