/** What the clients make of the datagrams a run sends. */
module ServerWire {
  import opened Options
  import opened JsonValue
  import opened JsonWriter
  import opened JsonParser
  import opened JsonRoundTrip
  import opened UserConnection
  import opened Notification
  import opened ClientMessageHandler
  import opened ServerInvariant
  import opened ServerRun
  import opened ServerActions
  import opened ServerPayload
  import opened ServerTexts
  import opened DiskStore
  import opened DiskHistory
  import opened Messages
  import opened ServerMessage
  import opened ClientReceiver
  import S = ServerTypes
  import Utf8

  // ---------- Packets ----------

  ghost predicate PacketGood(p: S.Packet) {
    S.WellFormed(p.message) && NoticeValid(p.message)
  }

  ghost predicate AllGood(packets: seq<S.Packet>) {
    forall i :: 0 <= i < |packets| ==> PacketGood(packets[i])
  }

  lemma {:induction false} PacketsGood(conns: Connections, actions: seq<S.Action>)
    requires AllProper(actions) && NoticesValid(actions)
    ensures AllGood(Packets(conns, actions))
  {
    hide S.WellFormed, NoticeValid;
    if actions != [] {
      PacketsGood(conns, actions[..|actions| - 1]);
    }
  }

  /** Every packet of a run carries the payload of its kind, and valid texts of others. */
  lemma {:induction false} RunGood(s0: Server, events: seq<Event>)
    requires Inv(s0) && TextsValid(s0)
    ensures TextsValid(StateAfter(s0, events)) && AllGood(SentOver(s0, events))
  {
    hide Inv, Handle, PacketGood, TextsValid, Packets;
    if events != [] {
      var front, last := events[..|events| - 1], events[|events| - 1];
      RunGood(s0, front);
      var s := StateAfter(s0, front);
      HandleValid(s, last);
      assert Agree(s.conns) by { InvAgrees(s); }
      HandleIsProper(s, last);
      PacketsGood(StateAfter(s0, events).conns, LastActions(s0, events));
    }
  }

  // ---------- What arrives ----------

  /** The message, had the author and the body been kept apart. */
  function WithNotice(m: S.MessageData, author: string, body: string): S.MessageData
    requires m.payload.Carried?
  {
    m.(payload := S.Carried(S.Notice(author, body, m.payload.notice.time)))
  }

  /** What arrives is what the author has sent, exactly if the name is shorter than its array; a longer one is followed
      by the body. (The text of the time must be valid UTF-8.) */
  ghost predicate ArrivesFrom(m: S.MessageData, ctime: S.Time -> string, value: Json, author: string, body: string)
    requires S.WellFormed(m) && m.payload.Carried?
  {
    && IsCopyOf(m.payload.notice, author, body)
    && m.payload.notice.author == (if |author| < NAME_SIZE then author else author + body)
    && m.payload.notice.body == body
    && (value == Obj(ServerMembers(WithNotice(m, author, body), ctime)) <==>
        |author| < NAME_SIZE && Utf8.IsUtf8(ctime(m.payload.notice.time)))
  }

  /** The packet's document holds no early end, and a client whose buffer still holds older bytes accepts it and reads
      the payload, and tells its user what was meant: a name echoed exactly if it is valid UTF-8, the message of another user exactly if its author's name
      leaves room for a terminator. */
  ghost predicate Arrives(p: S.Packet, ctime: S.Time -> string, stale: string, root: Json, doubles: Doubles) {
    var m := p.message;
    S.WellFormed(m) &&
    var members := ServerMembers(m, ctime);
    var document := Document(Obj(members), doubles);
    var r := Parse(document + stale, root, doubles);
    && '\0' !in document
    && r.Parsed? && r.error == None && r.value == Obj(Arrived(members))
    && (r.value == Obj(members) <==> TextsAreUtf8(m, ctime))
    && ToldBy(m.kind, r.value, doubles) == Some(WhatIsMeant(m, ctime))
    && (m.payload.Carried? ==> exists author, body :: ArrivesFrom(m, ctime, r.value, author, body))
  }

  lemma CopyIsUtf8(m: S.MessageData, ctime: S.Time -> string, author: string, body: string)
    requires m.payload.Carried? && IsCopyOf(m.payload.notice, author, body)
    ensures TextsAreUtf8(m, ctime) <==> Utf8.IsUtf8(ctime(m.payload.notice.time))
    ensures Utf8.IsUtf8(author + body)
  {
    var notice := m.payload.notice;
    CopiedIsMeant(author, body, notice.time);
    hide Copied;
    AsciiIsUtf8(author);
    AsciiIsUtf8(body);
    AsciiIsUtf8(author + body);
  }

  lemma MembersTellApart(m: S.MessageData, author: string, body: string, ctime: S.Time -> string)
    requires S.WellFormed(m) && m.payload.Carried? && IsCopyOf(m.payload.notice, author, body)
    ensures Arrived(ServerMembers(m, ctime)) == ServerMembers(WithNotice(m, author, body), ctime) <==>
            |author| < NAME_SIZE && Utf8.IsUtf8(ctime(m.payload.notice.time))
  {
    var notice, members := m.payload.notice, ServerMembers(m, ctime);
    var meant := ServerMembers(WithNotice(m, author, body), ctime);
    CopyIsUtf8(m, ctime, author, body);
    CopiedIsMeant(author, body, notice.time);
    ArriveUnchanged(m, ctime);
    hide Copied, Utf8.IsUtf8, Utf8.Repaired;
    if |author| == NAME_SIZE {
      Utf8.RepairedIsUtf8(author + body);
      assert members[4].value == Str(author + body) && meant[4].value == Str(author);
      assert Arrived(members)[4] == ArrivedMember(members[4]) == Member("username", Str(author + body));
      assert |author + body| > |author|;
      assert meant[4] != Arrived(members)[4];
    }
  }

  lemma GoodPacketArrives(p: S.Packet, ctime: S.Time -> string, stale: string, root: Json, doubles: Doubles)
    requires PacketGood(p) && IsMsgId(p.message.id)
    ensures Arrives(p, ctime, stale, root, doubles)
  {
    hide Parse, Text, Utf8.IsUtf8, IsCopyOf, ToldBy, WhatIsMeant;
    var m := p.message;
    ServerMessageReadsBack(m, ctime, stale, root, doubles);
    ClientIsTold(m, ctime, stale, root, doubles);
    DocumentIsPrintable(m, ctime, doubles);
    if m.payload.Carried? {
      var author, body :| IsCopyOf(m.payload.notice, author, body);
      CopyArrives(m, ctime, author, body);
    }
    hide ServerMembers, TextsAreUtf8;
  }

  lemma CopyArrives(m: S.MessageData, ctime: S.Time -> string, author: string, body: string)
    requires S.WellFormed(m) && m.payload.Carried? && IsCopyOf(m.payload.notice, author, body)
    ensures ArrivesFrom(m, ctime, Obj(Arrived(ServerMembers(m, ctime))), author, body)
  {
    MembersTellApart(m, author, body, ctime);
    CopiedIsMeant(author, body, m.payload.notice.time);
    hide ServerMembers, Copied, Utf8.IsUtf8;
  }

  /** Every packet of every run arrives, if its id fits an int. */
  lemma PacketsArrive(
      s0: Server, events: seq<Event>, ctime: S.Time -> string, stale: string, root: Json, doubles: Doubles)
    requires Inv(s0) && TextsValid(s0)
    ensures forall p <- SentOver(s0, events) :: IsMsgId(p.message.id) ==> Arrives(p, ctime, stale, root, doubles)
  {
    hide Inv, TextsValid, StateAfter, SentOver, Arrives, PacketGood;
    RunGood(s0, events);
    forall p | p in SentOver(s0, events) && IsMsgId(p.message.id) ensures Arrives(p, ctime, stale, root, doubles) {
      GoodPacketArrives(p, ctime, stale, root, doubles);
    }
  }

  lemma DocumentIsPrintable(m: S.MessageData, ctime: S.Time -> string, doubles: Doubles)
    requires S.WellFormed(m) && IsMsgId(m.id)
    ensures '\0' !in Document(Obj(ServerMembers(m, ctime)), doubles)
  {
    var members := ServerMembers(m, ctime);
    ServerMembersArePlain(m, ctime);
    hide ServerMembers, Text;
    forall x | x in members ensures Writable(x.value) {
    }
    MembersArePrintable(members, true, doubles);
    ObjectIsPrintable(members, doubles);
  }

  lemma ObjectIsPrintable(members: seq<Member>, doubles: Doubles)
    requires Printable(MembersText(members, true, doubles))
    ensures '\0' !in Document(Obj(members), doubles)
  {
    hide MembersText;
  }

  /** What a start from good files finds is valid. */
  lemma StartIsValid(s0: Server, disk0: Disk)
    requires StartedFrom(s0, disk0)
    ensures Inv(s0) && TextsValid(s0)
  {
    StartNames(s0, disk0);
    hide S.IsValidUsername;
  }
}
