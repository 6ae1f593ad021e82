/** What a client makes of the values it receives: login.cpp for the answer to its login, client.cpp for all others. */
module ClientReceiver {
  import opened Options
  import opened JsonValue
  import opened JsonWriter
  import opened JsonParser
  import opened Messages
  import opened ServerMessage
  import S = ServerTypes
  import Utf8

  /** ServerMsgType, by the numbers of its enumerators. */
  const LOGIN_SUCCESS := 0
  const LOGIN_FAIL_INVALID_USERNAME := 1
  const LOGIN_FAIL_TOO_MANY_SESSIONS := 2
  const LOGIN_FAIL_OTHER_USER := 3
  const SERVER_SEND_COMMAND := 4
  const FOLLOW_COMMAND_FAIL := 5
  const FOLLOW_COMMAND_SUCCESS := 6
  const SEND_COMMAND_FAIL := 7
  const SEND_COMMAND_SUCCESS := 8

  /** What the user of the client is told. */
  datatype Told =
    | LoggedIn | InvalidUsername | TooManySessions | OtherUserHere
    | Received(id: int, author: string, body: string, time: string)
    | FollowRejected(id: int, username: string)
    | FollowSuccessful(id: int, username: string)
    | SendRejected(id: int)
    | SendSuccessful(id: int)
    | InvalidType(code: int)

  /** try_login; None where the reading throws. */
  function ToldAtLogin(v: Json, doubles: Doubles): Option<Told> {
    var code := IntOf(v, "msg_type", doubles);
    if code.None? then None
    else if code.value == LOGIN_FAIL_INVALID_USERNAME then Some(InvalidUsername)
    else if code.value == LOGIN_FAIL_TOO_MANY_SESSIONS then Some(TooManySessions)
    else if code.value == LOGIN_FAIL_OTHER_USER then Some(OtherUserHere)
    else if code.value == LOGIN_SUCCESS then Some(LoggedIn)
    else Some(InvalidType(code.value))
  }

  /** The main loop of the client. */
  function ToldLater(v: Json, doubles: Doubles): Option<Told> {
    var id, code := IntOf(v, "msg_id", doubles), IntOf(v, "msg_type", doubles);
    if id.None? || code.None? then None
    else if code.value == SERVER_SEND_COMMAND then
      var author, body := StringOf(v, "username", doubles), StringOf(v, "body", doubles);
      var time := StringOf(v, "time", doubles);
      if author.None? || body.None? || time.None? then None
      else Some(Received(id.value, author.value, body.value, time.value))
    else if code.value == FOLLOW_COMMAND_FAIL then
      var username := StringOf(v, "username", doubles);
      if username.None? then None else Some(FollowRejected(id.value, username.value))
    else if code.value == FOLLOW_COMMAND_SUCCESS then
      var username := StringOf(v, "username", doubles);
      if username.None? then None else Some(FollowSuccessful(id.value, username.value))
    else if code.value == SEND_COMMAND_FAIL then Some(SendRejected(id.value))
    else if code.value == SEND_COMMAND_SUCCESS then Some(SendSuccessful(id.value))
    else Some(InvalidType(code.value))
  }

  /** The replies to a login are read by try_login, all others in the main loop. */
  function ToldBy(kind: S.ServerMsgType, v: Json, doubles: Doubles): Option<Told> {
    match kind
    case LoginSuccess => ToldAtLogin(v, doubles)
    case LoginFailInvalidUsername => ToldAtLogin(v, doubles)
    case LoginFailTooManySessions => ToldAtLogin(v, doubles)
    case LoginFailAlreadyConnectedToDifferentUser => ToldAtLogin(v, doubles)
    case _ => ToldLater(v, doubles)
  }

  /** What the server means to tell, but for repaired texts. */
  function WhatIsMeant(m: S.MessageData, ctime: S.Time -> string): Told
    requires S.WellFormed(m)
  {
    match m.kind
    case LoginSuccess => LoggedIn
    case LoginFailInvalidUsername => InvalidUsername
    case LoginFailTooManySessions => TooManySessions
    case LoginFailAlreadyConnectedToDifferentUser => OtherUserHere
    case ServerSendCommand =>
      var notice := m.payload.notice;
      Received(m.id, Utf8.Repaired(notice.author), Utf8.Repaired(notice.body), Utf8.Repaired(ctime(notice.time)))
    case FollowCommandFail => FollowRejected(m.id, Utf8.Repaired(m.payload.username))
    case FollowCommandSuccess => FollowSuccessful(m.id, Utf8.Repaired(m.payload.username))
    case SendCommandFail => SendRejected(m.id)
    case SendCommandSuccess => SendSuccessful(m.id)
  }

  /** Each member is found under its own key. */
  lemma MembersAreFound(members: seq<Member>)
    requires forall i, j :: 0 <= j < i < |members| ==> members[j].key != members[i].key
    ensures forall i :: 0 <= i < |members| ==> Lookup(members, members[i].key) == members[i].value
  {
    hide Lookup;
    forall i: nat | i < |members| ensures Lookup(members, members[i].key) == members[i].value {
      LookupAt(members, i);
    }
  }

  lemma HeaderIsFound(m: S.MessageData, ctime: S.Time -> string)
    requires S.WellFormed(m)
    ensures var members := Arrived(ServerMembers(m, ctime));
            && Lookup(members, "msg_id") == Int(m.id) && Lookup(members, "msg_type") == Int(KindCode(m.kind))
            && (m.payload.Username? ==> Lookup(members, "username") == Str(Utf8.Repaired(m.payload.username)))
            && (m.payload.Carried? ==>
                  && Lookup(members, "username") == Str(Utf8.Repaired(m.payload.notice.author))
                  && Lookup(members, "body") == Str(Utf8.Repaired(m.payload.notice.body))
                  && Lookup(members, "time") == Str(Utf8.Repaired(ctime(m.payload.notice.time))))
  {
    hide Lookup, Utf8.Repaired;
    var members := Arrived(ServerMembers(m, ctime));
    match m.payload
    case Empty =>
      assert members[0] == Member("msg_id", Int(m.id)) && members[1] == Member("msg_type", Int(KindCode(m.kind)));
      MembersAreFound(members);
    case Username(username) =>
      assert members[0] == Member("msg_id", Int(m.id)) && members[1] == Member("msg_type", Int(KindCode(m.kind)));
      assert members[2] == Member("username", Str(Utf8.Repaired(username)));
      MembersAreFound(members);
    case Carried(notice) =>
      assert members[1] == Member("msg_id", Int(m.id)) && members[2] == Member("msg_type", Int(KindCode(m.kind)));
      assert members[0] == Member("body", Str(Utf8.Repaired(notice.body)));
      assert members[3] == Member("time", Str(Utf8.Repaired(ctime(notice.time))));
      assert members[4] == Member("username", Str(Utf8.Repaired(notice.author)));
      MembersAreFound(members);
  }

  lemma MembersTell(m: S.MessageData, ctime: S.Time -> string, doubles: Doubles)
    requires S.WellFormed(m) && IsMsgId(m.id)
    ensures ToldBy(m.kind, Obj(Arrived(ServerMembers(m, ctime))), doubles) == Some(WhatIsMeant(m, ctime))
  {
    HeaderIsFound(m, ctime);
    hide Lookup, Utf8.Repaired, ServerMembers;
  }

  /** From the server to the client: every message, serialised, received into a dirty buffer and parsed, tells the client
      exactly what was meant. */
  lemma ClientIsTold(
      m: S.MessageData, ctime: S.Time -> string, stale: string, root: Json, doubles: Doubles)
    requires S.WellFormed(m) && IsMsgId(m.id)
    ensures var r := Parse(Document(Obj(ServerMembers(m, ctime)), doubles) + stale, root, doubles);
            r.Parsed? && r.error == None && ToldBy(m.kind, r.value, doubles) == Some(WhatIsMeant(m, ctime))
  {
    ServerMessageReadsBack(m, ctime, stale, root, doubles);
    MembersTell(m, ctime, doubles);
    hide *;
  }
}
