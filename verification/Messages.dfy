/** The messages of clients and server as JSON documents, and what the server makes of a received value. */
module Messages {
  import opened Options
  import opened JsonValue
  import opened JsonWriter
  import opened JsonParser
  import opened JsonGrammar
  import opened JsonRoundTrip
  import opened UserConnection
  import opened Notification
  import opened ClientMessageHandler
  import opened ServerPayload
  import S = ServerTypes
  import DecimalText
  import Utf8

  // ---------- What clients send ----------

  datatype ClientMsgType = ClientLogin | ClientLogout | ClientSend | ClientFollow

  /** `text` is the username or the message that the payload holds, up to its terminator. */
  datatype ClientMessageData = ClientMessageData(msgId: int, msgType: ClientMsgType, text: string)

  function ClientCode(t: ClientMsgType): int {
    match t
    case ClientLogin => 0
    case ClientLogout => 1
    case ClientSend => 2
    case ClientFollow => 3
  }

  function Header(id: int, code: int): seq<Member> {
    [Member("msg_id", Int(id)), Member("msg_type", Int(code))]
  }

  function ClientMembers(m: ClientMessageData): seq<Member> {
    Header(m.msgId, ClientCode(m.msgType)) +
    match m.msgType
    case ClientLogout => []
    case ClientSend => [Member("send", Str(m.text))]
    case _ => [Member("username", Str(m.text))]
  }

  predicate IsMsgId(id: int) {
    -DecimalText.MAX_INT - 1 <= id <= DecimalText.MAX_INT
  }

  lemma KeyOrder()
    ensures Before("msg_id", "msg_type") && Before("msg_type", "send") && Before("msg_type", "username")
    ensures Before("msg_id", "send") && Before("msg_id", "username")
    ensures Before("body", "msg_id") && Before("msg_type", "time") && Before("time", "username")
    ensures Before("msg_id", "time") && Before("body", "msg_type") && Before("body", "time") && Before("body", "username")
  {
    assert "msg_id"[1..][1..][1..][1..] == "id" && "msg_type"[1..][1..][1..][1..] == "type";
    assert "time"[0] == 't' && "username"[0] == 'u' && "send"[0] == 's' && "body"[0] == 'b';
  }

  /** ClientMessageData::serialize */
  method SerializeClient(m: ClientMessageData, doubles: Doubles) returns (json: string)
    requires IsMsgId(m.msgId)
    ensures json == Document(Obj(ClientMembers(m)), doubles)
  {
    KeyOrder();
    hide Before, Put;
    var members := PutHeader(m.msgId, ClientCode(m.msgType));
    match m.msgType {
      case ClientLogout =>
      case ClientLogin => members := PutAfter(members, "username", Str(m.text));
      case ClientFollow => members := PutAfter(members, "username", Str(m.text));
      case ClientSend => members := PutAfter(members, "send", Str(m.text));
    }
    var writer := new FastWriter(doubles);
    assert members == ClientMembers(m);
    json := writer.Write(Obj(members));
  }

  /** Sets a member whose key comes after all the others. */
  method PutAfter(members: seq<Member>, key: string, value: Json) returns (longer: seq<Member>)
    requires forall i :: 0 <= i < |members| ==> Before(members[i].key, key)
    ensures longer == members + [Member(key, value)]
  {
    longer := Put(members, key, value);
    PutLast(members, key, value);
  }

  method PutHeader(id: int, code: int) returns (members: seq<Member>)
    ensures members == Header(id, code)
  {
    KeyOrder();
    members := PutAfter([], "msg_id", Int(id));
    members := PutAfter(members, "msg_type", Int(code));
  }

  // ---------- What the server makes of a value ----------

  /** asInt; None where it throws. */
  function AsInt(v: Json, doubles: Doubles): Option<int> {
    match v
    case Null => Some(0)
    case Bool(b) => Some(if b then 1 else 0)
    case Int(i) => if IsMsgId(i) then Some(i) else None
    case UInt(u) => if u <= DecimalText.MAX_INT then Some(u) else None
    case Real(d) => doubles.truncate(d)
    case _ => None
  }

  /** asString; None where it throws. */
  function AsString(v: Json, doubles: Doubles): Option<string> {
    match v
    case Null => Some("")
    case Bool(b) => Some(if b then "true" else "false")
    case Int(i) => Some(DecimalText.IntegerText(i))
    case UInt(u) => Some(DecimalText.IntegerText(u))
    case Real(d) => Some(doubles.show(d))
    case Str(s) => Some(s)
    case _ => None
  }

  /** operator[]: absent members are null, null is an object without members, other values throw. */
  function MemberOf(v: Json, key: string): Option<Json> {
    match v
    case Null => Some(Null)
    case Obj(members) => Some(Lookup(members, key))
    case _ => None
  }

  function IntOf(v: Json, key: string, doubles: Doubles): Option<int> {
    var member := MemberOf(v, key);
    if member.None? then None else AsInt(member.value, doubles)
  }

  function StringOf(v: Json, key: string, doubles: Doubles): Option<string> {
    var member := MemberOf(v, key);
    if member.None? then None else AsString(member.value, doubles)
  }

  /** The message that handle_incoming_datagram and the handlers read from a value; None where the reading throws.
      Send and follow look at their text only if the sender is connected, and otherwise do nothing. */
  function Understood(v: Json, connected: bool, doubles: Doubles): Option<ClientMessage> {
    var id, code := IntOf(v, "msg_id", doubles), IntOf(v, "msg_type", doubles);
    if id.None? || code.None? then None
    else if code.value == 0 then
      var name := StringOf(v, "username", doubles);
      if name.None? then None else Some(Login(name.value))
    else if code.value == 1 then Some(Logout)
    else if code.value == 2 && connected then
      var body := StringOf(v, "send", doubles);
      if body.None? then None else Some(Send(body.value))
    else if code.value == 3 && connected then
      var name := StringOf(v, "username", doubles);
      if name.None? then None else Some(Follow(name.value))
    else Some(Invalid)
  }

  /** What comes of a value: a state and actions, an exception that nobody catches, or a name that overruns the
      payload of the reply. The last two are the end of the server. */
  datatype Outcome = Handled(server: Server, actions: seq<S.Action>) | Thrown | Overrun

  /** Nobody replies to those who are not connected, so their names overrun nothing. */
  function Effect(s: Server, a: S.Address, m: ClientMessage, now: S.Time): Outcome
    requires Agree(s.conns)
  {
    if !Overruns(m) then
      var r := Handle(s, Event(a, m, now));
      Handled(r.0, r.1)
    else if UserAt(s.conns, a) == S.INVALID_ID then Handled(s, [])
    else Overrun
  }

  /** A value received */
  function HandleValue(s: Server, a: S.Address, v: Json, now: S.Time, doubles: Doubles): Outcome
    requires Agree(s.conns)
  {
    var m := Understood(v, UserAt(s.conns, a) != S.INVALID_ID, doubles);
    if m.None? then Thrown else Effect(s, a, m.value, now)
  }

  // ---------- Which values are handled ----------

  /** The member of an object, null if it is absent. */
  function Field(v: Json, key: string): Json {
    if v.Obj? then Lookup(v.members, key) else Null
  }

  predicate HoldsInt(v: Json, doubles: Doubles) {
    match v
    case Null => true
    case Bool(_) => true
    case Int(i) => IsMsgId(i)
    case UInt(u) => u <= DecimalText.MAX_INT
    case Real(d) => doubles.truncate(d).Some?
    case _ => false
  }

  predicate HoldsText(v: Json) {
    !v.Arr? && !v.Obj?
  }

  /** The type of the message; null and absent ones count as 0. */
  predicate HasType(v: Json, code: int, doubles: Doubles) {
    AsInt(Field(v, "msg_type"), doubles) == Some(code)
  }

  /** An object (or null) with two numbers and, where the type asks for it, a text. */
  predicate Readable(v: Json, connected: bool, doubles: Doubles) {
    && (v.Null? || v.Obj?)
    && HoldsInt(Field(v, "msg_id"), doubles) && HoldsInt(Field(v, "msg_type"), doubles)
    && (HasType(v, 0, doubles) ==> HoldsText(Field(v, "username")))
    && (HasType(v, 2, doubles) && connected ==> HoldsText(Field(v, "send")))
    && (HasType(v, 3, doubles) && connected ==> HoldsText(Field(v, "username")))
  }

  /** A follow by somebody connected, of a name that does not fit the payload of the reply. */
  predicate NamesTooMuch(v: Json, connected: bool, doubles: Doubles) {
    && connected && HasType(v, 3, doubles)
    && var name := AsString(Field(v, "username"), doubles);
       name.Some? && !NameFits(name.value)
  }

  /** Exactly the readable values do not throw, and of these exactly those that name too much overrun the payload. */
  lemma ValueIsHandled(s: Server, a: S.Address, v: Json, now: S.Time, doubles: Doubles)
    requires Agree(s.conns)
    ensures var connected := UserAt(s.conns, a) != S.INVALID_ID;
            var outcome := HandleValue(s, a, v, now, doubles);
            && (outcome == Thrown <==> !Readable(v, connected, doubles))
            && (outcome == Overrun <==> Readable(v, connected, doubles) && NamesTooMuch(v, connected, doubles))
  {
    hide Handle, Agree, UserAt, Lookup, NameFits;
  }

  /** The values that count as the type with this number: the number, signed or not, a real that is truncated to it,
      null and false for 0, true for 1. */
  lemma TypesRead(v: Json, code: int, doubles: Doubles)
    requires 0 <= code <= DecimalText.MAX_INT
    ensures var t := Field(v, "msg_type");
            HasType(v, code, doubles) <==>
              || t == Int(code) || t == UInt(code) || (t.Real? && doubles.truncate(t.d) == Some(code))
              || (code == 0 && (t == Null || t == Bool(false))) || (code == 1 && t == Bool(true))
  {
    hide Lookup;
  }

  /** A text is read as itself, null as the empty text, and any other scalar as it is written. */
  lemma TextsRead(v: Json, doubles: Doubles)
    ensures AsString(v, doubles)
         == if !HoldsText(v) then None
            else Some(if v.Str? then v.s else if v.Null? then "" else Text(v, doubles))
  {
  }

  /** A value of no known type does nothing, and neither do a send and a follow by somebody who is not connected. */
  lemma OtherValuesDoNothing(s: Server, a: S.Address, v: Json, now: S.Time, doubles: Doubles)
    requires Agree(s.conns) && Readable(v, UserAt(s.conns, a) != S.INVALID_ID, doubles)
    requires UserAt(s.conns, a) == S.INVALID_ID || !(HasType(v, 2, doubles) || HasType(v, 3, doubles))
    requires !HasType(v, 0, doubles) && !HasType(v, 1, doubles)
    ensures HandleValue(s, a, v, now, doubles) == Handled(s, [])
  {
    hide Agree, UserAt, Lookup, HandleLogin, HandleSend, HandleFollow, HandleLogout;
  }

  /** What the client means. */
  function Meaning(m: ClientMessageData): ClientMessage {
    match m.msgType
    case ClientLogin => Login(m.text)
    case ClientLogout => Logout
    case ClientSend => Send(m.text)
    case ClientFollow => Follow(m.text)
  }

  // ---------- Round trips ----------

  lemma {:induction false} AsciiIsUtf8(s: string)
    requires forall i :: 0 <= i < |s| ==> s[i] as int < 128
    ensures Utf8.IsUtf8(s)
  {
    if s != "" {
      AsciiIsUtf8(s[1..]);
    }
  }

  /** Members of messages: ASCII names, small numbers and texts. */
  predicate Plain(members: seq<Member>) {
    forall m <- members ::
      (forall i :: 0 <= i < |m.key| ==> m.key[i] as int < 128)
      && (m.value.Int? || m.value.Str?)
      && (m.value.Int? ==> IsMsgId(m.value.i))
  }

  /** The members as they arrive: texts that are not valid UTF-8 are repaired. */
  function Arrived(members: seq<Member>): (arrived: seq<Member>)
    ensures |arrived| == |members|
  {
    seq(|members|, i requires 0 <= i < |members| => ArrivedMember(members[i]))
  }

  function ArrivedMember(m: Member): Member {
    if m.value.Str? then Member(m.key, Str(Utf8.Repaired(m.value.s))) else m
  }

  lemma {:induction false} PlainIsCanonical(members: seq<Member>)
    requires Plain(members)
    ensures CanonicalMembers(members) == Arrived(members) && MembersDepth(members) <= 1 && KeysAreUtf8(members)
  {
    hide Utf8.Repaired;
    if members != [] {
      var m := members[0];
      assert m in members;
      PlainIsCanonical(members[1..]);
      AsciiIsUtf8(m.key);
      Utf8.RepairedIsUtf8(m.key);
      assert CanonicalMember(m) == ArrivedMember(m);
      assert CanonicalMembers(members) == [CanonicalMember(m)] + CanonicalMembers(members[1..]);
      assert Depth(m.value) == 1 && MemberDepth(m) == Depth(m.value);
      assert Arrived(members) == [ArrivedMember(m)] + Arrived(members[1..]);
    }
  }

  lemma PlainReadsBack(members: seq<Member>, trailing: string, root: Json, doubles: Doubles)
    requires Plain(members) && Sorted(members)
    ensures var text := Document(Obj(members), doubles) + trailing;
            Parse(text, root, doubles) == Parsed(Obj(Arrived(members)), |Text(Obj(members), doubles)|, None)
  {
    hide Text, Parse, Document, Utf8.IsUtf8, StartsWithText;
    PlainIsCanonical(members);
    GatheredInOrder([], members);
    assert [] + CanonicalMembers(members) == CanonicalMembers(members);
    forall m | m in members ensures Writable(m.value) {
    }
    DocumentReadsBack(Obj(members), trailing, root, doubles);
  }

  lemma KeysAreAscii(m: Member)
    requires m.key in {"msg_id", "msg_type", "send", "username", "body", "time"}
    ensures forall i :: 0 <= i < |m.key| ==> m.key[i] as int < 128
  {
  }

  lemma ClientMembersArePlain(m: ClientMessageData)
    requires IsMsgId(m.msgId)
    ensures Plain(ClientMembers(m)) && Sorted(ClientMembers(m))
  {
    KeyOrder();
    var members := ClientMembers(m);
    hide Before;
    forall x | x in members ensures forall i :: 0 <= i < |x.key| ==> x.key[i] as int < 128 {
      KeysAreAscii(x);
    }
  }

  /** The message as it arrives, which is itself exactly if its text is valid UTF-8. */
  function Received(m: ClientMessageData): (r: ClientMessageData)
    ensures r == m <==> Utf8.IsUtf8(m.text)
  {
    Utf8.RepairedIsUtf8(m.text);
    m.(text := Utf8.Repaired(m.text))
  }

  lemma ArrivedIsReceived(m: ClientMessageData)
    ensures Arrived(ClientMembers(m)) == ClientMembers(Received(m))
  {
    hide Utf8.Repaired;
  }

  lemma ClientMessageArrives(m: ClientMessageData, trailing: string, root: Json, doubles: Doubles)
    requires IsMsgId(m.msgId)
    ensures var r := Parse(Document(Obj(ClientMembers(m)), doubles) + trailing, root, doubles);
            r.Parsed? && r.error == None && r.value == Obj(ClientMembers(Received(m)))
  {
    ClientMembersArePlain(m);
    PlainReadsBack(ClientMembers(m), trailing, root, doubles);
    ArrivedIsReceived(m);
    hide *;
  }

  /** The server understands every client message as meant, whatever bytes follow it in the buffer. */
  lemma ClientMessageIsUnderstood(m: ClientMessageData, trailing: string, root: Json, doubles: Doubles)
    requires IsMsgId(m.msgId)
    ensures var r := Parse(Document(Obj(ClientMembers(m)), doubles) + trailing, root, doubles);
            && r.Parsed? && r.error == None
            && Understood(r.value, true, doubles) == Some(Meaning(Received(m)))
  {
    ClientMessageArrives(m, trailing, root, doubles);
    hide Text, Parse, Document, Received;
    ClientMembersMean(Received(m), doubles);
  }

  lemma ClientMembersMean(m: ClientMessageData, doubles: Doubles)
    requires IsMsgId(m.msgId)
    ensures Understood(Obj(ClientMembers(m)), true, doubles) == Some(Meaning(m))
    ensures Understood(Obj(ClientMembers(m)), false, doubles)
         == Some(if Meaning(m).Send? || Meaning(m).Follow? then Invalid else Meaning(m))
  {
    hide Lookup;
    var members := ClientMembers(m);
    LookupAt(members, 0);
    LookupAt(members, 1);
    if m.msgType != ClientLogout {
      LookupAt(members, 2);
    }
  }

  lemma {:induction false} LookupAt(members: seq<Member>, i: nat)
    requires i < |members| && forall j :: 0 <= j < i ==> members[j].key != members[i].key
    ensures Lookup(members, members[i].key) == members[i].value
  {
    if i > 0 {
      assert forall j :: 0 <= j < i - 1 ==> members[1..][j].key == members[j + 1].key;
      LookupAt(members[1..], i - 1);
    }
  }

  /** From the client's call to the state machine: the message serialised, sent, received into a dirty buffer, parsed
      and handled has the effect of its meaning, on every state of the server. */
  lemma ClientMessageTakesEffect(
      m: ClientMessageData, trailing: string, root: Json, doubles: Doubles, s: Server, a: S.Address, now: S.Time)
    requires IsMsgId(m.msgId) && Agree(s.conns)
    ensures var r := Parse(Document(Obj(ClientMembers(m)), doubles) + trailing, root, doubles);
            && r.Parsed? && r.error == None
            && HandleValue(s, a, r.value, now, doubles) == Effect(s, a, Meaning(Received(m)), now)
  {
    ClientMessageArrives(m, trailing, root, doubles);
    hide Text, Parse, Document, Understood, ClientMembers, Received, Handle, Agree, NameFits;
    ClientMembersMean(Received(m), doubles);
  }
}
