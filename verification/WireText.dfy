/** The documents that clients send, byte by byte. */
module WireText {
  import opened JsonValue
  import opened JsonWriter
  import opened Messages
  import DecimalText
  import QuotedString

  /** A key in quotes, a colon, and the text of the value. */
  function Entry(key: string, text: string): string {
    "\"" + key + "\"" + ":" + text
  }

  /** The members of a client message between the brackets: the enumerators of the types are 0 to 3. */
  function ClientText(m: ClientMessageData): string {
    var id := Entry("msg_id", DecimalText.IntegerText(m.msgId));
    match m.msgType
    case ClientLogin => id + "," + Entry("msg_type", "0") + "," + Entry("username", QuotedString.Quoted(m.text))
    case ClientLogout => id + "," + Entry("msg_type", "1")
    case ClientSend => id + "," + Entry("msg_type", "2") + "," + Entry("send", QuotedString.Quoted(m.text))
    case ClientFollow => id + "," + Entry("msg_type", "3") + "," + Entry("username", QuotedString.Quoted(m.text))
  }

  lemma MembersBy(members: seq<Member>, first: bool, doubles: Doubles)
    requires members != []
    ensures MembersText(members, first, doubles)
         == (if first then "" else ",") + MemberText(members[0], doubles) + MembersText(members[1..], false, doubles)
    ensures MembersText([], false, doubles) == ""
  {
  }

  lemma PlainKey(key: string, v: Json, doubles: Doubles)
    requires forall i :: 0 <= i < |key| ==> !QuotedString.RequiresEscaping(key[i])
    ensures MemberText(Member(key, v), doubles) == Entry(key, Text(v, doubles))
  {
    QuotedString.PlainIsUnchanged(key);
    hide Text, QuotedString.Escaped;
  }

  /** The text of a type. */
  lemma CodeText(t: ClientMsgType)
    ensures DecimalText.IntegerText(ClientCode(t))
         == match t
            case ClientLogin => "0"
            case ClientLogout => "1"
            case ClientSend => "2"
            case ClientFollow => "3"
  {
  }

  /** The commas go between the members. */
  lemma Rejoin(a: string, b: string, c: string)
    ensures "" + a + ("," + b + "") == a + "," + b
    ensures "" + a + ("," + b + ("," + c + "")) == a + "," + b + "," + c
  {
    assert "," + c + "" == "," + c;
    assert a + ("," + b + ("," + c)) == a + ("," + b) + ("," + c) == (a + "," + b) + ("," + c);
  }

  lemma TwoMembers(a: Member, b: Member, doubles: Doubles)
    ensures MembersText([a, b], true, doubles) == MemberText(a, doubles) + "," + MemberText(b, doubles)
  {
    MembersBy([a, b], true, doubles);
    MembersBy([b], false, doubles);
    Rejoin(MemberText(a, doubles), MemberText(b, doubles), "");
    assert [a, b][1..] == [b] && [b][1..] == [];
    hide *;
  }

  lemma ThreeMembers(a: Member, b: Member, c: Member, doubles: Doubles)
    ensures MembersText([a, b, c], true, doubles)
         == MemberText(a, doubles) + "," + MemberText(b, doubles) + "," + MemberText(c, doubles)
  {
    MembersBy([a, b, c], true, doubles);
    MembersBy([b, c], false, doubles);
    MembersBy([c], false, doubles);
    Rejoin(MemberText(a, doubles), MemberText(b, doubles), MemberText(c, doubles));
    assert [a, b, c][1..] == [b, c] && [b, c][1..] == [c] && [c][1..] == [];
    hide *;
  }

  lemma KeysArePlain()
    ensures forall i :: 0 <= i < 6 ==> !QuotedString.RequiresEscaping("msg_id"[i])
    ensures forall i :: 0 <= i < 8 ==> !QuotedString.RequiresEscaping("msg_type"[i])
    ensures forall i :: 0 <= i < 8 ==> !QuotedString.RequiresEscaping("username"[i])
    ensures forall i :: 0 <= i < 4 ==> !QuotedString.RequiresEscaping("send"[i])
  {
  }

  lemma ObjectText(members: seq<Member>, doubles: Doubles)
    ensures Document(Obj(members), doubles) == "{" + MembersText(members, true, doubles) + "}" + "\n"
  {
    hide MembersText;
  }

  lemma ScalarTexts(id: int, code: int, text: string, doubles: Doubles)
    ensures Text(Int(id), doubles) == DecimalText.IntegerText(id)
    ensures Text(Int(code), doubles) == DecimalText.IntegerText(code)
    ensures Text(Str(text), doubles) == QuotedString.Quoted(text)
  {
    hide DecimalText.IntegerText, QuotedString.Quoted;
  }

  /** What a client sends. */
  lemma ClientDocument(m: ClientMessageData, doubles: Doubles)
    ensures Document(Obj(ClientMembers(m)), doubles) == "{" + ClientText(m) + "}" + "\n"
  {
    var members := ClientMembers(m);
    var id, code := Int(m.msgId), Int(ClientCode(m.msgType));
    ObjectText(members, doubles);
    ScalarTexts(m.msgId, ClientCode(m.msgType), m.text, doubles);
    CodeText(m.msgType);
    KeysArePlain();
    hide Document, Text, MembersText, MemberText, DecimalText.IntegerText, QuotedString.Quoted, QuotedString.RequiresEscaping, Entry;
    var a, b := Member("msg_id", id), Member("msg_type", code);
    PlainKey("msg_id", id, doubles);
    PlainKey("msg_type", code, doubles);
    match m.msgType
    case ClientLogout =>
      assert members == [a, b];
      TwoMembers(a, b, doubles);
    case ClientSend =>
      assert members == [a, b, Member("send", Str(m.text))];
      PlainKey("send", Str(m.text), doubles);
      ThreeMembers(a, b, Member("send", Str(m.text)), doubles);
    case _ =>
      assert members == [a, b, Member("username", Str(m.text))];
      PlainKey("username", Str(m.text), doubles);
      ThreeMembers(a, b, Member("username", Str(m.text)), doubles);
  }
}
