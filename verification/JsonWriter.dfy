/** FastWriter with its default options. */
module JsonWriter {
  import opened JsonValue
  import DecimalText
  import QuotedString

  /** The text of a value, without the final line feed. */
  function Text(v: Json, doubles: Doubles): string
    decreases v, 0
  {
    match v
    case Null => "null"
    case Bool(b) => if b then "true" else "false"
    case Int(i) => DecimalText.IntegerText(i)
    case UInt(u) => DecimalText.IntegerText(u)
    case Real(d) => doubles.show(d)
    case Str(s) => QuotedString.Quoted(s)
    case Arr(items) => "[" + ItemsText(items, true, doubles) + "]"
    case Obj(members) => "{" + MembersText(members, true, doubles) + "}"
  }

  function ItemsText(items: seq<Json>, first: bool, doubles: Doubles): string
    decreases items, 1
  {
    if items == [] then ""
    else (if first then "" else ",") + Text(items[0], doubles) + ItemsText(items[1..], false, doubles)
  }

  function MemberText(m: Member, doubles: Doubles): string
    decreases m, 1
  {
    QuotedString.Quoted(m.key) + ":" + Text(m.value, doubles)
  }

  function MembersText(members: seq<Member>, first: bool, doubles: Doubles): string
    decreases members, 2
  {
    if members == [] then ""
    else (if first then "" else ",") + MemberText(members[0], doubles) + MembersText(members[1..], false, doubles)
  }

  /** What Value::write returns. */
  function Document(v: Json, doubles: Doubles): string {
    Text(v, doubles) + "\n"
  }

  /** Integers are within the 64 bits of their type. */
  predicate InRange(v: Json) {
    match v
    case Int(i) => DecimalText.MIN_LARGEST_INT <= i <= DecimalText.MAX_LARGEST_INT
    case UInt(u) => 0 <= u <= DecimalText.MAX_LARGEST_UINT
    case Arr(items) => forall item <- items :: InRange(item)
    case Obj(members) => forall m <- members :: InRange(m.value)
    case _ => true
  }

  lemma Regroup(a: string, b: string, c: string, rest: string)
    ensures a + (b + c + rest) == a + b + c + rest
  {
  }

  class FastWriter {
    var document: string
    const doubles: Doubles

    constructor (doubles: Doubles)
      ensures this.doubles == doubles
    {
      this.doubles := doubles;
      document := "";
    }

    method Write(root: Json) returns (text: string)
      requires InRange(root)
      modifies this
      ensures text == Document(root, doubles)
    {
      document := "";
      WriteValue(root);
      document := document + "\n";
      text := document;
    }

    method WriteValue(value: Json)
      requires InRange(value)
      modifies this
      ensures document == old(document) + Text(value, doubles)
      decreases value
    {
      match value
      case Null =>
        document := document + "null";
      case Int(i) =>
        var text := DecimalText.SignedToString(i);
        document := document + text;
      case UInt(u) =>
        var text := DecimalText.UnsignedToString(u);
        document := document + text;
      case Real(d) =>
        document := document + doubles.show(d);
      case Str(s) =>
        var text := QuotedString.ValueToQuotedString(s);
        document := document + text;
      case Bool(b) =>
        document := document + (if b then "true" else "false");
      case Arr(items) =>
        WriteArray(items);
      case Obj(members) =>
        WriteObject(members);
    }

    /** The array case of writeValue. */
    method WriteArray(items: seq<Json>)
      requires forall item <- items :: InRange(item)
      modifies this
      ensures document == old(document) + Text(Arr(items), doubles)
      decreases items
    {
      document := document + "[";
      ghost var target := document + ItemsText(items, true, doubles);
      for index := 0 to |items|
        invariant target == document + ItemsText(items[index..], index == 0, doubles)
      {
        ghost var before, rest := document, items[index..];
        if index > 0 {
          document := document + ",";
        }
        WriteValue(items[index]);
        assert rest[1..] == items[index + 1..];
        Regroup(before, if index > 0 then "," else "", Text(rest[0], doubles), ItemsText(rest[1..], false, doubles));
      }
      assert items[|items|..] == [];
      document := document + "]";
      Regroup(old(document), "[", ItemsText(items, true, doubles), "]");
    }

    /** The object case of writeValue. */
    method WriteObject(members: seq<Member>)
      requires forall m <- members :: InRange(m.value)
      modifies this
      ensures document == old(document) + Text(Obj(members), doubles)
      decreases members
    {
      document := document + "{";
      ghost var target := document + MembersText(members, true, doubles);
      for index := 0 to |members|
        invariant target == document + MembersText(members[index..], index == 0, doubles)
      {
        ghost var before, rest := document, members[index..];
        assert members[index] in members;
        if index > 0 {
          document := document + ",";
        }
        WriteMember(members[index]);
        assert rest[1..] == members[index + 1..];
        Regroup(before, if index > 0 then "," else "", MemberText(rest[0], doubles), MembersText(rest[1..], false, doubles));
      }
      assert members[|members|..] == [];
      document := document + "}";
      Regroup(old(document), "{", MembersText(members, true, doubles), "}");
    }

    method WriteMember(m: Member)
      requires InRange(m.value)
      modifies this
      ensures document == old(document) + MemberText(m, doubles)
      decreases m
    {
      var name := QuotedString.ValueToQuotedString(m.key);
      document := document + name;
      document := document + ":";
      WriteValue(m.value);
    }
  }
}
