/** What Json::Reader computes, as recursive functions of the document. The reader runs with the default
    features and collects no comments. */
module JsonParser {
  import opened Options
  import opened JsonScanner
  import opened JsonValue
  import DecimalText
  import QuotedString

  /** stackLimit_g */
  const STACK_LIMIT: nat := 1000

  const NO_VALUE := "Syntax error: value, object or array expected."
  const NO_COLON := "Missing ':' after object member name"
  const NO_COMMA_IN_OBJECT := "Missing ',' or '}' in object declaration"
  const NO_COMMA_IN_ARRAY := "Missing ',' or ']' in array declaration"
  const NO_MEMBER := "Missing '}' or object member name"

  function NotANumber(text: string): string {
    "'" + text + "' is not a number."
  }

  datatype ErrorInfo = ErrorInfo(token: Token, message: string)

  /** A normal return leaves a value, possibly partial, a position, and the error recorded if it failed. */
  datatype Parsed = Parsed(value: Json, pos: nat, error: Option<ErrorInfo>) | Threw

  function TextOf(doc: string, token: Token): string
    requires token.start <= token.end <= |doc|
  {
    doc[token.start..token.end]
  }

  /** What stands between the quotes. */
  function Inside(doc: string, token: Token): string
    requires token.start + 2 <= token.end <= |doc|
  {
    doc[token.start + 1..token.end - 1]
  }

  /** decodeNumber, decodeDouble included; none is "not a number". */
  function NumberValue(text: string, doubles: Doubles): Option<Json>
    requires text != ""
  {
    match DecimalText.Decoded(text)
    case Signed(i) => Some(Int(i))
    case Unsigned(u) => Some(UInt(u))
    case NotAnInteger =>
      match doubles.parse(text)
      case Some(d) => Some(Real(d))
      case None => None
  }

  function Failure(value: Json, pos: nat, token: Token, message: string): Parsed {
    Parsed(value, pos, Some(ErrorInfo(token, message)))
  }

  /** readValue, with `depth` nodes on the stack and the current value on top. */
  function ParseValue(doc: string, pos: nat, depth: nat, current: Json, doubles: Doubles): (r: Parsed)
    requires pos <= |doc|
    ensures r.Parsed? ==> pos <= r.pos <= |doc|
    decreases |doc| - pos, 0
  {
    if depth > STACK_LIMIT then Threw
    else
      var token := ValueToken(doc, pos);
      match token.kind
      case ObjectBegin => ParseMembers(doc, token.end, depth, [], "", doubles)
      case ArrayBegin =>
        var first := SkipSpaces(doc, token.end);
        if At(doc, first, ']') then Parsed(Arr([]), first + 1, None)
        else ParseItems(doc, first, depth, [], doubles)
      case Number =>
        (match NumberValue(TextOf(doc, token), doubles)
         case Some(number) => Parsed(number, token.end, None)
         case None => Failure(current, token.end, token, NotANumber(TextOf(doc, token))))
      case String =>
        (match QuotedString.Contents(Inside(doc, token))
         case Decoded(text) => Parsed(Str(text), token.end, None)
         case Failed(message) => Failure(current, token.end, token, message))
      case TrueWord => Parsed(Bool(true), token.end, None)
      case FalseWord => Parsed(Bool(false), token.end, None)
      case NullWord => Parsed(Null, token.end, None)
      case _ => Failure(current, token.end, token, NO_VALUE)
  }

  /** The loop of readObject, at the next member name; `name` is the previous one. */
  function ParseMembers(doc: string, pos: nat, depth: nat, members: seq<Member>, name: string, doubles: Doubles): (r: Parsed)
    requires pos <= |doc|
    ensures r.Parsed? ==> pos <= r.pos <= |doc|
    decreases |doc| - pos, 1
  {
    var token := ValueToken(doc, pos);
    if token.kind == ObjectEnd && name == "" then Parsed(Obj(members), token.end, None)
    else if token.kind != String then
      Failure(Obj(members), Recovered(doc, token.end, ObjectEnd), token, NO_MEMBER)
    else
      match QuotedString.Contents(Inside(doc, token))
      case Failed(message) => Failure(Obj(members), Recovered(doc, token.end, ObjectEnd), token, message)
      case Decoded(key) =>
        var colon := TokenAt(doc, token.end);
        if colon.kind != MemberSeparator then
          Failure(Obj(members), Recovered(doc, colon.end, ObjectEnd), colon, NO_COLON)
        else ParseMemberValue(doc, colon.end, depth, members, key, doubles)
  }

  /** The value of a member, after the colon. */
  function ParseMemberValue(doc: string, pos: nat, depth: nat, members: seq<Member>, key: string, doubles: Doubles): (r: Parsed)
    requires pos <= |doc|
    ensures r.Parsed? ==> pos <= r.pos <= |doc|
    decreases |doc| - pos, 1
  {
    match ParseValue(doc, pos, depth + 1, Lookup(members, key), doubles)
    case Threw => Threw
    case Parsed(value, after, error) =>
      var extended := Put(members, key, value);
      if error.Some? then Parsed(Obj(extended), Recovered(doc, after, ObjectEnd), error)
      else ParseAfterMember(doc, after, depth, extended, key, doubles)
  }

  /** The separator after a member. After a comment, any token but the closing brace passes for a comma. */
  function ParseAfterMember(doc: string, pos: nat, depth: nat, members: seq<Member>, key: string, doubles: Doubles): (r: Parsed)
    requires pos <= |doc|
    ensures r.Parsed? ==> pos <= r.pos <= |doc|
    decreases |doc| - pos, 0
  {
    var comma := TokenAt(doc, pos);
    if comma.kind != ObjectEnd && comma.kind != ArraySeparator && comma.kind != Comment then
      Failure(Obj(members), Recovered(doc, comma.end, ObjectEnd), comma, NO_COMMA_IN_OBJECT)
    else
      var last := if comma.kind == Comment then ValueToken(doc, comma.end) else comma;
      if last.kind == ObjectEnd then Parsed(Obj(members), last.end, None)
      else ParseMembers(doc, last.end, depth, members, key, doubles)
  }

  /** The loop of readArray, at the next item. */
  function ParseItems(doc: string, pos: nat, depth: nat, items: seq<Json>, doubles: Doubles): (r: Parsed)
    requires pos <= |doc|
    ensures r.Parsed? ==> pos <= r.pos <= |doc|
    decreases |doc| - pos, 1
  {
    match ParseValue(doc, pos, depth + 1, Null, doubles)
    case Threw => Threw
    case Parsed(value, after, error) =>
      var extended := items + [value];
      if error.Some? then Parsed(Arr(extended), Recovered(doc, after, ArrayEnd), error)
      else
        var token := ValueToken(doc, after);
        if token.kind == ArrayEnd then Parsed(Arr(extended), token.end, None)
        else if token.kind != ArraySeparator then
          Failure(Arr(extended), Recovered(doc, token.end, ArrayEnd), token, NO_COMMA_IN_ARRAY)
        else ParseItems(doc, token.end, depth, extended, doubles)
  }

  /** parse: the value the root is left with, and whether it was accepted. What follows the first value is ignored. */
  function Parse(doc: string, root: Json, doubles: Doubles): Parsed {
    ParseValue(doc, 0, 1, root, doubles)
  }
}
