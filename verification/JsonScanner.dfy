/** The tokeniser of Json::Reader, as functions of the document and a position in it. */
module JsonScanner {
  import DecimalText

  datatype TokenKind =
    | EndOfStream | ObjectBegin | ObjectEnd | ArrayBegin | ArrayEnd | String | Number
    | TrueWord | FalseWord | NullWord | ArraySeparator | MemberSeparator | Comment | Error

  datatype Token = Token(kind: TokenKind, start: nat, end: nat)

  /** Whether a scan succeeded, and where it stopped. */
  datatype Scan = Scan(ok: bool, end: nat)

  predicate IsSpace(c: char) {
    c == ' ' || c == '\t' || c == '\r' || c == '\n'
  }

  function SkipSpaces(doc: string, pos: nat): (end: nat)
    requires pos <= |doc|
    ensures pos <= end <= |doc|
    decreases |doc| - pos
  {
    if pos < |doc| && IsSpace(doc[pos]) then SkipSpaces(doc, pos + 1) else pos
  }

  function SkipDigits(doc: string, pos: nat): (end: nat)
    requires pos <= |doc|
    ensures pos <= end <= |doc|
    decreases |doc| - pos
  {
    if pos < |doc| && DecimalText.IsDigit(doc[pos]) then SkipDigits(doc, pos + 1) else pos
  }

  predicate At(doc: string, pos: nat, c: char) {
    pos < |doc| && doc[pos] == c
  }

  function SkipFraction(doc: string, pos: nat): (end: nat)
    requires pos <= |doc|
    ensures pos <= end <= |doc|
  {
    if At(doc, pos, '.') then SkipDigits(doc, pos + 1) else pos
  }

  function SkipExponent(doc: string, pos: nat): (end: nat)
    requires pos <= |doc|
    ensures pos <= end <= |doc|
  {
    if !At(doc, pos, 'e') && !At(doc, pos, 'E') then pos
    else if At(doc, pos + 1, '+') || At(doc, pos + 1, '-') then SkipDigits(doc, pos + 2)
    else SkipDigits(doc, pos + 1)
  }

  /** readNumber, after the first character. */
  function NumberEnd(doc: string, pos: nat): (end: nat)
    requires pos <= |doc|
    ensures pos <= end <= |doc|
  {
    SkipExponent(doc, SkipFraction(doc, SkipDigits(doc, pos)))
  }

  /** readString, after the opening quote: up to the first quote that no backslash precedes. */
  function StringEnd(doc: string, pos: nat): (scan: Scan)
    requires pos <= |doc|
    ensures pos <= scan.end <= |doc|
    ensures scan.ok ==> pos < scan.end
    decreases |doc| - pos
  {
    if pos == |doc| then Scan(false, pos)
    else if doc[pos] == '\"' then Scan(true, pos + 1)
    else if doc[pos] == '\\' && pos + 1 < |doc| then StringEnd(doc, pos + 2)
    else StringEnd(doc, pos + 1)
  }

  /** readCStyleComment, after the opening. */
  function BlockCommentEnd(doc: string, pos: nat): (scan: Scan)
    requires pos <= |doc|
    ensures pos <= scan.end <= |doc|
    decreases |doc| - pos
  {
    if pos == |doc| then Scan(false, pos)
    else if pos + 1 == |doc| then Scan(doc[pos] == '/', pos + 1)
    else if doc[pos] == '*' && doc[pos + 1] == '/' then Scan(true, pos + 2)
    else BlockCommentEnd(doc, pos + 1)
  }

  /** readCppStyleComment, after the opening. */
  function LineCommentEnd(doc: string, pos: nat): (end: nat)
    requires pos <= |doc|
    ensures pos <= end <= |doc|
    decreases |doc| - pos
  {
    if pos == |doc| then pos
    else if doc[pos] == '\n' then pos + 1
    else if doc[pos] == '\r' then if At(doc, pos + 1, '\n') then pos + 2 else pos + 1
    else LineCommentEnd(doc, pos + 1)
  }

  /** readComment, after the first slash. */
  function CommentEnd(doc: string, pos: nat): (scan: Scan)
    requires pos <= |doc|
    ensures pos <= scan.end <= |doc|
  {
    if At(doc, pos, '*') then BlockCommentEnd(doc, pos + 1)
    else if At(doc, pos, '/') then Scan(true, LineCommentEnd(doc, pos + 1))
    else Scan(false, if pos < |doc| then pos + 1 else pos)
  }

  /** match: the cursor moves only when the whole pattern is there. */
  function KeywordEnd(doc: string, pos: nat, pattern: string): (scan: Scan)
    requires pos <= |doc|
    ensures pos <= scan.end <= |doc|
  {
    if pattern <= doc[pos..] then Scan(true, pos + |pattern|) else Scan(false, pos)
  }

  function Scanned(kind: TokenKind, start: nat, scan: Scan): Token {
    Token(if scan.ok then kind else Error, start, scan.end)
  }

  /** readToken: it succeeds unless the kind is Error, and leaves the cursor at the token's end. */
  function TokenAt(doc: string, pos: nat): (token: Token)
    requires pos <= |doc|
    ensures pos <= token.start <= token.end <= |doc|
    ensures pos < |doc| ==> pos < token.end
    ensures token.kind != EndOfStream ==> token.start < token.end
    ensures token.kind == String ==> token.start + 2 <= token.end
  {
    var start := SkipSpaces(doc, pos);
    if start == |doc| then Token(EndOfStream, start, start)
    else
      var next := start + 1;
      match doc[start]
      case '{' => Token(ObjectBegin, start, next)
      case '}' => Token(ObjectEnd, start, next)
      case '[' => Token(ArrayBegin, start, next)
      case ']' => Token(ArrayEnd, start, next)
      case '\"' => Scanned(String, start, StringEnd(doc, next))
      case '/' => Scanned(Comment, start, CommentEnd(doc, next))
      case 't' => Scanned(TrueWord, start, KeywordEnd(doc, next, "rue"))
      case 'f' => Scanned(FalseWord, start, KeywordEnd(doc, next, "alse"))
      case 'n' => Scanned(NullWord, start, KeywordEnd(doc, next, "ull"))
      case ',' => Token(ArraySeparator, start, next)
      case ':' => Token(MemberSeparator, start, next)
      case '\0' => Token(EndOfStream, start, next)
      case c => if DecimalText.IsDigit(c) || c == '-' then Token(Number, start, NumberEnd(doc, next)) else Token(Error, start, next)
  }

  /** skipCommentTokens */
  function ValueToken(doc: string, pos: nat): (token: Token)
    requires pos <= |doc|
    ensures pos <= token.start <= token.end <= |doc|
    ensures token.kind != EndOfStream ==> pos <= token.start < token.end
    ensures token.kind == String ==> token.start + 2 <= token.end
    ensures token.kind != Comment
    decreases |doc| - pos
  {
    var token := TokenAt(doc, pos);
    if token.kind == Comment then ValueToken(doc, token.end) else token
  }

  /** recoverFromError: the position after the first token of the given kind, or after the end of the stream. */
  function Recovered(doc: string, pos: nat, skipUntil: TokenKind): (end: nat)
    requires pos <= |doc|
    ensures pos <= end <= |doc|
    decreases |doc| - pos
  {
    var token := TokenAt(doc, pos);
    if token.kind == skipUntil || token.kind == EndOfStream then token.end
    else Recovered(doc, token.end, skipUntil)
  }
}
