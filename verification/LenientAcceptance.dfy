/** The reader accepts every text of its language that is nested within its limit, with the value denoted. */
module LenientAcceptance {
  import opened Options
  import opened JsonScanner
  import opened JsonValue
  import opened JsonParser
  import opened JsonGrammar
  import opened LenientGrammar
  import DecimalText
  import QuotedString
  import Utf8

  lemma Slice(s: string, start: nat, end: nat, a: nat, b: nat)
    requires start <= end <= |s| && a <= b <= end - start
    ensures s[start..end][a..b] == s[start + a..start + b]
  {
    var x := s[start..end];
    assert forall i :: a <= i < b ==> x[i] == s[start + i];
    forall i | 0 <= i < b - a ensures x[a..b][i] == s[start + a..start + b][i] {
    }
  }

  // ---------- Strings ----------

  /** The inside of a string token: no bare quote, and no backslash left alone at the end. */
  predicate IsBody(s: string) {
    || s == ""
    || (s[0] == '\\' && |s| >= 2 && IsBody(s[2..]))
    || (s[0] != '\\' && s[0] != '\"' && IsBody(s[1..]))
  }

  lemma {:induction false} PlainThenBody(s: string, n: nat)
    requires n <= |s| && forall i :: 0 <= i < n ==> s[i] != '\\' && s[i] != '\"'
    requires IsBody(s[n..])
    ensures IsBody(s)
  {
    if n > 0 {
      assert s[1..][n - 1..] == s[n..];
      PlainThenBody(s[1..], n - 1);
    } else {
      assert s[0..] == s;
    }
  }

  /** A \u escape is skipped as a whole. */
  lemma UnitThenBody(s: string)
    requires UnitAt(s, 0) && IsBody(s[6..])
    ensures IsBody(s)
  {
    assert forall i :: 0 <= i < 4 ==> s[2..][i] == s[i + 2];
    assert s[2..][4..] == s[6..];
    PlainThenBody(s[2..], 4);
  }

  lemma {:induction false} CharsAreBody(s: string)
    requires IsLooseChars(s)
    ensures IsBody(s)
  {
    if s != "" {
      var n := LooseLength(s);
      CharsAreBody(s[n..]);
      if n == 12 {
        assert forall i :: 0 <= i < 6 ==> s[6..][i] == s[i + 6];
        assert s[6..][6..] == s[12..];
        UnitThenBody(s[6..]);
        UnitThenBody(s);
      } else if n == 6 {
        UnitThenBody(s);
      }
    }
  }

  lemma HexIsRead(s: string, at: nat)
    requires HexAt(s, at)
    ensures QuotedString.FourHexDigits(s, at) == QuotedString.Unit(HexNumber(s, at), 4)
  {
  }

  lemma UnitIsRead(s: string)
    requires s != "" && LooseLength(s) == 6
    ensures QuotedString.FirstPiece(s) == QuotedString.Piece(LooseMeaning(s), 6)
  {
    HexIsRead(s, 2);
    hide QuotedString.FourHexDigits, HexNumber, HexAt;
  }

  lemma HighHalf(high: int)
    requires IsHigh(high)
    ensures high % 0x400 == high - 0xD800
  {
  }

  lemma SurrogatesAreRead(s: string)
    requires s != "" && LooseLength(s) == 12
    ensures QuotedString.FirstPiece(s) == QuotedString.Piece(LooseMeaning(s), 12)
  {
    HexIsRead(s, 2);
    HexIsRead(s, 8);
    hide QuotedString.FourHexDigits, HexNumber, HexAt;
    var high, low := HexNumber(s, 2), HexNumber(s, 8);
    HighHalf(high);
    assert QuotedString.UnicodeEscape(s, 2) == QuotedString.Unit(0x10000 + (high - 0xD800) * 0x400 + low % 0x400, 10);
    hide QuotedString.UnicodeEscape, IsHigh, Utf8.CodePointToUtf8;
  }

  /** One step of the decoder takes one char and yields its meaning. */
  lemma CharIsRead(s: string)
    requires s != "" && LooseLength(s) > 0
    ensures QuotedString.FirstPiece(s) == QuotedString.Piece(LooseMeaning(s), LooseLength(s))
  {
    if LooseLength(s) == 12 {
      SurrogatesAreRead(s);
    } else if LooseLength(s) == 6 {
      UnitIsRead(s);
    } else {
      hide QuotedString.UnicodeEscape, UnitAt, HexNumber, IsHigh;
    }
  }

  /** The decoder accepts every string of the language, with its meaning. */
  lemma {:induction false} LooseCharsAreRead(s: string)
    requires IsLooseChars(s)
    ensures QuotedString.Contents(s) == QuotedString.Decoded(LooseCharsMeaning(s))
  {
    if s != "" {
      CharIsRead(s);
      hide QuotedString.FirstPiece, LooseMeaning;
      LooseCharsAreRead(s[LooseLength(s)..]);
    }
  }

  lemma {:induction false} BodyIsScanned(doc: string, pos: nat, end: nat)
    requires pos <= end <= |doc| && IsBody(doc[pos..end]) && At(doc, end, '\"')
    ensures StringEnd(doc, pos) == Scan(true, end + 1)
    decreases end - pos
  {
    var body := doc[pos..end];
    if pos < end {
      var k := if body[0] == '\\' then 2 else 1;
      assert body[k..] == doc[pos + k..end];
      BodyIsScanned(doc, pos + k, end);
    }
  }

  lemma QuoteToken(doc: string, pos: nat)
    requires At(doc, pos, '\"')
    ensures TokenAt(doc, pos) == Scanned(TokenKind.String, pos, StringEnd(doc, pos + 1))
  {
    hide StringEnd;
  }

  lemma LooseStringToken(doc: string, start: nat, end: nat)
    requires IsLooseString(doc, start, end)
    ensures TokenAt(doc, start) == Token(TokenKind.String, start, end)
    ensures QuotedString.Contents(Inside(doc, TokenAt(doc, start))) == QuotedString.Decoded(LooseStringMeaning(doc, start, end))
  {
    hide IsLooseChars, IsBody, StringEnd, LooseCharsMeaning, QuotedString.Contents, TokenAt;
    CharsAreBody(doc[start + 1..end - 1]);
    LooseCharsAreRead(doc[start + 1..end - 1]);
    BodyIsScanned(doc, start + 1, end - 1);
    QuoteToken(doc, start);
  }

  // ---------- Numbers ----------

  lemma {:induction false} DigitsAreSkipped(doc: string, pos: nat, end: nat)
    requires pos <= end <= |doc| && DecimalText.AllDigits(doc[pos..end])
    requires end == |doc| || !DecimalText.IsDigit(doc[end])
    ensures SkipDigits(doc, pos) == end
    decreases end - pos
  {
    if pos < end {
      assert DecimalText.IsDigit(doc[pos..end][0]);
      Slice(doc, pos, end, 1, end - pos);
      DigitsAreSkipped(doc, pos + 1, end);
    }
  }

  lemma LooseNumberEnd(doc: string, start: nat, end: nat, d: nat, f: nat)
    requires IsLooseNumber(doc, start, end, d, f)
    ensures NumberEnd(doc, start + 1) == end
  {
    hide DecimalText.AllDigits;
    DigitsAreSkipped(doc, start + 1, d);
    if At(doc, d, '.') {
      DigitsAreSkipped(doc, d + 1, f);
    }
    if At(doc, f, 'e') || At(doc, f, 'E') {
      DigitsAreSkipped(doc, if At(doc, f + 1, '+') || At(doc, f + 1, '-') then f + 2 else f + 1, end);
    }
    hide SkipDigits;
  }

  lemma LooseNumberToken(doc: string, start: nat, end: nat)
    requires IsNumberToken(doc, start, end)
    ensures TokenAt(doc, start) == Token(TokenKind.Number, start, end)
  {
    var d: nat, f: nat :| IsLooseNumber(doc, start, end, d, f);
    LooseNumberEnd(doc, start, end, d, f);
    hide NumberEnd, MostDigits;
  }

  // ---------- Spaces and comments ----------

  lemma {:induction false} SpacesAreSkipped(doc: string, pos: nat, end: nat)
    requires Spaces(doc, pos, end) && (end == |doc| || !IsSpace(doc[end]))
    ensures SkipSpaces(doc, pos) == end
    decreases end - pos
  {
    if pos < end {
      SpacesAreSkipped(doc, pos + 1, end);
    }
  }

  lemma {:induction false} BlockCommentIsRead(doc: string, pos: nat, end: nat)
    requires pos < end <= |doc| && doc[end - 1] == '/' && ((pos + 2 <= end && doc[end - 2] == '*') || end == |doc|)
    requires NoCommentEnd(doc, pos, end - 1)
    ensures BlockCommentEnd(doc, pos) == Scan(true, end)
    decreases end - pos
  {
    if pos + 1 < end && !(pos + 2 == end && doc[pos] == '*') {
      BlockCommentIsRead(doc, pos + 1, end);
    }
  }

  lemma {:induction false} LineCommentIsRead(doc: string, pos: nat, stop: nat)
    requires NoLineEnd(doc, pos, stop)
    ensures LineCommentEnd(doc, pos) == LineCommentEnd(doc, stop)
    decreases stop - pos
  {
    if pos < stop {
      LineCommentIsRead(doc, pos + 1, stop);
    }
  }

  lemma CommentToken(doc: string, a: nat, b: nat)
    requires IsComment(doc, a, b)
    ensures TokenAt(doc, a) == Token(Comment, a, b)
  {
    if IsLineComment(doc, a, b) {
      if b == |doc| && NoLineEnd(doc, a + 2, b) {
        LineCommentIsRead(doc, a + 2, b);
      } else if doc[b - 1] == '\n' && a + 3 <= b && NoLineEnd(doc, a + 2, b - 1) {
        LineCommentIsRead(doc, a + 2, b - 1);
      } else if doc[b - 1] == '\n' {
        LineCommentIsRead(doc, a + 2, b - 2);
      } else {
        LineCommentIsRead(doc, a + 2, b - 1);
      }
    } else {
      BlockCommentIsRead(doc, a + 2, b);
    }
    CommentStarts(doc, a, b);
  }

  lemma CommentStarts(doc: string, a: nat, b: nat)
    requires At(doc, a, '/') && CommentEnd(doc, a + 1) == Scan(true, b)
    ensures TokenAt(doc, a) == Token(Comment, a, b)
  {
    hide CommentEnd;
  }

  /** The position where a token starts that is no comment. */
  predicate TokenStarts(doc: string, at: nat) {
    at <= |doc| && TokenAt(doc, at).start == at && TokenAt(doc, at).kind != Comment
  }

  lemma SpacesThenToken(doc: string, pos: nat, at: nat)
    requires Spaces(doc, pos, at) && TokenAt(doc, at).start == at
    ensures TokenAt(doc, pos) == TokenAt(doc, at)
  {
    StartIsNoSpace(doc, at);
    SpacesAreSkipped(doc, pos, at);
    SpacesAreSkipped(doc, at, at);
  }

  lemma StartIsNoSpace(doc: string, at: nat)
    requires at <= |doc| && TokenAt(doc, at).start == at
    ensures at == |doc| || !IsSpace(doc[at])
  {
    hide CommentEnd, StringEnd, KeywordEnd, NumberEnd;
  }

  /** Spaces and comments before a token do not matter. */
  lemma {:induction false} GapThenToken(doc: string, pos: nat, at: nat)
    requires Gap(doc, pos, at) && TokenStarts(doc, at)
    ensures ValueToken(doc, pos) == TokenAt(doc, at)
    decreases at - pos
  {
    hide TokenAt, IsComment;
    if pos < at {
      if IsSpace(doc[pos]) && Gap(doc, pos + 1, at) {
        GapThenToken(doc, pos + 1, at);
        OneSpace(doc, pos);
      } else {
        var c: nat :| pos < c <= at && IsComment(doc, pos, c) && Gap(doc, c, at);
        CommentToken(doc, pos, c);
        GapThenToken(doc, c, at);
      }
    }
  }

  lemma OneSpace(doc: string, pos: nat)
    requires pos < |doc| && IsSpace(doc[pos])
    ensures TokenAt(doc, pos) == TokenAt(doc, pos + 1) && ValueToken(doc, pos) == ValueToken(doc, pos + 1)
  {
    hide CommentEnd, StringEnd, KeywordEnd, NumberEnd;
  }

  lemma CommentedThenToken(doc: string, pos: nat, at: nat)
    requires CommentedGap(doc, pos, at) && TokenStarts(doc, at)
    ensures TokenAt(doc, pos).kind == Comment && ValueToken(doc, TokenAt(doc, pos).end) == TokenAt(doc, at)
  {
    hide TokenAt, IsComment, Gap;
    var c: nat, d: nat :| Spaces(doc, pos, c) && c < d && IsComment(doc, c, d) && Gap(doc, d, at);
    CommentToken(doc, c, d);
    SpacesThenToken(doc, pos, c);
    GapThenToken(doc, d, at);
  }

  // ---------- Tokens of values ----------

  function KindOf(c: char): TokenKind {
    match c
    case '{' => ObjectBegin
    case '}' => ObjectEnd
    case '[' => ArrayBegin
    case ']' => ArrayEnd
    case ',' => ArraySeparator
    case ':' => MemberSeparator
    case _ => TokenKind.Error
  }

  /** A structural character. */
  lemma MarkToken(doc: string, at: nat)
    requires at < |doc| && KindOf(doc[at]) != TokenKind.Error
    ensures TokenAt(doc, at) == Token(KindOf(doc[at]), at, at + 1) && TokenStarts(doc, at)
  {
  }

  lemma WordToken(doc: string, start: nat, end: nat, v: Json)
    requires start < end <= |doc| && IsWord(doc[start..end], v)
    ensures TokenAt(doc, start)
         == Token(if v == Null then NullWord else if v == Bool(true) then TrueWord else FalseWord, start, end)
  {
    var text := doc[start..end];
    assert text[0] == doc[start] && text[1..] <= doc[start + 1..];
    if v == Null {
      assert text[1..] == "ull";
    } else if v == Bool(true) {
      assert text[1..] == "rue";
    } else {
      assert text[1..] == "alse";
    }
  }

  /** A text starts with a token, which no closing bracket is. */
  lemma TextStarts(doc: string, start: nat, end: nat, t: Loose, doubles: Doubles)
    requires IsLoose(doc, start, end, t, doubles)
    ensures TokenStarts(doc, start) && start < |doc| && !IsSpace(doc[start]) && doc[start] != ']' && doc[start] != '}'
  {
    hide TokenAt, IsNumberToken, IsLooseChars, AreItems, ArePairs, Spaces, NumberValue;
    match t
    case LooseWord(v) =>
      WordToken(doc, start, end, v);
      assert doc[start..end][0] == doc[start];
    case LooseNumber =>
      LooseNumberToken(doc, start, end);
      NumberStarts(doc, start, end);
    case LooseString => LooseStringToken(doc, start, end);
    case LooseArray(_) => MarkToken(doc, start);
    case LooseObject(_) => MarkToken(doc, start);
  }

  lemma NumberStarts(doc: string, start: nat, end: nat)
    requires IsNumberToken(doc, start, end)
    ensures start < |doc| && (DecimalText.IsDigit(doc[start]) || doc[start] == '-')
  {
  }

  // ---------- Values ----------

  /** What the parser returns for a text, given the greatest depth in it. */
  ghost predicate ReadsBack(r: Parsed, v: Json, deepest: int, end: nat) {
    r == if deepest > STACK_LIMIT then Threw else Parsed(v, end, None)
  }

  lemma TooDeep(doc: string, pos: nat, depth: nat, current: Json, doubles: Doubles)
    requires pos <= |doc| && depth > STACK_LIMIT
    ensures ParseValue(doc, pos, depth, current, doubles) == Threw
  {
  }

  lemma ScalarIsRead(doc: string, pos: nat, start: nat, end: nat, t: Loose, depth: nat, current: Json, doubles: Doubles)
    requires Gap(doc, pos, start) && IsLoose(doc, start, end, t, doubles) && !t.LooseArray? && !t.LooseObject?
    requires depth <= STACK_LIMIT
    ensures ParseValue(doc, pos, depth, current, doubles) == Parsed(LooseDenoted(doc, start, end, t, doubles), end, None)
  {
    TextStarts(doc, start, end, t, doubles);
    GapThenToken(doc, pos, start);
    hide TokenAt, ValueToken, ParseItems, ParseMembers, IsNumberToken, NumberValue, QuotedString.Contents, Gap;
    hide IsLooseString, LooseStringMeaning;
    match t
    case LooseWord(v) => WordToken(doc, start, end, v);
    case LooseNumber => LooseNumberToken(doc, start, end);
    case LooseString => LooseStringToken(doc, start, end);
  }

  lemma {:induction false} LooseIsRead(
      doc: string, pos: nat, start: nat, end: nat, t: Loose, depth: nat, current: Json, doubles: Doubles)
    requires Gap(doc, pos, start) && IsLoose(doc, start, end, t, doubles) && depth >= 1
    ensures pos <= |doc|
    ensures ReadsBack(ParseValue(doc, pos, depth, current, doubles), LooseDenoted(doc, start, end, t, doubles),
                      depth + LooseDepth(t) - 1, end)
    decreases t, 0
  {
    hide ParseValue, Gap, IsLoose, LooseDenoted, ItemsDeep, PairsDeep;
    GapInside(doc, pos, start);
    if depth > STACK_LIMIT {
      TooDeep(doc, pos, depth, current, doubles);
    } else if t.LooseArray? {
      ArrayIsRead(doc, pos, start, end, t.items, depth, current, doubles);
    } else if t.LooseObject? {
      ObjectIsRead(doc, pos, start, end, t.pairs, depth, current, doubles);
    } else {
      ScalarIsRead(doc, pos, start, end, t, depth, current, doubles);
    }
  }

  lemma GapInside(doc: string, a: nat, b: nat)
    requires Gap(doc, a, b)
    ensures a <= b <= |doc|
  {
  }

  lemma ArrayOpens(doc: string, pos: nat, start: nat, first: nat, depth: nat, current: Json, doubles: Doubles)
    requires Gap(doc, pos, start) && At(doc, start, '[') && depth <= STACK_LIMIT
    requires Spaces(doc, start + 1, first) && first < |doc| && !IsSpace(doc[first])
    ensures pos <= |doc|
    ensures ParseValue(doc, pos, depth, current, doubles)
         == if doc[first] == ']' then Parsed(Arr([]), first + 1, None) else ParseItems(doc, first, depth, [], doubles)
  {
    hide TokenAt, Gap, SkipSpaces, ParseValue;
    MarkToken(doc, start);
    GapThenToken(doc, pos, start);
    GapInside(doc, pos, start);
    SpacesAreSkipped(doc, start + 1, first);
    hide ValueToken;
    BracketOpens(doc, pos, depth, current, doubles);
  }

  lemma ObjectOpens(doc: string, pos: nat, start: nat, depth: nat, current: Json, doubles: Doubles)
    requires Gap(doc, pos, start) && At(doc, start, '{') && depth <= STACK_LIMIT
    ensures pos <= |doc|
    ensures ParseValue(doc, pos, depth, current, doubles) == ParseMembers(doc, start + 1, depth, [], "", doubles)
  {
    hide TokenAt, Gap, ParseValue;
    MarkToken(doc, start);
    GapThenToken(doc, pos, start);
    GapInside(doc, pos, start);
    hide ValueToken;
    BracketOpens(doc, pos, depth, current, doubles);
  }

  /** How a value starts that starts with a bracket. */
  lemma BracketOpens(doc: string, pos: nat, depth: nat, current: Json, doubles: Doubles)
    requires pos <= |doc| && depth <= STACK_LIMIT
    ensures var token := ValueToken(doc, pos);
            && (token.kind == ObjectBegin ==>
                  ParseValue(doc, pos, depth, current, doubles) == ParseMembers(doc, token.end, depth, [], "", doubles))
            && (token.kind == ArrayBegin ==>
                  var first := SkipSpaces(doc, token.end);
                  ParseValue(doc, pos, depth, current, doubles)
                  == if At(doc, first, ']') then Parsed(Arr([]), first + 1, None)
                     else ParseItems(doc, first, depth, [], doubles))
  {
    hide ValueToken, ParseItems, ParseMembers, SkipSpaces;
  }

  /** Where the spaces (but no comments) at the start of a gap end. */
  lemma {:induction false} SpacesOfGap(doc: string, a: nat, b: nat) returns (c: nat)
    requires Gap(doc, a, b)
    ensures Spaces(doc, a, c) && c <= b && Gap(doc, c, b) && (c == b || At(doc, c, '/'))
    decreases b - a
  {
    c := a;
    if a < b && IsSpace(doc[a]) && Gap(doc, a + 1, b) {
      c := SpacesOfGap(doc, a + 1, b);
    }
  }

  /** One round of the item loop. */
  lemma ItemRound(doc: string, pos: nat, depth: nat, done: seq<Json>, value: Json, end: nat, after: nat, doubles: Doubles)
    requires pos <= |doc| && Gap(doc, end, after)
    requires At(doc, after, ',') || At(doc, after, ']')
    ensures var r := ParseValue(doc, pos, depth + 1, Null, doubles);
            && (r == Threw ==> ParseItems(doc, pos, depth, done, doubles) == Threw)
            && (r == Parsed(value, end, None) ==>
                  ParseItems(doc, pos, depth, done, doubles)
                  == if doc[after] == ']' then Parsed(Arr(done + [value]), after + 1, None)
                     else ParseItems(doc, after + 1, depth, done + [value], doubles))
  {
    hide ParseValue, Gap, TokenAt, ValueToken;
    MarkToken(doc, after);
    GapThenToken(doc, end, after);
    GapInside(doc, end, after);
  }

  lemma Associate<T>(a: seq<T>, b: seq<T>, c: seq<T>)
    ensures (a + b) + c == a + (b + c)
  {
  }

  lemma {:induction false} ArrayIsRead(
      doc: string, pos: nat, start: nat, end: nat, items: seq<Item>, depth: nat, current: Json, doubles: Doubles)
    requires Gap(doc, pos, start) && IsLoose(doc, start, end, LooseArray(items), doubles) && 1 <= depth <= STACK_LIMIT
    ensures pos <= |doc|
    ensures ReadsBack(ParseValue(doc, pos, depth, current, doubles), LooseDenoted(doc, start, end, LooseArray(items), doubles),
                      depth + ItemsDeep(items), end)
    decreases items, 3
  {
    hide ParseValue, ParseItems, Spaces, Gap;
    if items == [] {
      ArrayOpens(doc, pos, start, end - 1, depth, current, doubles);
    } else {
      var item := items[0];
      assert IsItem(doc, start + 1, item, doubles);
      TextStarts(doc, item.start, item.end, item.text, doubles);
      var first := SpacesOfGap(doc, start + 1, item.start);
      ArrayOpens(doc, pos, start, first, depth, current, doubles);
      FirstAfterSpaces(doc, start + 1, first, end, items, doubles);
      ItemsAreRead(doc, first, end, items, [], depth, doubles);
      assert [] + ItemsDenoted(doc, first, end, items, doubles) == ItemsDenoted(doc, first, end, items, doubles);
    }
  }

  lemma FirstAfterSpaces(doc: string, pos: nat, first: nat, end: nat, items: seq<Item>, doubles: Doubles)
    requires items != [] && AreItems(doc, pos, end, items, doubles) && Gap(doc, first, items[0].start)
    ensures AreItems(doc, first, end, items, doubles)
    ensures ItemsDenoted(doc, first, end, items, doubles) == ItemsDenoted(doc, pos, end, items, doubles)
  {
    hide Gap, IsLoose, LooseDenoted;
  }

  lemma {:induction false} ItemIsRead(doc: string, pos: nat, item: Item, depth: nat, doubles: Doubles)
    requires IsItem(doc, pos, item, doubles) && depth >= 1
    ensures pos <= |doc|
    ensures ReadsBack(ParseValue(doc, pos, depth, Null, doubles), ItemDenoted(doc, pos, item, doubles),
                      depth + ItemDeep(item) - 1, item.end)
    decreases item, 1
  {
    hide ParseValue, Gap;
    LooseIsRead(doc, pos, item.start, item.end, item.text, depth, Null, doubles);
  }

  lemma {:induction false} ItemsAreRead(
      doc: string, pos: nat, end: nat, items: seq<Item>, done: seq<Json>, depth: nat, doubles: Doubles)
    requires items != [] && AreItems(doc, pos, end, items, doubles) && depth >= 1
    ensures pos <= |doc|
    ensures ReadsBack(ParseItems(doc, pos, depth, done, doubles),
                      Arr(done + ItemsDenoted(doc, pos, end, items, doubles)), depth + ItemsDeep(items), end)
    decreases items, 2
  {
    hide ParseValue, ParseItems, LooseDenoted, LooseDepth, Gap, IsLoose;
    var item, others := items[0], items[1..];
    var value := ItemDenoted(doc, pos, item, doubles);
    ItemIsRead(doc, pos, item, depth + 1, doubles);
    ItemRound(doc, pos, depth, done, value, item.end, item.after, doubles);
    if depth + ItemDeep(item) <= STACK_LIMIT {
      if others != [] {
        ItemsAreRead(doc, item.after + 1, end, others, done + [value], depth, doubles);
        Associate(done, [value], ItemsDenoted(doc, item.after + 1, end, others, doubles));
      } else {
        assert ItemsDenoted(doc, pos, end, items, doubles) == [value];
      }
    }
  }

  // ---------- Members ----------

  lemma Closes(doc: string, pos: nat, after: nat, depth: nat, members: seq<Member>, key: string, doubles: Doubles)
    requires IsClosed(doc, pos, after) && pos <= |doc|
    ensures ParseAfterMember(doc, pos, depth, members, key, doubles) == Parsed(Obj(members), after + 1, None)
  {
    hide TokenAt, ValueToken, ParseMembers, Spaces, CommentedGap;
    MarkToken(doc, after);
    if CommentedGap(doc, pos, after) {
      CommentedThenToken(doc, pos, after);
    } else {
      SpacesThenToken(doc, pos, after);
    }
  }

  lemma Separates(
      doc: string, pos: nat, after: nat, next: nat, depth: nat, members: seq<Member>, key: string, doubles: Doubles)
    requires IsSeparator(doc, pos, after, next) && pos <= |doc|
    ensures next <= |doc|
    ensures ParseAfterMember(doc, pos, depth, members, key, doubles) == ParseMembers(doc, next, depth, members, key, doubles)
  {
    hide TokenAt, ValueToken, ParseMembers, Spaces, CommentedGap;
    if CommentedGap(doc, pos, after) && TokenStarts(doc, after) && TokenAt(doc, after).end == next && TokenAt(doc, after).kind != ObjectEnd {
      CommentedThenToken(doc, pos, after);
    } else {
      MarkToken(doc, after);
      SpacesThenToken(doc, pos, after);
    }
  }

  /** The name and the colon of a member. */
  lemma MemberOpens(doc: string, pos: nat, pair: Pair, depth: nat, done: seq<Member>, name: string, doubles: Doubles)
    requires IsPair(doc, pos, pair, doubles)
    ensures pos <= |doc| && pair.colon < |doc|
    ensures ParseMembers(doc, pos, depth, done, name, doubles)
         == ParseMemberValue(doc, pair.colon + 1, depth, done, LooseStringMeaning(doc, pair.name, pair.nameEnd), doubles)
  {
    hide TokenAt, ValueToken, ParseMemberValue, Spaces, Gap, QuotedString.Contents, IsLooseChars, LooseCharsMeaning, IsItem;
    LooseStringToken(doc, pair.name, pair.nameEnd);
    GapThenToken(doc, pos, pair.name);
    GapInside(doc, pos, pair.name);
    MarkToken(doc, pair.colon);
    SpacesThenToken(doc, pair.nameEnd, pair.colon);
  }

  lemma ValueOfMember(
      doc: string, pos: nat, depth: nat, done: seq<Member>, key: string, value: Json, end: nat, deepest: int, doubles: Doubles)
    requires pos <= |doc| && end <= |doc|
    requires ReadsBack(ParseValue(doc, pos, depth + 1, Lookup(done, key), doubles), value, deepest, end)
    ensures ParseMemberValue(doc, pos, depth, done, key, doubles)
         == if deepest > STACK_LIMIT then Threw else ParseAfterMember(doc, end, depth, Put(done, key, value), key, doubles)
  {
    hide ParseValue, ParseAfterMember, Put, Lookup;
  }

  lemma {:induction false} ObjectIsRead(
      doc: string, pos: nat, start: nat, end: nat, pairs: seq<Pair>, depth: nat, current: Json, doubles: Doubles)
    requires Gap(doc, pos, start) && IsLoose(doc, start, end, LooseObject(pairs), doubles) && 1 <= depth <= STACK_LIMIT
    ensures pos <= |doc|
    ensures ReadsBack(ParseValue(doc, pos, depth, current, doubles), LooseDenoted(doc, start, end, LooseObject(pairs), doubles),
                      depth + PairsDeep(pairs), end)
    decreases pairs, 3
  {
    hide ParseValue, ParseMembers, Gap, PairsDeep;
    ObjectOpens(doc, pos, start, depth, current, doubles);
    PairsAreRead(doc, start + 1, end, pairs, "", [], depth, doubles);
  }

  lemma NoMorePairs(doc: string, pos: nat, end: nat, depth: nat, done: seq<Member>, doubles: Doubles)
    requires 0 < end <= |doc| && Gap(doc, pos, end - 1) && At(doc, end - 1, '}')
    ensures pos <= |doc| && ParseMembers(doc, pos, depth, done, "", doubles) == Parsed(Obj(done), end, None)
  {
    hide TokenAt, ValueToken, Gap, ParseMemberValue;
    MarkToken(doc, end - 1);
    GapThenToken(doc, pos, end - 1);
    GapInside(doc, pos, end - 1);
  }

  /** One member, up to its value. */
  lemma {:induction false} PairIsRead(
      doc: string, pos: nat, pair: Pair, name: string, done: seq<Member>, depth: nat, doubles: Doubles)
    requires IsPair(doc, pos, pair, doubles) && depth >= 1
    ensures pos <= |doc| && pair.value.end <= |doc|
    ensures var m := PairDenoted(doc, pos, pair, doubles);
            ParseMembers(doc, pos, depth, done, name, doubles)
            == if depth + PairDeep(pair) > STACK_LIMIT then Threw
               else ParseAfterMember(doc, pair.value.end, depth, Put(done, m.key, m.value), m.key, doubles)
    decreases pair, 2
  {
    hide ParseValue, ParseMembers, ParseMemberValue, ParseAfterMember, LooseDenoted, LooseDepth, Put, Lookup, Gap, Spaces;
    hide IsLooseString, LooseStringMeaning;
    MemberOpens(doc, pos, pair, depth, done, name, doubles);
    var key, item := LooseStringMeaning(doc, pair.name, pair.nameEnd), pair.value;
    assert IsItem(doc, pair.colon + 1, item, doubles);
    LooseIsRead(doc, pair.colon + 1, item.start, item.end, item.text, depth + 1, Lookup(done, key), doubles);
    TextInside(doc, item.start, item.end, item.text, doubles);
    ValueOfMember(doc, pair.colon + 1, depth, done, key, ItemDenoted(doc, pair.colon + 1, item, doubles), item.end,
                  depth + LooseDepth(item.text), doubles);
  }

  lemma TextInside(doc: string, start: nat, end: nat, t: Loose, doubles: Doubles)
    requires IsLoose(doc, start, end, t, doubles)
    ensures start < end <= |doc|
  {
  }

  lemma {:induction false} PairsAreRead(
      doc: string, pos: nat, end: nat, pairs: seq<Pair>, name: string, done: seq<Member>, depth: nat, doubles: Doubles)
    requires ArePairs(doc, pos, end, pairs, name, doubles) && 1 <= depth <= STACK_LIMIT
    ensures pos <= |doc|
    ensures ReadsBack(ParseMembers(doc, pos, depth, done, name, doubles),
                      Obj(PairsDenoted(doc, pos, end, pairs, name, done, doubles)), depth + PairsDeep(pairs), end)
    decreases pairs, 2
  {
    hide ParseMembers, ParseAfterMember, PairDenoted, PairDeep, Put, IsPair, Gap, IsClosed, IsSeparator;
    if pairs == [] {
      NoMorePairs(doc, pos, end, depth, done, doubles);
    } else {
      var pair, others := pairs[0], pairs[1..];
      var m := PairDenoted(doc, pos, pair, doubles);
      var longer := Put(done, m.key, m.value);
      PairIsRead(doc, pos, pair, name, done, depth, doubles);
      KeyOf(doc, pos, pair, doubles);
      if IsClosed(doc, pair.value.end, pair.value.after) && end == pair.value.after + 1 && |pairs| == 1 {
        Closes(doc, pair.value.end, pair.value.after, depth, longer, m.key, doubles);
      } else {
        Separates(doc, pair.value.end, pair.value.after, pair.next, depth, longer, m.key, doubles);
        PairsAreRead(doc, pair.next, end, others, m.key, longer, depth, doubles);
      }
    }
  }

  lemma KeyOf(doc: string, pos: nat, pair: Pair, doubles: Doubles)
    requires IsPair(doc, pos, pair, doubles)
    ensures IsLooseString(doc, pair.name, pair.nameEnd)
    ensures PairDenoted(doc, pos, pair, doubles).key == LooseStringMeaning(doc, pair.name, pair.nameEnd)
  {
  }

  // ---------- The theorem ----------

  /** Every text of the language, after spaces and comments and whatever follows it: the reader accepts it exactly when
      it is nested within the stack limit, and then yields the value it denotes. */
  lemma LooseTextIsAccepted(doc: string, start: nat, end: nat, t: Loose, root: Json, doubles: Doubles)
    requires Gap(doc, 0, start) && IsLoose(doc, start, end, t, doubles)
    ensures Parse(doc, root, doubles)
         == if LooseDepth(t) > STACK_LIMIT then Threw else Parsed(LooseDenoted(doc, start, end, t, doubles), end, None)
  {
    hide ParseValue, LooseDenoted, IsLoose, LooseDepth, Gap;
    LooseIsRead(doc, 0, start, end, t, 1, root, doubles);
  }
}
