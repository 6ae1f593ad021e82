/** Whatever the reader accepts is a text of its language, closed bracket by bracket, and the value is the one denoted. */
module LenientConverse {
  import opened Options
  import opened JsonScanner
  import opened JsonValue
  import opened JsonParser
  import opened JsonGrammar
  import opened LenientAcceptance
  import opened JsonReparse
  import opened LenientGrammar
  import DecimalText
  import QuotedString
  import Utf8

  // ---------- Spaces and comments ----------

  lemma {:induction false} SkippedSpaces(doc: string, pos: nat)
    requires pos <= |doc|
    ensures var end := SkipSpaces(doc, pos);
            Spaces(doc, pos, end) && (end < |doc| ==> !IsSpace(doc[end])) && SkipSpaces(doc, end) == end
    decreases |doc| - pos
  {
    if pos < |doc| && IsSpace(doc[pos]) {
      SkippedSpaces(doc, pos + 1);
    }
  }

  lemma {:induction false} BlockCommentIs(doc: string, pos: nat)
    requires pos <= |doc| && BlockCommentEnd(doc, pos).ok
    ensures var end := BlockCommentEnd(doc, pos).end;
            && pos < end && doc[end - 1] == '/' && ((pos + 2 <= end && doc[end - 2] == '*') || end == |doc|)
            && NoCommentEnd(doc, pos, end - 1)
    decreases |doc| - pos
  {
    if pos + 1 < |doc| && !(doc[pos] == '*' && doc[pos + 1] == '/') {
      BlockCommentIs(doc, pos + 1);
    }
  }

  lemma {:induction false} LineCommentIs(doc: string, pos: nat)
    requires pos <= |doc|
    ensures var end := LineCommentEnd(doc, pos);
            || (end == |doc| && NoLineEnd(doc, pos, end))
            || (pos + 1 <= end && doc[end - 1] == '\n' && NoLineEnd(doc, pos, end - 1))
            || (pos + 2 <= end && doc[end - 2] == '\r' && doc[end - 1] == '\n' && NoLineEnd(doc, pos, end - 2))
            || (pos + 1 <= end && doc[end - 1] == '\r' && !At(doc, end, '\n') && NoLineEnd(doc, pos, end - 1))
    decreases |doc| - pos
  {
    if pos < |doc| && doc[pos] != '\n' && doc[pos] != '\r' {
      LineCommentIs(doc, pos + 1);
    }
  }

  lemma CommentIs(doc: string, start: nat)
    requires At(doc, start, '/') && CommentEnd(doc, start + 1).ok
    ensures IsComment(doc, start, CommentEnd(doc, start + 1).end)
  {
    hide BlockCommentEnd, LineCommentEnd;
    if At(doc, start + 1, '*') {
      BlockCommentIs(doc, start + 2);
    } else {
      LineCommentIs(doc, start + 2);
    }
  }

  /** A token, after spaces. */
  lemma TokenIs(doc: string, pos: nat)
    requires pos <= |doc|
    ensures var token := TokenAt(doc, pos);
            && Spaces(doc, pos, token.start) && TokenAt(doc, token.start) == token
            && (token.kind == Comment ==> IsComment(doc, token.start, token.end))
  {
    SkippedSpaces(doc, pos);
    hide CommentEnd, StringEnd, KeywordEnd, NumberEnd, SkipSpaces;
    if TokenAt(doc, pos).kind == Comment {
      CommentTokenIs(doc, pos);
    }
  }

  lemma CommentTokenIs(doc: string, pos: nat)
    requires pos <= |doc| && TokenAt(doc, pos).kind == Comment
    ensures var token := TokenAt(doc, pos); IsComment(doc, token.start, token.end)
  {
    hide CommentEnd, StringEnd, KeywordEnd, NumberEnd, SkipSpaces, IsComment;
    CommentIs(doc, SkipSpaces(doc, pos));
  }

  lemma {:induction false} SpacesThenGap(doc: string, a: nat, c: nat, b: nat)
    requires Spaces(doc, a, c) && Gap(doc, c, b)
    ensures Gap(doc, a, b)
    decreases c - a
  {
    if a < c {
      SpacesThenGap(doc, a + 1, c, b);
    }
  }

  lemma CommentThenGap(doc: string, a: nat, c: nat, b: nat)
    requires a < c <= b && IsComment(doc, a, c) && Gap(doc, c, b)
    ensures Gap(doc, a, b)
  {
  }

  /** A token that is no comment, after any spaces and comments. */
  lemma {:induction false} ValueTokenIs(doc: string, pos: nat)
    requires pos <= |doc|
    ensures var token := ValueToken(doc, pos);
            && Gap(doc, pos, token.start) && TokenAt(doc, token.start) == token && token.kind != Comment
    decreases |doc| - pos
  {
    hide TokenAt, IsComment;
    TokenIs(doc, pos);
    var token := TokenAt(doc, pos);
    if token.kind == Comment {
      ValueTokenIs(doc, token.end);
      CommentThenGap(doc, token.start, token.end, ValueToken(doc, token.end).start);
    }
    SpacesThenGap(doc, pos, token.start, ValueToken(doc, pos).start);
  }

  // ---------- Strings ----------

  lemma {:induction false} StringEndIs(doc: string, pos: nat)
    requires pos <= |doc| && StringEnd(doc, pos).ok
    ensures var end := StringEnd(doc, pos).end;
            doc[end - 1] == '\"' && IsBody(doc[pos..end - 1])
    decreases |doc| - pos
  {
    var end := StringEnd(doc, pos).end;
    if doc[pos] != '\"' {
      var k := if doc[pos] == '\\' && pos + 1 < |doc| then 2 else 1;
      StringEndIs(doc, pos + k);
      var body := doc[pos..end - 1];
      assert pos + k <= end - 1 && body[k..] == doc[pos + k..end - 1] && body[0] == doc[pos];
    }
  }

  lemma {:induction false} PlainOff(s: string, n: nat)
    requires n <= |s| && IsBody(s) && forall i :: 0 <= i < n ==> s[i] != '\\' && s[i] != '\"'
    ensures IsBody(s[n..])
  {
    if n > 0 {
      PlainOff(s[1..], n - 1);
      assert s[1..][n - 1..] == s[n..];
    } else {
      assert s[0..] == s;
    }
  }

  lemma UnitOff(s: string)
    requires UnitAt(s, 0) && IsBody(s)
    ensures IsBody(s[6..])
  {
    assert forall i :: 0 <= i < 4 ==> s[2..][i] == s[i + 2];
    PlainOff(s[2..], 4);
    assert s[2..][4..] == s[6..];
  }

  lemma FourAreHex(s: string, at: nat)
    requires at <= |s| && QuotedString.FourHexDigits(s, at).Unit?
    ensures HexAt(s, at) && QuotedString.FourHexDigits(s, at) == QuotedString.Unit(HexNumber(s, at), 4)
  {
  }

  lemma UnicodePieceIs(s: string)
    requires |s| >= 2 && s[0] == '\\' && s[1] == 'u' && QuotedString.FirstPiece(s).Piece?
    ensures LooseLength(s) == QuotedString.FirstPiece(s).used && LooseMeaning(s) == QuotedString.FirstPiece(s).text
    ensures LooseLength(s) == 6 || LooseLength(s) == 12
  {
    var e := QuotedString.UnicodeEscape(s, 2);
    assert QuotedString.FirstPiece(s) == QuotedString.Piece(Utf8.CodePointToUtf8(e.value), 2 + e.used);
    hide QuotedString.FirstPiece, QuotedString.UnicodeEscape;
    UnicodeEscapeIs(s);
    hide UnitAt, HexNumber, Utf8.CodePointToUtf8;
  }

  lemma UnicodeEscapeIs(s: string)
    requires |s| >= 2 && s[0] == '\\' && s[1] == 'u' && QuotedString.UnicodeEscape(s, 2).Unit?
    ensures var e := QuotedString.UnicodeEscape(s, 2);
            && UnitAt(s, 0)
            && if !IsHigh(HexNumber(s, 2)) then e == QuotedString.Unit(HexNumber(s, 2), 4)
               else UnitAt(s, 6)
                    && e == QuotedString.Unit(0x10000 + (HexNumber(s, 2) - 0xD800) * 0x400 + HexNumber(s, 8) % 0x400, 10)
  {
    FourAreHex(s, 2);
    var high := HexNumber(s, 2);
    hide QuotedString.FourHexDigits, HexNumber, HexAt;
    if IsHigh(high) {
      FourAreHex(s, 8);
      assert high % 0x400 == high - 0xD800;
    }
  }

  lemma PieceIs(s: string)
    requires s != "" && IsBody(s) && QuotedString.FirstPiece(s).Piece?
    ensures LooseLength(s) == QuotedString.FirstPiece(s).used && LooseMeaning(s) == QuotedString.FirstPiece(s).text
    ensures IsBody(s[LooseLength(s)..])
  {
    if s[0] == '\\' && |s| >= 2 && s[1] == 'u' {
      UnicodePieceIs(s);
      UnitOff(s);
      if LooseLength(s) == 12 {
        assert forall i :: 0 <= i < 6 ==> s[6..][i] == s[i + 6];
        UnitOff(s[6..]);
        assert s[6..][6..] == s[12..];
      }
    } else {
      hide QuotedString.UnicodeEscape, UnitAt, HexNumber, Utf8.CodePointToUtf8;
    }
  }

  /** Whatever is decoded consists of chars, and is what they mean. */
  lemma {:induction false} ContentsAre(s: string)
    requires IsBody(s) && QuotedString.Contents(s).Decoded?
    ensures IsLooseChars(s) && QuotedString.Contents(s) == QuotedString.Decoded(LooseCharsMeaning(s))
  {
    if s != "" {
      PieceIs(s);
      hide QuotedString.FirstPiece, LooseMeaning, LooseLength;
      ContentsAre(s[LooseLength(s)..]);
    }
  }

  lemma StringStarts(doc: string, start: nat)
    requires start <= |doc| && TokenAt(doc, start).start == start && TokenAt(doc, start).kind == TokenKind.String
    ensures At(doc, start, '\"') && StringEnd(doc, start + 1) == Scan(true, TokenAt(doc, start).end)
  {
    SkippedSpaces(doc, start);
    hide StringEnd, CommentEnd, KeywordEnd, NumberEnd, SkipSpaces;
  }

  lemma StringTokenIs(doc: string, start: nat)
    requires start <= |doc|
    requires var token := TokenAt(doc, start); token.start == start && token.kind == TokenKind.String
    requires QuotedString.Contents(Inside(doc, TokenAt(doc, start))).Decoded?
    ensures var end := TokenAt(doc, start).end;
            && IsLooseString(doc, start, end)
            && QuotedString.Contents(Inside(doc, TokenAt(doc, start))) == QuotedString.Decoded(LooseStringMeaning(doc, start, end))
  {
    hide TokenAt, StringEnd, QuotedString.Contents, IsLooseString, LooseStringMeaning;
    StringStarts(doc, start);
    var end := TokenAt(doc, start).end;
    StringBody(doc, start, end);
    StringIs(doc, start, end);
  }

  lemma StringBody(doc: string, start: nat, end: nat)
    requires At(doc, start, '\"') && StringEnd(doc, start + 1) == Scan(true, end)
    ensures start + 2 <= end <= |doc| && doc[end - 1] == '\"' && IsBody(doc[start + 1..end - 1])
  {
    StringEndIs(doc, start + 1);
    hide StringEnd, IsBody;
  }

  lemma StringIs(doc: string, start: nat, end: nat)
    requires start + 2 <= end <= |doc| && doc[start] == '\"' && doc[end - 1] == '\"' && IsBody(doc[start + 1..end - 1])
    requires QuotedString.Contents(doc[start + 1..end - 1]).Decoded?
    ensures IsLooseString(doc, start, end)
    ensures QuotedString.Contents(doc[start + 1..end - 1]) == QuotedString.Decoded(LooseStringMeaning(doc, start, end))
  {
    hide QuotedString.Contents, IsBody, IsLooseChars, LooseCharsMeaning;
    ContentsAre(doc[start + 1..end - 1]);
  }

  // ---------- Numbers and words ----------

  lemma {:induction false} SkippedDigits(doc: string, pos: nat)
    requires pos <= |doc|
    ensures MostDigits(doc, pos, SkipDigits(doc, pos))
    decreases |doc| - pos
  {
    var end := SkipDigits(doc, pos);
    if pos < end {
      SkippedDigits(doc, pos + 1);
      assert doc[pos..end] == [doc[pos]] + doc[pos + 1..end];
    }
  }

  lemma NumberIs(doc: string, start: nat)
    requires start < |doc| && (DecimalText.IsDigit(doc[start]) || doc[start] == '-')
    ensures IsNumberToken(doc, start, NumberEnd(doc, start + 1))
  {
    hide SkipDigits, DecimalText.AllDigits;
    var d := SkipDigits(doc, start + 1);
    SkippedDigits(doc, start + 1);
    var f := SkipFraction(doc, d);
    if At(doc, d, '.') {
      SkippedDigits(doc, d + 1);
    }
    if At(doc, f, 'e') || At(doc, f, 'E') {
      SkippedDigits(doc, if At(doc, f + 1, '+') || At(doc, f + 1, '-') then f + 2 else f + 1);
    }
    assert IsLooseNumber(doc, start, NumberEnd(doc, start + 1), d, f);
  }

  lemma WordStarts(doc: string, start: nat)
    requires start <= |doc| && TokenAt(doc, start).start == start
    ensures var token := TokenAt(doc, start);
            && (token.kind == NullWord ==> At(doc, start, 'n') && KeywordEnd(doc, start + 1, "ull") == Scan(true, token.end))
            && (token.kind == TrueWord ==> At(doc, start, 't') && KeywordEnd(doc, start + 1, "rue") == Scan(true, token.end))
            && (token.kind == FalseWord ==> At(doc, start, 'f') && KeywordEnd(doc, start + 1, "alse") == Scan(true, token.end))
  {
    SkippedSpaces(doc, start);
    hide StringEnd, CommentEnd, NumberEnd, SkipSpaces, KeywordEnd;
  }

  lemma KeywordIs(doc: string, start: nat, first: char, pattern: string)
    requires At(doc, start, first) && KeywordEnd(doc, start + 1, pattern).ok
    ensures start <= KeywordEnd(doc, start + 1, pattern).end <= |doc|
    ensures doc[start..KeywordEnd(doc, start + 1, pattern).end] == [first] + pattern
  {
    var end := KeywordEnd(doc, start + 1, pattern).end;
    assert doc[start..end] == [doc[start]] + doc[start + 1..end];
    assert doc[start + 1..][..|pattern|] == pattern;
  }

  lemma WordIs(doc: string, start: nat)
    requires start <= |doc| && TokenAt(doc, start).start == start
    ensures var token := TokenAt(doc, start);
            && (token.kind == NullWord ==> IsWord(doc[start..token.end], Null))
            && (token.kind == TrueWord ==> IsWord(doc[start..token.end], Bool(true)))
            && (token.kind == FalseWord ==> IsWord(doc[start..token.end], Bool(false)))
  {
    WordStarts(doc, start);
    var kind := TokenAt(doc, start).kind;
    hide TokenAt, KeywordEnd;
    if kind == NullWord {
      KeywordIs(doc, start, 'n', "ull");
      assert ['n'] + "ull" == "null";
    } else if kind == TrueWord {
      KeywordIs(doc, start, 't', "rue");
      assert ['t'] + "rue" == "true";
    } else if kind == FalseWord {
      KeywordIs(doc, start, 'f', "alse");
      assert ['f'] + "alse" == "false";
    }
  }

  lemma NumberTokenIs(doc: string, start: nat)
    requires start <= |doc| && TokenAt(doc, start).start == start && TokenAt(doc, start).kind == TokenKind.Number
    ensures IsNumberToken(doc, start, TokenAt(doc, start).end)
  {
    SkippedSpaces(doc, start);
    hide StringEnd, CommentEnd, KeywordEnd, NumberEnd, SkipSpaces;
    NumberIs(doc, start);
  }

  /** A structural character. */
  lemma MarkIs(doc: string, start: nat)
    requires start <= |doc| && TokenAt(doc, start).start == start
    ensures var token := TokenAt(doc, start);
            && (token.kind == ObjectBegin ==> At(doc, start, '{') && token.end == start + 1)
            && (token.kind == ObjectEnd ==> At(doc, start, '}') && token.end == start + 1)
            && (token.kind == ArrayBegin ==> At(doc, start, '[') && token.end == start + 1)
            && (token.kind == ArrayEnd ==> At(doc, start, ']') && token.end == start + 1)
            && (token.kind == ArraySeparator ==> At(doc, start, ',') && token.end == start + 1)
            && (token.kind == MemberSeparator ==> At(doc, start, ':') && token.end == start + 1)
  {
    SkippedSpaces(doc, start);
    hide StringEnd, CommentEnd, KeywordEnd, NumberEnd, SkipSpaces;
  }

  // ---------- Values ----------

  /** A text that stands here after a gap, within the limit, and what it denotes. */
  ghost predicate Denotes(
      doc: string, pos: nat, end: nat, start: nat, t: Loose, depth: int, v: Json, doubles: Doubles)
  {
    && Gap(doc, pos, start) && IsLoose(doc, start, end, t, doubles) && LooseDenoted(doc, start, end, t, doubles) == v
    && depth + LooseDepth(t) <= STACK_LIMIT + 1
  }

  lemma ScalarIs(doc: string, pos: nat, depth: nat, current: Json, doubles: Doubles) returns (t: Loose)
    requires pos <= |doc| && Accepted(ParseValue(doc, pos, depth, current, doubles))
    requires var kind := ValueToken(doc, pos).kind; kind != ObjectBegin && kind != ArrayBegin
    ensures var r := ParseValue(doc, pos, depth, current, doubles);
            Denotes(doc, pos, r.pos, ValueToken(doc, pos).start, t, depth, r.value, doubles)
  {
    hide ValueToken, TokenAt;
    ValueTokenIs(doc, pos);
    var token := ValueToken(doc, pos);
    hide ParseMembers, ParseItems, IsNumberToken, NumberValue, Gap, QuotedString.Contents, IsLooseString, LooseStringMeaning;
    match token.kind
    case Number =>
      NumberTokenIs(doc, token.start);
      t := LooseNumber;
    case String =>
      StringTokenIs(doc, token.start);
      t := LooseString;
    case TrueWord =>
      WordIs(doc, token.start);
      t := LooseWord(Bool(true));
    case FalseWord =>
      WordIs(doc, token.start);
      t := LooseWord(Bool(false));
    case _ =>
      WordIs(doc, token.start);
      t := LooseWord(Null);
  }

  /** Spaces before the first item. */
  lemma ShiftItems(doc: string, pos: nat, first: nat, end: nat, items: seq<Item>, doubles: Doubles)
    requires Spaces(doc, pos, first) && items != [] && AreItems(doc, first, end, items, doubles)
    ensures AreItems(doc, pos, end, items, doubles)
    ensures ItemsDenoted(doc, pos, end, items, doubles) == ItemsDenoted(doc, first, end, items, doubles)
  {
    SpacesThenGap(doc, pos, first, items[0].start);
    hide Gap, IsLoose, LooseDenoted, Spaces;
  }

  lemma EmptyArrayIs(doc: string, start: nat, end: nat, doubles: Doubles)
    requires At(doc, start, '[') && start + 1 < end <= |doc| && Spaces(doc, start + 1, end - 1) && doc[end - 1] == ']'
    ensures IsLoose(doc, start, end, LooseArray([]), doubles)
    ensures LooseDenoted(doc, start, end, LooseArray([]), doubles) == Arr([])
  {
  }

  lemma {:induction false} ItemsEnd(doc: string, pos: nat, end: nat, items: seq<Item>, doubles: Doubles)
    requires items != [] && AreItems(doc, pos, end, items, doubles)
    ensures pos < end <= |doc| && doc[end - 1] == ']'
    decreases items
  {
    hide Gap, IsLoose;
    GapInside(doc, pos, items[0].start);
    GapInside(doc, items[0].end, items[0].after);
    ItemInside(doc, items[0], doubles);
    if |items| > 1 {
      ItemsEnd(doc, items[0].after + 1, end, items[1..], doubles);
    }
  }

  lemma GapInside(doc: string, a: nat, b: nat)
    requires Gap(doc, a, b)
    ensures a <= b <= |doc|
  {
  }

  lemma ItemInside(doc: string, item: Item, doubles: Doubles)
    requires IsLoose(doc, item.start, item.end, item.text, doubles)
    ensures item.start < item.end <= |doc|
  {
  }

  lemma {:induction false} PairsEnd(doc: string, pos: nat, end: nat, pairs: seq<Pair>, name: string, doubles: Doubles)
    requires ArePairs(doc, pos, end, pairs, name, doubles)
    ensures 0 < end <= |doc| && doc[end - 1] == '}'
    decreases pairs
  {
    hide Gap, IsItem, IsSeparator, LooseStringMeaning, IsLooseString;
    if pairs != [] && !(IsClosed(doc, pairs[0].value.end, pairs[0].value.after) && end == pairs[0].value.after + 1 && |pairs| == 1) {
      PairsEnd(doc, pairs[0].next, end, pairs[1..], LooseStringMeaning(doc, pairs[0].name, pairs[0].nameEnd), doubles);
    }
  }

  lemma ArrayOf(doc: string, pos: nat, start: nat, end: nat, items: seq<Item>, depth: nat, values: seq<Json>, doubles: Doubles)
    requires Gap(doc, pos, start) && At(doc, start, '[') && items != [] && AreItems(doc, start + 1, end, items, doubles)
    requires ItemsDenoted(doc, start + 1, end, items, doubles) == values && depth + ItemsDeep(items) <= STACK_LIMIT
    ensures Denotes(doc, pos, end, start, LooseArray(items), depth, Arr(values), doubles)
  {
    ItemsEnd(doc, start + 1, end, items, doubles);
    hide Gap, AreItems, ItemsDenoted, ItemsDeep;
  }

  lemma ObjectOf(doc: string, pos: nat, start: nat, end: nat, pairs: seq<Pair>, depth: nat, members: seq<Member>, doubles: Doubles)
    requires Gap(doc, pos, start) && At(doc, start, '{') && start < end && ArePairs(doc, start + 1, end, pairs, "", doubles)
    requires PairsDenoted(doc, start + 1, end, pairs, "", [], doubles) == members && depth + PairsDeep(pairs) <= STACK_LIMIT
    ensures Denotes(doc, pos, end, start, LooseObject(pairs), depth, Obj(members), doubles)
  {
    hide Gap, ArePairs, PairsDenoted, PairsDeep, IsLoose, LooseDenoted;
    PairsEnd(doc, start + 1, end, pairs, "", doubles);
    ObjectMeans(doc, start, end, pairs, members, doubles);
    assert LooseDepth(LooseObject(pairs)) == 1 + PairsDeep(pairs);
    hide LooseDepth;
  }

  lemma ObjectOpensTo(doc: string, pos: nat, depth: nat, current: Json, doubles: Doubles)
    requires pos <= |doc| && Accepted(ParseValue(doc, pos, depth, current, doubles))
    requires ValueToken(doc, pos).kind == ObjectBegin
    ensures var token := ValueToken(doc, pos);
            && depth <= STACK_LIMIT && Gap(doc, pos, token.start) && At(doc, token.start, '{') && token.end == token.start + 1
            && ParseValue(doc, pos, depth, current, doubles) == ParseMembers(doc, token.end, depth, [], "", doubles)
            && token.start >= pos && token.end <= |doc|
  {
    ValueTokenIs(doc, pos);
    MarkIs(doc, ValueToken(doc, pos).start);
    hide ValueToken, TokenAt, ParseMembers, Gap;
  }

  lemma {:induction false} ValueIs(doc: string, pos: nat, depth: nat, current: Json, doubles: Doubles)
    returns (start: nat, t: Loose)
    requires pos <= |doc| && Accepted(ParseValue(doc, pos, depth, current, doubles))
    ensures var r := ParseValue(doc, pos, depth, current, doubles);
            Denotes(doc, pos, r.pos, start, t, depth, r.value, doubles)
    decreases |doc| - pos, 0
  {
    hide ParseValue, ValueToken, ParseMembers, ArePairs, PairsDenoted, Denotes, Gap;
    var token := ValueToken(doc, pos);
    start := token.start;
    if token.kind == ArrayBegin {
      t := ArrayIs(doc, pos, depth, current, doubles);
    } else if token.kind == ObjectBegin {
      ObjectOpensTo(doc, pos, depth, current, doubles);
      var pairs := PairsAre(doc, token.end, depth, [], "", doubles);
      t := LooseObject(pairs);
      var r := ParseMembers(doc, token.end, depth, [], "", doubles);
      ObjectOf(doc, pos, start, r.pos, pairs, depth, r.value.members, doubles);
    } else {
      t := ScalarIs(doc, pos, depth, current, doubles);
    }
  }

  lemma ArrayOpensTo(doc: string, pos: nat, depth: nat, current: Json, doubles: Doubles) returns (first: nat)
    requires pos <= |doc| && Accepted(ParseValue(doc, pos, depth, current, doubles))
    requires ValueToken(doc, pos).kind == ArrayBegin
    ensures var start := ValueToken(doc, pos).start;
            && depth <= STACK_LIMIT && pos <= start && Gap(doc, pos, start) && At(doc, start, '[')
            && Spaces(doc, start + 1, first)
            && ParseValue(doc, pos, depth, current, doubles)
            == if At(doc, first, ']') then Parsed(Arr([]), first + 1, None) else ParseItems(doc, first, depth, [], doubles)
  {
    hide ParseValue, ParseItems, ParseMembers, ValueToken, TokenAt, Gap, SkipSpaces, Spaces;
    if depth > STACK_LIMIT {
      TooDeep(doc, pos, depth, current, doubles);
    }
    var token := ValueToken(doc, pos);
    ValueTokenIs(doc, pos);
    MarkIs(doc, token.start);
    first := SkipSpaces(doc, token.end);
    SkippedSpaces(doc, token.end);
    BracketOpens(doc, pos, depth, current, doubles);
  }

  lemma {:induction false} ArrayIs(doc: string, pos: nat, depth: nat, current: Json, doubles: Doubles) returns (t: Loose)
    requires pos <= |doc| && Accepted(ParseValue(doc, pos, depth, current, doubles))
    requires ValueToken(doc, pos).kind == ArrayBegin
    ensures var r := ParseValue(doc, pos, depth, current, doubles);
            Denotes(doc, pos, r.pos, ValueToken(doc, pos).start, t, depth, r.value, doubles)
    decreases |doc| - pos, 0, 0
  {
    hide ParseValue, ValueToken, ParseItems, AreItems, ItemsDenoted, Gap, Spaces, Denotes;
    var start := ValueToken(doc, pos).start;
    var first := ArrayOpensTo(doc, pos, depth, current, doubles);
    if At(doc, first, ']') {
      t := LooseArray([]);
      assert start + 1 <= first by { SpacesInside(doc, start + 1, first); }
      EmptyArrayIs(doc, start, first + 1, doubles);
      ScalarDenotes(doc, pos, first + 1, start, t, depth, Arr([]), doubles);
    } else {
      SpacesInside(doc, start + 1, first);
      var items := ItemsAre(doc, first, depth, [], doubles);
      var r := ParseItems(doc, first, depth, [], doubles);
      ShiftItems(doc, start + 1, first, r.pos, items, doubles);
      t := LooseArray(items);
      assert [] + ItemsDenoted(doc, first, r.pos, items, doubles) == ItemsDenoted(doc, first, r.pos, items, doubles);
      ArrayOf(doc, pos, start, r.pos, items, depth, r.value.items, doubles);
    }
  }

  lemma SpacesInside(doc: string, a: nat, b: nat)
    requires Spaces(doc, a, b)
    ensures a <= b <= |doc|
  {
  }

  lemma ScalarDenotes(doc: string, pos: nat, end: nat, start: nat, t: Loose, depth: nat, v: Json, doubles: Doubles)
    requires Gap(doc, pos, start) && IsLoose(doc, start, end, t, doubles) && LooseDenoted(doc, start, end, t, doubles) == v
    requires LooseDepth(t) == 1 && depth <= STACK_LIMIT
    ensures Denotes(doc, pos, end, start, t, depth, v, doubles)
  {
    hide Gap, IsLoose, LooseDenoted;
  }

  /** One more item before the others. */
  lemma ItemsFrom(
      doc: string, pos: nat, start: nat, e: nat, t: Loose, after: nat, end: nat, others: seq<Item>, depth: nat, v: Json,
      values: seq<Json>, doubles: Doubles)
    requires Denotes(doc, pos, e, start, t, depth + 1, v, doubles) && Gap(doc, e, after)
    requires if others == [] then At(doc, after, ']') && end == after + 1 && values == []
             else At(doc, after, ',') && AreItems(doc, after + 1, end, others, doubles)
                  && ItemsDenoted(doc, after + 1, end, others, doubles) == values && depth + ItemsDeep(others) <= STACK_LIMIT
    ensures var items := [Item(start, e, t, after)] + others;
            && AreItems(doc, pos, end, items, doubles) && ItemsDenoted(doc, pos, end, items, doubles) == [v] + values
            && depth + ItemsDeep(items) <= STACK_LIMIT
  {
    var item := Item(start, e, t, after);
    DenotesItem(doc, pos, item, depth, v, doubles);
    hide Gap, Denotes, IsItem, ItemDenoted, ItemDeep, AreItems, ItemsDenoted, ItemsDeep;
    if others == [] {
      LastItem(doc, pos, item, end, depth, v, doubles);
      assert [item] + others == [item] && [v] + values == [v];
    } else {
      MoreItems(doc, pos, item, end, others, depth, v, values, doubles);
    }
  }

  lemma LastItem(doc: string, pos: nat, item: Item, end: nat, depth: nat, v: Json, doubles: Doubles)
    requires IsItem(doc, pos, item, doubles) && ItemDenoted(doc, pos, item, doubles) == v && depth + ItemDeep(item) <= STACK_LIMIT
    requires Gap(doc, item.end, item.after) && At(doc, item.after, ']') && end == item.after + 1
    ensures AreItems(doc, pos, end, [item], doubles) && ItemsDenoted(doc, pos, end, [item], doubles) == [v]
    ensures depth + ItemsDeep([item]) <= STACK_LIMIT
  {
    hide Gap, IsItem, ItemDenoted, ItemDeep;
  }

  lemma MoreItems(
      doc: string, pos: nat, item: Item, end: nat, others: seq<Item>, depth: nat, v: Json, values: seq<Json>, doubles: Doubles)
    requires IsItem(doc, pos, item, doubles) && ItemDenoted(doc, pos, item, doubles) == v && depth + ItemDeep(item) <= STACK_LIMIT
    requires Gap(doc, item.end, item.after) && At(doc, item.after, ',') && others != []
    requires AreItems(doc, item.after + 1, end, others, doubles)
    requires ItemsDenoted(doc, item.after + 1, end, others, doubles) == values && depth + ItemsDeep(others) <= STACK_LIMIT
    ensures var items := [item] + others;
            && AreItems(doc, pos, end, items, doubles) && ItemsDenoted(doc, pos, end, items, doubles) == [v] + values
            && depth + ItemsDeep(items) <= STACK_LIMIT
  {
    assert ([item] + others)[1..] == others;
    hide Gap, IsItem, ItemDenoted, ItemDeep;
  }

  lemma DenotesItem(doc: string, pos: nat, item: Item, depth: nat, v: Json, doubles: Doubles)
    requires Denotes(doc, pos, item.end, item.start, item.text, depth + 1, v, doubles)
    ensures IsItem(doc, pos, item, doubles) && ItemDenoted(doc, pos, item, doubles) == v
    ensures depth + ItemDeep(item) <= STACK_LIMIT
  {
    hide Gap, IsLoose, LooseDenoted, LooseDepth;
  }

  /** A round of the item loop that leads to acceptance. */
  lemma ItemStep(doc: string, pos: nat, depth: nat, done: seq<Json>, doubles: Doubles)
    requires pos <= |doc| && Accepted(ParseItems(doc, pos, depth, done, doubles))
    ensures var v := ParseValue(doc, pos, depth + 1, Null, doubles);
            && Accepted(v) && v.pos <= |doc|
            && var token := ValueToken(doc, v.pos);
               && v.pos <= token.start < token.end <= |doc| && token.end == token.start + 1 && Gap(doc, v.pos, token.start)
               && (if token.kind == ArrayEnd then
                     At(doc, token.start, ']')
                     && ParseItems(doc, pos, depth, done, doubles) == Parsed(Arr(done + [v.value]), token.end, None)
                   else
                     At(doc, token.start, ',')
                     && ParseItems(doc, pos, depth, done, doubles) == ParseItems(doc, token.end, depth, done + [v.value], doubles))
  {
    hide ParseValue, TokenAt, Gap, Recovered;
    var v := ParseValue(doc, pos, depth + 1, Null, doubles);
    assert Accepted(v);
    ValueTokenIs(doc, v.pos);
    MarkIs(doc, ValueToken(doc, v.pos).start);
    hide ValueToken;
  }

  lemma {:induction false} ItemsAre(doc: string, pos: nat, depth: nat, done: seq<Json>, doubles: Doubles)
    returns (items: seq<Item>)
    requires pos <= |doc| && Accepted(ParseItems(doc, pos, depth, done, doubles))
    ensures var r := ParseItems(doc, pos, depth, done, doubles);
            && items != [] && AreItems(doc, pos, r.pos, items, doubles)
            && r.value == Arr(done + ItemsDenoted(doc, pos, r.pos, items, doubles))
            && depth + ItemsDeep(items) <= STACK_LIMIT
    decreases |doc| - pos, 1
  {
    hide ParseItems, ValueToken, ParseValue, Denotes, AreItems, ItemsDenoted, ItemsDeep, Gap;
    ItemStep(doc, pos, depth, done, doubles);
    var v := ParseValue(doc, pos, depth + 1, Null, doubles);
    var start, t := ValueIs(doc, pos, depth + 1, Null, doubles);
    var token := ValueToken(doc, v.pos);
    var r := ParseItems(doc, pos, depth, done, doubles);
    var others, values := [], [];
    if token.kind != ArrayEnd {
      others := ItemsAre(doc, token.end, depth, done + [v.value], doubles);
      values := ItemsDenoted(doc, token.end, r.pos, others, doubles);
    }
    ItemsFrom(doc, pos, start, v.pos, t, token.start, r.pos, others, depth, v.value, values, doubles);
    items := [Item(start, v.pos, t, token.start)] + others;
    Associate(done, [v.value], values);
    assert values == [] ==> [v.value] + values == [v.value];
  }

  // ---------- Members ----------

  lemma NothingAtEnd(doc: string, depth: nat, members: seq<Member>, name: string, doubles: Doubles)
    ensures !Accepted(ParseMembers(doc, |doc|, depth, members, name, doubles))
  {
    hide Recovered;
  }

  /** The tokens after a member: the closing brace, or what passes for a comma. */
  lemma AfterMemberIs(doc: string, pos: nat)
    requires pos <= |doc|
    ensures var comma := TokenAt(doc, pos);
            var last := if comma.kind == Comment then ValueToken(doc, comma.end) else comma;
            && pos <= last.start <= last.end <= |doc|
            && (last.kind == ObjectEnd ==> IsClosed(doc, pos, last.start) && last.end == last.start + 1)
            && (last.kind != ObjectEnd && last.start < last.end && comma.kind in {Comment, ArraySeparator} ==>
                  IsSeparator(doc, pos, last.start, last.end))
  {
    TokenIs(doc, pos);
    var comma := TokenAt(doc, pos);
    MarkIs(doc, comma.start);
    if comma.kind == Comment {
      ValueTokenIs(doc, comma.end);
      MarkIs(doc, ValueToken(doc, comma.end).start);
      hide TokenAt, ValueToken, IsComment, Gap, Spaces;
      assert CommentedGap(doc, pos, ValueToken(doc, comma.end).start);
    }
  }

  lemma PairsFrom(
      doc: string, pos: nat, pair: Pair, end: nat, others: seq<Pair>, name: string, done: seq<Member>, depth: nat, m: Member,
      members: seq<Member>, closed: bool, doubles: Doubles)
    requires IsPair(doc, pos, pair, doubles) && PairDenoted(doc, pos, pair, doubles) == m
    requires depth + PairDeep(pair) <= STACK_LIMIT
    requires if closed then IsClosed(doc, pair.value.end, pair.value.after) && end == pair.value.after + 1 && others == []
                            && members == Put(done, m.key, m.value)
             else IsSeparator(doc, pair.value.end, pair.value.after, pair.next)
                  && !At(doc, pair.value.after, '}')
                  && ArePairs(doc, pair.next, end, others, m.key, doubles)
                  && PairsDenoted(doc, pair.next, end, others, m.key, Put(done, m.key, m.value), doubles) == members
                  && depth + PairsDeep(others) <= STACK_LIMIT
    ensures var pairs := [pair] + others;
            && ArePairs(doc, pos, end, pairs, name, doubles)
            && PairsDenoted(doc, pos, end, pairs, name, done, doubles) == members
            && depth + PairsDeep(pairs) <= STACK_LIMIT
  {
    var pairs := [pair] + others;
    assert pairs[1..] == others;
    hide IsPair, IsSeparator, Put, PairDeep, Gap;
  }

  /** The name and the colon. */
  lemma NameIs(doc: string, pos: nat) returns (key: string)
    requires pos <= |doc| && ValueToken(doc, pos).kind == TokenKind.String
    requires QuotedString.Contents(Inside(doc, ValueToken(doc, pos))).Decoded?
    requires TokenAt(doc, ValueToken(doc, pos).end).kind == MemberSeparator
    ensures var token := ValueToken(doc, pos);
            var colon := TokenAt(doc, token.end);
            && Gap(doc, pos, token.start) && IsLooseString(doc, token.start, token.end)
            && Spaces(doc, token.end, colon.start) && At(doc, colon.start, ':') && colon.end == colon.start + 1
            && key == LooseStringMeaning(doc, token.start, token.end)
            && QuotedString.Contents(Inside(doc, token)) == QuotedString.Decoded(key)
  {
    var token := ValueToken(doc, pos);
    ValueTokenIs(doc, pos);
    StringTokenIs(doc, token.start);
    TokenIs(doc, token.end);
    MarkIs(doc, TokenAt(doc, token.end).start);
    key := LooseStringMeaning(doc, token.start, token.end);
  }

  /** A round of the member loop that leads to acceptance: the name and the colon. */
  lemma NameStep(doc: string, pos: nat, depth: nat, members: seq<Member>, name: string, doubles: Doubles) returns (key: string)
    requires pos <= |doc| && Accepted(ParseMembers(doc, pos, depth, members, name, doubles))
    requires !(ValueToken(doc, pos).kind == ObjectEnd && name == "")
    ensures var token := ValueToken(doc, pos);
            var colon := TokenAt(doc, token.end);
            && pos <= token.start < token.end <= colon.start < |doc|
            && Gap(doc, pos, token.start) && IsLooseString(doc, token.start, token.end)
            && Spaces(doc, token.end, colon.start) && At(doc, colon.start, ':')
            && key == LooseStringMeaning(doc, token.start, token.end)
            && ParseMembers(doc, pos, depth, members, name, doubles)
            == ParseMemberValue(doc, colon.start + 1, depth, members, key, doubles)
  {
    hide ParseMembers, ParseMemberValue, TokenAt, ValueToken, QuotedString.Contents, Inside;
    NameAndColon(doc, pos, depth, members, name, doubles);
    key := NameIs(doc, pos);
    hide Gap, IsLooseString, LooseStringMeaning, Spaces;
  }

  /** Nothing else is accepted. */
  lemma NameAndColon(doc: string, pos: nat, depth: nat, members: seq<Member>, name: string, doubles: Doubles)
    requires pos <= |doc| && Accepted(ParseMembers(doc, pos, depth, members, name, doubles))
    requires !(ValueToken(doc, pos).kind == ObjectEnd && name == "")
    ensures var token := ValueToken(doc, pos);
            && token.kind == TokenKind.String && TokenAt(doc, token.end).kind == MemberSeparator
            && QuotedString.Contents(Inside(doc, token)).Decoded?
            && ParseMembers(doc, pos, depth, members, name, doubles)
            == ParseMemberValue(doc, TokenAt(doc, token.end).end, depth, members, QuotedString.Contents(Inside(doc, token)).text,
                                doubles)
  {
    hide TokenAt, ValueToken, ParseMemberValue, Recovered, QuotedString.Contents, Inside;
  }

  /** The value and what follows it. */
  lemma MemberStep(doc: string, pos: nat, depth: nat, members: seq<Member>, key: string, doubles: Doubles)
    returns (last: Token)
    requires pos <= |doc| && Accepted(ParseMemberValue(doc, pos, depth, members, key, doubles))
    ensures var v := ParseValue(doc, pos, depth + 1, Lookup(members, key), doubles);
            && Accepted(v) && v.pos <= last.start < last.end <= |doc|
            && var longer := Put(members, key, v.value);
               if last.kind == ObjectEnd then
                 && IsClosed(doc, v.pos, last.start) && last.end == last.start + 1
                 && ParseMemberValue(doc, pos, depth, members, key, doubles) == Parsed(Obj(longer), last.end, None)
               else
                 && IsSeparator(doc, v.pos, last.start, last.end) && !At(doc, last.start, '}')
                 && ParseMemberValue(doc, pos, depth, members, key, doubles)
                    == ParseMembers(doc, last.end, depth, longer, key, doubles)
  {
    hide ParseValue, Recovered, Put, Lookup, IsClosed, IsSeparator;
    var v := ParseValue(doc, pos, depth + 1, Lookup(members, key), doubles);
    assert Accepted(v);
    var longer := Put(members, key, v.value);
    assert Accepted(ParseAfterMember(doc, v.pos, depth, longer, key, doubles));
    last := SeparatorStep(doc, v.pos, depth, longer, key, doubles);
    hide ParseAfterMember, ParseMembers;
  }

  lemma SeparatorStep(doc: string, pos: nat, depth: nat, members: seq<Member>, key: string, doubles: Doubles)
    returns (last: Token)
    requires pos <= |doc| && Accepted(ParseAfterMember(doc, pos, depth, members, key, doubles))
    ensures pos <= last.start < last.end <= |doc|
    ensures if last.kind == ObjectEnd then
              && IsClosed(doc, pos, last.start) && last.end == last.start + 1
              && ParseAfterMember(doc, pos, depth, members, key, doubles) == Parsed(Obj(members), last.end, None)
            else
              && IsSeparator(doc, pos, last.start, last.end) && !At(doc, last.start, '}')
              && ParseAfterMember(doc, pos, depth, members, key, doubles)
                 == ParseMembers(doc, last.end, depth, members, key, doubles)
  {
    hide ParseMembers, Recovered, TokenAt, ValueToken, IsClosed, IsSeparator;
    AfterMemberIs(doc, pos);
    var comma := TokenAt(doc, pos);
    last := if comma.kind == Comment then ValueToken(doc, comma.end) else comma;
    if last.start == last.end {
      EmptyIsEnd(doc, pos);
      NothingAtEnd(doc, depth, members, key, doubles);
    }
    if last.kind != ObjectEnd {
      NoBrace(doc, pos);
    }
  }

  lemma EmptyIsEnd(doc: string, pos: nat)
    requires pos <= |doc|
    ensures var comma := TokenAt(doc, pos);
            var last := if comma.kind == Comment then ValueToken(doc, comma.end) else comma;
            last.start == last.end ==> last.end == |doc| && last.kind == EndOfStream
  {
    var comma := TokenAt(doc, pos);
    if comma.kind == Comment {
      ValueTokenIs(doc, comma.end);
      TokenIs(doc, ValueToken(doc, comma.end).start);
    }
    hide CommentEnd, StringEnd, KeywordEnd, NumberEnd, SkipSpaces, ValueToken, Gap;
  }

  lemma NoBrace(doc: string, pos: nat)
    requires pos <= |doc|
    ensures var comma := TokenAt(doc, pos);
            var last := if comma.kind == Comment then ValueToken(doc, comma.end) else comma;
            last.kind != ObjectEnd ==> !At(doc, last.start, '}')
  {
    var comma := TokenAt(doc, pos);
    TokenIs(doc, pos);
    if comma.kind == Comment {
      ValueTokenIs(doc, comma.end);
    }
    var last := if comma.kind == Comment then ValueToken(doc, comma.end) else comma;
    SkippedSpaces(doc, last.start);
    hide CommentEnd, StringEnd, KeywordEnd, NumberEnd, ValueToken, Gap, Spaces;
  }

  lemma PairOf(doc: string, pos: nat, token: Token, colon: nat, start: nat, e: nat, t: Loose, after: nat, next: nat,
               depth: nat, v: Json, doubles: Doubles)
    requires Gap(doc, pos, token.start) && IsLooseString(doc, token.start, token.end)
    requires Spaces(doc, token.end, colon) && At(doc, colon, ':')
    requires Denotes(doc, colon + 1, e, start, t, depth + 1, v, doubles)
    ensures var pair := Pair(token.start, token.end, colon, Item(start, e, t, after), next);
            && IsPair(doc, pos, pair, doubles) && depth + PairDeep(pair) <= STACK_LIMIT
            && PairDenoted(doc, pos, pair, doubles) == Member(LooseStringMeaning(doc, token.start, token.end), v)
  {
    hide Gap, IsLooseString, LooseStringMeaning, IsLoose, LooseDenoted, LooseDepth, Spaces;
  }

  /** The first member of the rest, and what follows it. */
  lemma {:induction false} PairIs(
      doc: string, pos: nat, depth: nat, members: seq<Member>, name: string, doubles: Doubles)
    returns (pair: Pair, m: Member, last: Token)
    requires pos <= |doc| && Accepted(ParseMembers(doc, pos, depth, members, name, doubles)) && depth <= STACK_LIMIT
    requires !(ValueToken(doc, pos).kind == ObjectEnd && name == "")
    ensures IsPair(doc, pos, pair, doubles) && PairDenoted(doc, pos, pair, doubles) == m && depth + PairDeep(pair) <= STACK_LIMIT
    ensures pair.value.after == last.start && pair.next == last.end && pos < last.end <= |doc|
    ensures var r, longer := ParseMembers(doc, pos, depth, members, name, doubles), Put(members, m.key, m.value);
            if last.kind == ObjectEnd then
              && IsClosed(doc, pair.value.end, last.start) && last.end == last.start + 1
              && r == Parsed(Obj(longer), last.end, None)
            else
              && IsSeparator(doc, pair.value.end, last.start, last.end) && !At(doc, last.start, '}')
              && r == ParseMembers(doc, last.end, depth, longer, m.key, doubles)
    decreases |doc| - pos, 0
  {
    hide ParseMembers, ParseMemberValue, ParseValue, ValueToken, TokenAt, Gap, IsLooseString, LooseStringMeaning, Spaces;
    hide Denotes, IsPair, PairDenoted, IsClosed, IsSeparator, PairDeep, Put, Lookup;
    var token := ValueToken(doc, pos);
    var key := NameStep(doc, pos, depth, members, name, doubles);
    var colon := TokenAt(doc, token.end).start;
    last := MemberStep(doc, colon + 1, depth, members, key, doubles);
    var v := ParseValue(doc, colon + 1, depth + 1, Lookup(members, key), doubles);
    var start, t := ValueIs(doc, colon + 1, depth + 1, Lookup(members, key), doubles);
    PairOf(doc, pos, token, colon, start, v.pos, t, last.start, last.end, depth, v.value, doubles);
    pair := Pair(token.start, token.end, colon, Item(start, v.pos, t, last.start), last.end);
    m := Member(key, v.value);
  }

  lemma {:induction false} PairsAre(
      doc: string, pos: nat, depth: nat, members: seq<Member>, name: string, doubles: Doubles) returns (pairs: seq<Pair>)
    requires pos <= |doc| && Accepted(ParseMembers(doc, pos, depth, members, name, doubles)) && depth <= STACK_LIMIT
    ensures var r := ParseMembers(doc, pos, depth, members, name, doubles);
            && ArePairs(doc, pos, r.pos, pairs, name, doubles)
            && r.value == Obj(PairsDenoted(doc, pos, r.pos, pairs, name, members, doubles))
            && depth + PairsDeep(pairs) <= STACK_LIMIT
    decreases |doc| - pos, 1
  {
    hide ParseMembers, ValueToken, IsPair, PairDenoted, IsClosed, IsSeparator, ArePairs, PairsDenoted, PairsDeep, PairDeep, Put;
    if ValueToken(doc, pos).kind == ObjectEnd && name == "" {
      pairs := NoPairs(doc, pos, depth, members, doubles);
    } else {
      var r := ParseMembers(doc, pos, depth, members, name, doubles);
      var pair, m, last := PairIs(doc, pos, depth, members, name, doubles);
      var longer := Put(members, m.key, m.value);
      var others, result := [], longer;
      if last.kind != ObjectEnd {
        others := PairsAre(doc, last.end, depth, longer, m.key, doubles);
        result := PairsDenoted(doc, last.end, r.pos, others, m.key, longer, doubles);
      }
      PairsFrom(doc, pos, pair, r.pos, others, name, members, depth, m, result, last.kind == ObjectEnd, doubles);
      pairs := [pair] + others;
    }
  }

  lemma NoPairs(doc: string, pos: nat, depth: nat, members: seq<Member>, doubles: Doubles) returns (pairs: seq<Pair>)
    requires pos <= |doc| && ValueToken(doc, pos).kind == ObjectEnd && depth <= STACK_LIMIT
    ensures var r := ParseMembers(doc, pos, depth, members, "", doubles);
            && Accepted(r) && pairs == [] && ArePairs(doc, pos, r.pos, pairs, "", doubles)
            && r.value == Obj(PairsDenoted(doc, pos, r.pos, pairs, "", members, doubles))
            && depth + PairsDeep(pairs) <= STACK_LIMIT
  {
    pairs := [];
    ValueTokenIs(doc, pos);
    MarkIs(doc, ValueToken(doc, pos).start);
    hide ValueToken, TokenAt, Gap;
  }

  /** Whatever document is accepted, it starts with a text of the language, nested within the limit, that ends where the
      reader stops and denotes the value read. */
  lemma AcceptedIsText(doc: string, root: Json, doubles: Doubles) returns (start: nat, t: Loose)
    requires Accepted(Parse(doc, root, doubles))
    ensures var r := Parse(doc, root, doubles);
            && Gap(doc, 0, start) && IsLoose(doc, start, r.pos, t, doubles)
            && LooseDenoted(doc, start, r.pos, t, doubles) == r.value && LooseDepth(t) <= STACK_LIMIT
  {
    start, t := ValueIs(doc, 0, 1, root, doubles);
    hide ParseValue, IsLoose, LooseDenoted, LooseDepth, Gap;
  }
}
