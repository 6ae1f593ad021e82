/** The language that Json::Reader reads, as a grammar over positions in a document, and the value that a text of it
    denotes. It is that of RFC 8259 and more: comments, unescaped control characters, single surrogates, numbers that
    lack digits or start with zeros, a comma after a last member without a name, and after a comment behind a member
    any token in the place of the comma. */
module LenientGrammar {
  import opened JsonScanner
  import opened JsonValue
  import opened JsonParser
  import opened JsonGrammar
  import DecimalText
  import Utf8

  // ---------- Spaces and comments ----------

  predicate NoLineEnd(doc: string, a: nat, b: nat) {
    a <= b <= |doc| && forall i :: a <= i < b ==> doc[i] != '\n' && doc[i] != '\r'
  }

  /** A line comment takes its line end, or ends with the document. */
  predicate IsLineComment(doc: string, a: nat, b: nat) {
    && a + 2 <= b <= |doc| && doc[a] == '/' && doc[a + 1] == '/'
    && (|| (b == |doc| && NoLineEnd(doc, a + 2, b))
        || (a + 3 <= b && doc[b - 1] == '\n' && NoLineEnd(doc, a + 2, b - 1))
        || (a + 4 <= b && doc[b - 2] == '\r' && doc[b - 1] == '\n' && NoLineEnd(doc, a + 2, b - 2))
        || (a + 3 <= b && doc[b - 1] == '\r' && !At(doc, b, '\n') && NoLineEnd(doc, a + 2, b - 1)))
  }

  predicate NoCommentEnd(doc: string, a: nat, b: nat) {
    b <= |doc| && forall i :: a <= i < b - 1 ==> !(doc[i] == '*' && doc[i + 1] == '/')
  }

  /** A block comment ends with the first star and slash; at the end of the document a slash will do. */
  predicate IsBlockComment(doc: string, a: nat, b: nat) {
    && a + 3 <= b <= |doc| && doc[a] == '/' && doc[a + 1] == '*' && doc[b - 1] == '/'
    && ((a + 4 <= b && doc[b - 2] == '*') || b == |doc|)
    && NoCommentEnd(doc, a + 2, b - 1)
  }

  predicate IsComment(doc: string, a: nat, b: nat) {
    IsLineComment(doc, a, b) || IsBlockComment(doc, a, b)
  }

  /** Any number of spaces and comments. */
  ghost predicate Gap(doc: string, a: nat, b: nat)
    decreases b - a
  {
    && a <= b <= |doc|
    && (|| a == b
        || (IsSpace(doc[a]) && Gap(doc, a + 1, b))
        || exists c: nat :: a < c <= b && IsComment(doc, a, c) && Gap(doc, c, b))
  }

  /** Spaces, a comment, and any gap after it. */
  ghost predicate CommentedGap(doc: string, a: nat, b: nat) {
    exists c: nat, d: nat :: Spaces(doc, a, c) && c < d && IsComment(doc, c, d) && Gap(doc, d, b)
  }

  // ---------- Numbers and strings ----------

  /** A digit or a sign, then digits, perhaps a point and digits, perhaps an exponent and digits: none of them need be
      there, and there are as many as there can be. */
  predicate IsLooseNumber(doc: string, a: nat, b: nat, d: nat, f: nat) {
    && a < d <= f <= b <= |doc|
    && (DecimalText.IsDigit(doc[a]) || doc[a] == '-')
    && MostDigits(doc, a + 1, d)
    && (if At(doc, d, '.') then d < f && MostDigits(doc, d + 1, f) else f == d)
    && if At(doc, f, 'e') || At(doc, f, 'E') then
         var g := if At(doc, f + 1, '+') || At(doc, f + 1, '-') then f + 2 else f + 1;
         g <= b && MostDigits(doc, g, b)
       else b == f
  }

  /** These are digits, and no digit follows. */
  predicate MostDigits(doc: string, a: nat, b: nat) {
    a <= b <= |doc| && DecimalText.AllDigits(doc[a..b]) && (b == |doc| || !DecimalText.IsDigit(doc[b]))
  }

  ghost predicate IsNumberToken(doc: string, a: nat, b: nat) {
    exists d: nat, f: nat :: IsLooseNumber(doc, a, b, d, f)
  }

  /** The length of the char that a string starts with, 0 if there is none. A high surrogate takes the next escape with
      it, whatever that is. */
  function LooseLength(s: string): (n: nat)
    requires s != ""
    ensures n <= |s|
  {
    if s[0] != '\\' then (if s[0] != '\"' then 1 else 0)
    else if |s| >= 2 && IsShortEscape(s[1]) then 2
    else if !UnitAt(s, 0) then 0
    else if !IsHigh(HexNumber(s, 2)) then 6
    else if UnitAt(s, 6) then 12
    else 0
  }

  function LooseMeaning(s: string): string
    requires s != "" && LooseLength(s) > 0
  {
    var n := LooseLength(s);
    if n == 1 then [s[0]]
    else if n == 2 then
      match s[1]
      case 'b' => "\U{8}"
      case 'f' => "\U{c}"
      case 'n' => "\n"
      case 'r' => "\r"
      case 't' => "\t"
      case c => [c]
    else if n == 6 then Utf8.CodePointToUtf8(HexNumber(s, 2))
    else Utf8.CodePointToUtf8(0x10000 + (HexNumber(s, 2) - 0xD800) * 0x400 + HexNumber(s, 8) % 0x400)
  }

  predicate IsLooseChars(s: string) {
    s == "" || (LooseLength(s) > 0 && IsLooseChars(s[LooseLength(s)..]))
  }

  function LooseCharsMeaning(s: string): string
    requires IsLooseChars(s)
  {
    if s == "" then "" else LooseMeaning(s) + LooseCharsMeaning(s[LooseLength(s)..])
  }

  predicate IsLooseString(doc: string, a: nat, b: nat) {
    a + 2 <= b <= |doc| && doc[a] == '\"' && doc[b - 1] == '\"' && IsLooseChars(doc[a + 1..b - 1])
  }

  function LooseStringMeaning(doc: string, a: nat, b: nat): string
    requires IsLooseString(doc, a, b)
  {
    LooseCharsMeaning(doc[a + 1..b - 1])
  }

  // ---------- Values ----------

  /** How a text is made up. */
  datatype Loose =
    | LooseWord(v: Json)
    | LooseNumber
    | LooseString
    | LooseArray(items: seq<Item>)
    | LooseObject(pairs: seq<Pair>)

  /** A value, and where the token after it starts. */
  datatype Item = Item(start: nat, end: nat, text: Loose, after: nat)

  /** A member; `next` is where its separator ends. */
  datatype Pair = Pair(name: nat, nameEnd: nat, colon: nat, value: Item, next: nat)

  ghost predicate IsLoose(doc: string, start: nat, end: nat, t: Loose, doubles: Doubles)
    decreases t
  {
    && start < end <= |doc|
    && match t
       case LooseWord(v) => IsWord(doc[start..end], v)
       case LooseNumber => IsNumberToken(doc, start, end) && NumberValue(doc[start..end], doubles).Some?
       case LooseString => IsLooseString(doc, start, end)
       case LooseArray(items) =>
         doc[start] == '[' && doc[end - 1] == ']' &&
         if items == [] then start + 1 < end && Spaces(doc, start + 1, end - 1) else AreItems(doc, start + 1, end, items, doubles)
       case LooseObject(pairs) =>
         doc[start] == '{' && doc[end - 1] == '}' && ArePairs(doc, start + 1, end, pairs, "", doubles)
  }

  ghost predicate IsItem(doc: string, pos: nat, item: Item, doubles: Doubles)
    decreases item
  {
    Gap(doc, pos, item.start) && IsLoose(doc, item.start, item.end, item.text, doubles)
  }

  ghost predicate AreItems(doc: string, pos: nat, end: nat, items: seq<Item>, doubles: Doubles)
    requires items != []
    decreases items
  {
    && IsItem(doc, pos, items[0], doubles) && Gap(doc, items[0].end, items[0].after)
    && if |items| == 1 then At(doc, items[0].after, ']') && end == items[0].after + 1
       else At(doc, items[0].after, ',') && AreItems(doc, items[0].after + 1, end, items[1..], doubles)
  }

  ghost predicate IsPair(doc: string, pos: nat, pair: Pair, doubles: Doubles)
    decreases pair
  {
    && Gap(doc, pos, pair.name) && IsLooseString(doc, pair.name, pair.nameEnd)
    && Spaces(doc, pair.nameEnd, pair.colon) && At(doc, pair.colon, ':')
    && IsItem(doc, pair.colon + 1, pair.value, doubles)
  }

  /** A comma; or, after a comment, any token that neither closes the object nor is a comment. */
  ghost predicate IsSeparator(doc: string, pos: nat, after: nat, next: nat) {
    || (Spaces(doc, pos, after) && At(doc, after, ',') && next == after + 1)
    || (&& CommentedGap(doc, pos, after) && after < next <= |doc|
        && TokenAt(doc, after).start == after && TokenAt(doc, after).end == next
        && TokenAt(doc, after).kind != ObjectEnd && TokenAt(doc, after).kind != Comment)
  }

  ghost predicate IsClosed(doc: string, pos: nat, after: nat) {
    (Spaces(doc, pos, after) || CommentedGap(doc, pos, after)) && At(doc, after, '}')
  }

  /** The members, up to the closing brace; `name` is the name before them, and only after an empty one may there be no
      more. */
  ghost predicate ArePairs(doc: string, pos: nat, end: nat, pairs: seq<Pair>, name: string, doubles: Doubles)
    decreases pairs
  {
    if pairs == [] then name == "" && pos < end && Gap(doc, pos, end - 1) && At(doc, end - 1, '}')
    else
      var pair := pairs[0];
      && IsPair(doc, pos, pair, doubles)
      && if IsClosed(doc, pair.value.end, pair.value.after) && end == pair.value.after + 1 && |pairs| == 1 then true
         else
           && IsSeparator(doc, pair.value.end, pair.value.after, pair.next)
           && ArePairs(doc, pair.next, end, pairs[1..], LooseStringMeaning(doc, pair.name, pair.nameEnd), doubles)
  }

  // ---------- What is denoted ----------

  ghost function LooseDenoted(doc: string, start: nat, end: nat, t: Loose, doubles: Doubles): Json
    requires IsLoose(doc, start, end, t, doubles)
    decreases t
  {
    match t
    case LooseWord(v) => v
    case LooseNumber => NumberValue(doc[start..end], doubles).value
    case LooseString => Str(LooseStringMeaning(doc, start, end))
    case LooseArray(items) => Arr(if items == [] then [] else ItemsDenoted(doc, start + 1, end, items, doubles))
    case LooseObject(pairs) => Obj(PairsDenoted(doc, start + 1, end, pairs, "", [], doubles))
  }

  ghost function ItemDenoted(doc: string, pos: nat, item: Item, doubles: Doubles): Json
    requires IsItem(doc, pos, item, doubles)
    decreases item
  {
    LooseDenoted(doc, item.start, item.end, item.text, doubles)
  }

  ghost function ItemsDenoted(doc: string, pos: nat, end: nat, items: seq<Item>, doubles: Doubles): seq<Json>
    requires items != [] && AreItems(doc, pos, end, items, doubles)
    decreases items
  {
    [ItemDenoted(doc, pos, items[0], doubles)]
    + if |items| == 1 then [] else ItemsDenoted(doc, items[0].after + 1, end, items[1..], doubles)
  }

  ghost function PairDenoted(doc: string, pos: nat, pair: Pair, doubles: Doubles): Member
    requires IsPair(doc, pos, pair, doubles)
    decreases pair
  {
    Member(LooseStringMeaning(doc, pair.name, pair.nameEnd), ItemDenoted(doc, pair.colon + 1, pair.value, doubles))
  }

  /** Of members with the same name the last one counts. */
  ghost function PairsDenoted(
      doc: string, pos: nat, end: nat, pairs: seq<Pair>, name: string, done: seq<Member>, doubles: Doubles): seq<Member>
    requires ArePairs(doc, pos, end, pairs, name, doubles)
    decreases pairs
  {
    if pairs == [] then done
    else
      var m := PairDenoted(doc, pos, pairs[0], doubles);
      var longer := Put(done, m.key, m.value);
      if IsClosed(doc, pairs[0].value.end, pairs[0].value.after) && end == pairs[0].value.after + 1 && |pairs| == 1 then longer
      else PairsDenoted(doc, pairs[0].next, end, pairs[1..], m.key, longer, doubles)
  }

  /** The number of nodes on the longest path from the root. */
  function LooseDepth(t: Loose): nat
    decreases t
  {
    match t
    case LooseArray(items) => 1 + ItemsDeep(items)
    case LooseObject(pairs) => 1 + PairsDeep(pairs)
    case _ => 1
  }

  function ItemDeep(item: Item): nat
    decreases item
  {
    LooseDepth(item.text)
  }

  function ItemsDeep(items: seq<Item>): nat
    decreases items
  {
    if items == [] then 0 else Max(ItemDeep(items[0]), ItemsDeep(items[1..]))
  }

  function PairDeep(pair: Pair): nat
    decreases pair
  {
    ItemDeep(pair.value)
  }

  function PairsDeep(pairs: seq<Pair>): nat
    decreases pairs
  {
    if pairs == [] then 0 else Max(PairDeep(pairs[0]), PairsDeep(pairs[1..]))
  }

  /** An object from its members. */
  lemma ObjectMeans(doc: string, start: nat, end: nat, pairs: seq<Pair>, members: seq<Member>, doubles: Doubles)
    requires At(doc, start, '{') && start < end <= |doc| && doc[end - 1] == '}'
    requires ArePairs(doc, start + 1, end, pairs, "", doubles)
    requires PairsDenoted(doc, start + 1, end, pairs, "", [], doubles) == members
    ensures IsLoose(doc, start, end, LooseObject(pairs), doubles)
    ensures LooseDenoted(doc, start, end, LooseObject(pairs), doubles) == Obj(members)
  {
    hide Gap, ArePairs, PairsDenoted;
  }
}
