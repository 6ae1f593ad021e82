/** The grammar of RFC 8259 over positions in a document, and the value that a text denotes. */
module JsonGrammar {
  import opened JsonScanner
  import opened JsonValue
  import opened JsonParser
  import DecimalText
  import QuotedString
  import Utf8

  // ---------- Numbers (section 6) ----------

  predicate IsInteger(s: string) {
    s != "" && DecimalText.AllDigits(s) && (s[0] == '0' ==> |s| == 1)
  }

  predicate IsFraction(s: string) {
    s == "" || (s[0] == '.' && s[1..] != "" && DecimalText.AllDigits(s[1..]))
  }

  predicate IsExponent(s: string) {
    s == "" || ((s[0] == 'e' || s[0] == 'E') &&
                var k := if |s| > 1 && (s[1] == '+' || s[1] == '-') then 2 else 1;
                s[k..] != "" && DecimalText.AllDigits(s[k..]))
  }

  ghost predicate IsNumber(s: string) {
    exists d: nat, f: nat :: IsNumberWith(s, d, f)
  }

  /** A minus sign, the integer up to d, the fraction up to f, and the exponent. */
  predicate IsNumberWith(s: string, d: nat, f: nat) {
    var i := if s != "" && s[0] == '-' then 1 else 0;
    i < d <= f <= |s| && IsInteger(s[i..d]) && IsFraction(s[d..f]) && IsExponent(s[f..])
  }

  // ---------- Strings (section 7) ----------

  predicate HexAt(s: string, at: nat) {
    at + 4 <= |s| && forall i :: at <= i < at + 4 ==> QuotedString.IsHex(s[i])
  }

  function HexNumber(s: string, at: nat): (n: int)
    requires HexAt(s, at)
    ensures 0 <= n < 0x10000
  {
    QuotedString.HexValue(s[at]) * 0x1000 + QuotedString.HexValue(s[at + 1]) * 0x100
    + QuotedString.HexValue(s[at + 2]) * 0x10 + QuotedString.HexValue(s[at + 3])
  }

  predicate IsHigh(n: int) {
    0xD800 <= n <= 0xDBFF
  }

  predicate IsLow(n: int) {
    0xDC00 <= n <= 0xDFFF
  }

  predicate UnitAt(s: string, at: nat) {
    at + 6 <= |s| && s[at] == '\\' && s[at + 1] == 'u' && HexAt(s, at + 2)
  }

  predicate IsShortEscape(c: char) {
    c == '\"' || c == '\\' || c == '/' || c == 'b' || c == 'f' || c == 'n' || c == 'r' || c == 't'
  }

  /** The length of the char that the string starts with, 0 if there is none. Escaped surrogates come in pairs. */
  function CharLength(s: string): (n: nat)
    requires s != ""
    ensures n <= |s|
  {
    if s[0] != '\\' then (if s[0] >= ' ' && s[0] != '\"' then 1 else 0)
    else if |s| >= 2 && IsShortEscape(s[1]) then 2
    else if !UnitAt(s, 0) || IsLow(HexNumber(s, 2)) then 0
    else if !IsHigh(HexNumber(s, 2)) then 6
    else if UnitAt(s, 6) && IsLow(HexNumber(s, 8)) then 12
    else 0
  }

  /** The bytes of the character it stands for. */
  function CharMeaning(s: string): string
    requires s != "" && CharLength(s) > 0
  {
    var n := CharLength(s);
    if n == 1 then [s[0]]
    else if n == 2 then
      match s[1]
      case 'b' => "\U{8}"
      case 'f' => "\U{c}"
      case 'n' => "\n"
      case 'r' => "\r"
      case 't' => "\t"
      case c => [c]
    else if n == 6 then Utf8.CodePointToUtf8(HexNumber(s, 2))
    else Utf8.CodePointToUtf8(0x10000 + (HexNumber(s, 2) - 0xD800) * 0x400 + (HexNumber(s, 8) - 0xDC00))
  }

  predicate IsChars(s: string) {
    s == "" || (CharLength(s) > 0 && IsChars(s[CharLength(s)..]))
  }

  function CharsMeaning(s: string): string
    requires IsChars(s)
  {
    if s == "" then "" else CharMeaning(s) + CharsMeaning(s[CharLength(s)..])
  }

  // ---------- Values (sections 2 to 5) ----------

  /** How a text is made up. The places of its parts are positions in the document. */
  datatype Tree =
    | Word(v: Json)
    | Number
    | String
    | Array(items: seq<Slot>)
    | Object(entries: seq<Entry>)

  /** A value, and the position of the comma or bracket after it. */
  datatype Slot = Slot(start: nat, end: nat, tree: Tree, after: nat)

  datatype Entry = Entry(name: nat, nameEnd: nat, colon: nat, slot: Slot)

  /** ws */
  predicate Spaces(doc: string, pos: nat, end: nat) {
    pos <= end <= |doc| && forall i :: pos <= i < end ==> IsSpace(doc[i])
  }

  predicate IsWord(text: string, v: Json) {
    || (v == Null && text == "null") || (v == Bool(true) && text == "true") || (v == Bool(false) && text == "false")
  }

  predicate IsString(text: string) {
    |text| >= 2 && text[0] == '\"' && text[|text| - 1] == '\"' && IsChars(text[1..|text| - 1])
  }

  function StringMeaning(text: string): string
    requires IsString(text)
  {
    CharsMeaning(text[1..|text| - 1])
  }

  /** value; a number must be one that the reader can represent. */
  ghost predicate IsText(doc: string, start: nat, end: nat, t: Tree, doubles: Doubles)
    decreases t
  {
    && start < end <= |doc|
    && match t
       case Word(v) => IsWord(doc[start..end], v)
       case Number => IsNumber(doc[start..end]) && NumberValue(doc[start..end], doubles).Some?
       case String => IsString(doc[start..end])
       case Array(items) =>
         doc[start] == '[' &&
         if items == [] then Spaces(doc, start + 1, end - 1) && start + 1 < end && doc[end - 1] == ']'
         else IsItems(doc, start + 1, end, items, doubles)
       case Object(entries) =>
         doc[start] == '{' &&
         if entries == [] then Spaces(doc, start + 1, end - 1) && start + 1 < end && doc[end - 1] == '}'
         else IsEntries(doc, start + 1, end, entries, doubles)
  }

  /** A value with spaces around it, and the character after them. */
  ghost predicate IsSlot(doc: string, pos: nat, slot: Slot, doubles: Doubles)
    decreases slot
  {
    && Spaces(doc, pos, slot.start)
    && IsText(doc, slot.start, slot.end, slot.tree, doubles)
    && Spaces(doc, slot.end, slot.after)
  }

  ghost predicate IsItems(doc: string, pos: nat, end: nat, items: seq<Slot>, doubles: Doubles)
    requires items != []
    decreases items
  {
    && IsSlot(doc, pos, items[0], doubles)
    && if |items| == 1 then At(doc, items[0].after, ']') && end == items[0].after + 1
       else At(doc, items[0].after, ',') && IsItems(doc, items[0].after + 1, end, items[1..], doubles)
  }

  predicate IsName(doc: string, pos: nat, entry: Entry) {
    && Spaces(doc, pos, entry.name)
    && entry.name <= entry.nameEnd <= |doc| && IsString(doc[entry.name..entry.nameEnd])
    && Spaces(doc, entry.nameEnd, entry.colon) && At(doc, entry.colon, ':')
  }

  /** member */
  ghost predicate IsEntry(doc: string, pos: nat, entry: Entry, doubles: Doubles)
    decreases entry
  {
    IsName(doc, pos, entry) && IsSlot(doc, entry.colon + 1, entry.slot, doubles)
  }

  ghost predicate IsEntries(doc: string, pos: nat, end: nat, entries: seq<Entry>, doubles: Doubles)
    requires entries != []
    decreases entries
  {
    var entry := entries[0];
    && IsEntry(doc, pos, entry, doubles)
    && if |entries| == 1 then At(doc, entry.slot.after, '}') && end == entry.slot.after + 1
       else At(doc, entry.slot.after, ',') && IsEntries(doc, entry.slot.after + 1, end, entries[1..], doubles)
  }

  /** The value denoted. Of members with the same name the last one counts. */
  ghost function Denoted(doc: string, start: nat, end: nat, t: Tree, doubles: Doubles): Json
    requires IsText(doc, start, end, t, doubles)
    decreases t
  {
    match t
    case Word(v) => v
    case Number => NumberValue(doc[start..end], doubles).value
    case String => Str(StringMeaning(doc[start..end]))
    case Array(items) => Arr(if items == [] then [] else DenotedItems(doc, start + 1, end, items, doubles))
    case Object(entries) => Obj(if entries == [] then [] else DenotedMembers(doc, start + 1, end, entries, [], doubles))
  }

  ghost function DenotedSlot(doc: string, pos: nat, slot: Slot, doubles: Doubles): Json
    requires IsSlot(doc, pos, slot, doubles)
    decreases slot
  {
    Denoted(doc, slot.start, slot.end, slot.tree, doubles)
  }

  ghost function DenotedItems(doc: string, pos: nat, end: nat, items: seq<Slot>, doubles: Doubles): seq<Json>
    requires items != [] && IsItems(doc, pos, end, items, doubles)
    decreases items
  {
    [DenotedSlot(doc, pos, items[0], doubles)]
    + if |items| == 1 then [] else DenotedItems(doc, items[0].after + 1, end, items[1..], doubles)
  }

  function NameOf(doc: string, pos: nat, entry: Entry): string
    requires IsName(doc, pos, entry)
  {
    StringMeaning(doc[entry.name..entry.nameEnd])
  }

  ghost function DenotedEntry(doc: string, pos: nat, entry: Entry, doubles: Doubles): Member
    requires IsEntry(doc, pos, entry, doubles)
    decreases entry
  {
    Member(NameOf(doc, pos, entry), DenotedSlot(doc, entry.colon + 1, entry.slot, doubles))
  }

  ghost function DenotedMembers(
      doc: string, pos: nat, end: nat, entries: seq<Entry>, done: seq<Member>, doubles: Doubles): seq<Member>
    requires entries != [] && IsEntries(doc, pos, end, entries, doubles)
    decreases entries
  {
    var m := DenotedEntry(doc, pos, entries[0], doubles);
    var longer := Put(done, m.key, m.value);
    if |entries| == 1 then longer else DenotedMembers(doc, entries[0].slot.after + 1, end, entries[1..], longer, doubles)
  }

  /** The number of nodes on the longest path from the root. */
  function TreeDepth(t: Tree): nat
    decreases t
  {
    match t
    case Array(items) => 1 + SlotsDepth(items)
    case Object(entries) => 1 + EntriesDepth(entries)
    case _ => 1
  }

  function SlotDepth(slot: Slot): nat
    decreases slot
  {
    TreeDepth(slot.tree)
  }

  function SlotsDepth(items: seq<Slot>): nat
    decreases items
  {
    if items == [] then 0 else Max(SlotDepth(items[0]), SlotsDepth(items[1..]))
  }

  function EntryDepth(entry: Entry): nat
    decreases entry
  {
    SlotDepth(entry.slot)
  }

  function EntriesDepth(entries: seq<Entry>): nat
    decreases entries
  {
    if entries == [] then 0 else Max(EntryDepth(entries[0]), EntriesDepth(entries[1..]))
  }

  /** What may follow a number. */
  predicate Delimited(doc: string, end: nat) {
    end >= |doc| || !(DecimalText.IsDigit(doc[end]) || doc[end] == '.' || doc[end] == 'e' || doc[end] == 'E')
  }

  /** value with spaces before it; anything may follow. */
  ghost predicate StartsWithText(doc: string, start: nat, end: nat, t: Tree, doubles: Doubles) {
    Spaces(doc, 0, start) && IsText(doc, start, end, t, doubles) && (t.Number? ==> Delimited(doc, end))
  }
}
