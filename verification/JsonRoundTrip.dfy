/** The writer writes texts of RFC 8259, and so the reader undoes the writer. */
module JsonRoundTrip {
  import opened Options
  import opened JsonScanner
  import opened JsonValue
  import opened JsonWriter
  import opened JsonParser
  import opened JsonGrammar
  import opened JsonAcceptance
  import DecimalText
  import QuotedString
  import Utf8

  // ---------- Statement ----------

  /** What the writer can represent exactly: 64-bit integers, no floating point, members in key order. Strings and keys
      are arbitrary bytes. */
  predicate Writable(v: Json)
    decreases v
  {
    match v
    case Int(i) => DecimalText.MIN_LARGEST_INT <= i <= DecimalText.MAX_LARGEST_INT
    case UInt(u) => 0 <= u <= DecimalText.MAX_LARGEST_UINT
    case Real(_) => false
    case Arr(items) => forall item <- items :: Writable(item)
    case Obj(members) => Sorted(members) && forall m <- members :: Writable(m.value)
    case _ => true
  }

  function OfNumber(n: int): Json {
    if n <= DecimalText.MAX_INT then Int(n) else UInt(n)
  }

  /** The value as it is read back: integers re-tagged by size, ill-formed UTF-8 replaced. Where that makes keys equal,
      the last one counts. */
  function Canonical(v: Json): Json
    decreases v, 0
  {
    match v
    case Int(i) => OfNumber(i)
    case UInt(u) => OfNumber(u)
    case Str(s) => Str(Utf8.Repaired(s))
    case Arr(items) => Arr(CanonicalItems(items))
    case Obj(members) => Obj(Gathered([], members))
    case _ => v
  }

  function CanonicalItems(items: seq<Json>): seq<Json>
    decreases items, 1
  {
    if items == [] then [] else [Canonical(items[0])] + CanonicalItems(items[1..])
  }

  /** The members set one after the other. */
  function Gathered(done: seq<Member>, members: seq<Member>): seq<Member>
    decreases members, 2
  {
    if members == [] then done
    else Gathered(Put(done, CanonicalMember(members[0]).key, CanonicalMember(members[0]).value), members[1..])
  }

  function CanonicalMember(m: Member): Member
    decreases m, 1
  {
    Member(Utf8.Repaired(m.key), Canonical(m.value))
  }

  /** The number of nodes on the longest path from the root. */
  function Depth(v: Json): (d: nat)
    ensures d >= 1
    decreases v, 0
  {
    match v
    case Arr(items) => 1 + ItemsDepth(items)
    case Obj(members) => 1 + MembersDepth(members)
    case _ => 1
  }

  function ItemsDepth(items: seq<Json>): nat
    decreases items, 1
  {
    if items == [] then 0 else Max(Depth(items[0]), ItemsDepth(items[1..]))
  }

  function MembersDepth(members: seq<Member>): nat
    decreases members, 2
  {
    if members == [] then 0 else Max(MemberDepth(members[0]), MembersDepth(members[1..]))
  }

  function MemberDepth(m: Member): nat
    decreases m, 1
  {
    Depth(m.value)
  }

  // ---------- Text in a document ----------

  predicate Holds(doc: string, pos: nat, text: string) {
    pos + |text| <= |doc| && doc[pos..pos + |text|] == text
  }

  lemma HoldsParts(doc: string, pos: nat, a: string, b: string)
    requires Holds(doc, pos, a + b)
    ensures Holds(doc, pos, a) && Holds(doc, pos + |a|, b)
  {
    assert doc[pos..pos + |a|] == doc[pos..pos + |a + b|][..|a|];
    assert doc[pos + |a|..pos + |a + b|] == doc[pos..pos + |a + b|][|a|..];
  }

  lemma HoldsAt(doc: string, pos: nat, text: string, i: nat)
    requires Holds(doc, pos, text) && i < |text|
    ensures doc[pos + i] == text[i]
  {
    assert doc[pos..pos + |text|][i] == doc[pos + i];
  }

  // ---------- Layout ----------

  /** Where the parts of a written value stand. */
  function Layout(v: Json, pos: nat, doubles: Doubles): Tree
    decreases v, 0
  {
    match v
    case Int(_) => Tree.Number
    case UInt(_) => Tree.Number
    case Real(_) => Tree.Number
    case Str(_) => Tree.String
    case Arr(items) => Array(ItemsLayout(items, pos + 1, doubles))
    case Obj(members) => Object(MembersLayout(members, pos + 1, doubles))
    case _ => Word(v)
  }

  function SlotLayout(v: Json, pos: nat, doubles: Doubles): Slot
    decreases v, 1
  {
    Slot(pos, pos + |Text(v, doubles)|, Layout(v, pos, doubles), pos + |Text(v, doubles)|)
  }

  function ItemsLayout(items: seq<Json>, pos: nat, doubles: Doubles): seq<Slot>
    decreases items, 2
  {
    if items == [] then []
    else
      var slot := SlotLayout(items[0], pos, doubles);
      [slot] + ItemsLayout(items[1..], slot.after + 1, doubles)
  }

  function MemberLayout(m: Member, pos: nat, doubles: Doubles): Entry
    decreases m, 2
  {
    var colon := pos + |QuotedString.Quoted(m.key)|;
    Entry(pos, colon, colon, SlotLayout(m.value, colon + 1, doubles))
  }

  function MembersLayout(members: seq<Member>, pos: nat, doubles: Doubles): seq<Entry>
    decreases members, 3
  {
    if members == [] then []
    else
      var entry := MemberLayout(members[0], pos, doubles);
      [entry] + MembersLayout(members[1..], entry.slot.after + 1, doubles)
  }

  lemma {:induction false} LayoutDepth(v: Json, pos: nat, doubles: Doubles)
    ensures TreeDepth(Layout(v, pos, doubles)) == Depth(v)
    decreases v, 0
  {
    hide Text;
    if v.Arr? {
      ItemsLayoutDepth(v.items, pos + 1, doubles);
    } else if v.Obj? {
      MembersLayoutDepth(v.members, pos + 1, doubles);
    }
  }

  lemma {:induction false} ItemsLayoutDepth(items: seq<Json>, pos: nat, doubles: Doubles)
    ensures SlotsDepth(ItemsLayout(items, pos, doubles)) == ItemsDepth(items)
    decreases items, 1
  {
    hide Text, Layout, Depth;
    if items != [] {
      var slot := SlotLayout(items[0], pos, doubles);
      LayoutDepth(items[0], pos, doubles);
      ItemsLayoutDepth(items[1..], slot.after + 1, doubles);
      assert ItemsLayout(items, pos, doubles)[1..] == ItemsLayout(items[1..], slot.after + 1, doubles);
    }
  }

  lemma {:induction false} MembersLayoutDepth(members: seq<Member>, pos: nat, doubles: Doubles)
    ensures EntriesDepth(MembersLayout(members, pos, doubles)) == MembersDepth(members)
    decreases members, 1
  {
    hide Text, Layout, Depth, QuotedString.Quoted;
    if members != [] {
      var entry := MemberLayout(members[0], pos, doubles);
      LayoutDepth(members[0].value, entry.colon + 1, doubles);
      var slot := SlotLayout(members[0].value, entry.colon + 1, doubles);
      assert entry.slot == slot && EntryDepth(entry) == SlotDepth(slot);
      assert MemberDepth(members[0]) == Depth(members[0].value);
      assert MembersLayout(members, pos, doubles)[0] == entry;
      MembersLayoutDepth(members[1..], entry.slot.after + 1, doubles);
      assert MembersLayout(members, pos, doubles)[1..] == MembersLayout(members[1..], entry.slot.after + 1, doubles);
    }
  }

  // ---------- Numbers and strings ----------

  lemma IntegerIsNumber(n: int, doubles: Doubles)
    requires DecimalText.MIN_LARGEST_INT <= n <= DecimalText.MAX_LARGEST_UINT
    ensures var text := DecimalText.IntegerText(n);
            IsNumber(text) && NumberValue(text, doubles) == Some(OfNumber(n))
  {
    var text := DecimalText.IntegerText(n);
    var digits := DecimalText.Digits(if n < 0 then -n else n);
    DecimalText.DigitsDenote(if n < 0 then -n else n);
    assert text == if n < 0 then ['-'] + digits else digits;
    assert n < 0 ==> text[1..|text|] == digits;
    assert n >= 0 ==> text[0..|text|] == digits;
    assert text[|text|..|text|] == "" && text[|text|..] == "";
    assert IsNumberWith(text, |text|, |text|) by {
      hide DecimalText.Digits, DecimalText.IntegerText;
      assert DecimalText.IsDigit(digits[0]);
    }
    DecimalText.IntegerTextRoundTrip(n);
  }

  lemma HexIsUnit(x: int, t: string, at: nat)
    requires 0 <= x < 0x10000 && at + 6 <= |t| && t[at..at + 6] == QuotedString.Hex(x)
    ensures UnitAt(t, at) && HexNumber(t, at + 2) == x
  {
    QuotedString.HexReadsBack(x, t, at);
    var escape := t[at..at + 6];
    assert escape[0] == t[at] && escape[1] == t[at + 1];
  }

  /** The escape of a code point is one char. */
  lemma ScalarIsChar(cp: Utf8.Scalar, rest: string)
    ensures var t := QuotedString.EscapedScalar(cp) + rest;
            CharLength(t) == |QuotedString.EscapedScalar(cp)|
  {
    var escape := QuotedString.EscapedScalar(cp);
    if |escape| == 6 {
      HexIsChar(cp, escape + rest);
    } else if |escape| == 12 {
      var extended := cp - 0x10000;
      var high, low := extended / 0x400, extended % 0x400;
      QuotedString.SurrogateForm(cp, high, low);
      PairIsChar(high, low, escape + rest);
    } else {
      hide QuotedString.Hex, HexNumber, UnitAt;
    }
  }

  lemma HexIsChar(cp: Utf8.Scalar, t: string)
    requires cp < 0x10000 && QuotedString.Hex(cp) <= t
    ensures CharLength(t) == 6
  {
    HexIsUnit(cp, t, 0);
    assert t[1] == QuotedString.Hex(cp)[1];
  }

  lemma PairIsChar(high: nat, low: nat, t: string)
    requires high < 0x400 && low < 0x400
    requires QuotedString.Hex(0xd800 + high) + QuotedString.Hex(0xdc00 + low) <= t
    ensures CharLength(t) == 12
  {
    PairIsUnits(0xd800 + high, 0xdc00 + low, t);
    hide HexNumber, QuotedString.Hex;
  }

  lemma PairIsUnits(high: int, low: int, t: string)
    requires 0 <= high < 0x10000 && 0 <= low < 0x10000
    requires QuotedString.Hex(high) + QuotedString.Hex(low) <= t
    ensures UnitAt(t, 0) && HexNumber(t, 2) == high && UnitAt(t, 6) && HexNumber(t, 8) == low
  {
    assert t[0..6] == QuotedString.Hex(high) && t[6..12] == QuotedString.Hex(low);
    HexIsUnit(high, t, 0);
    HexIsUnit(low, t, 6);
  }

  lemma {:induction false} ScalarsAreChars(cps: seq<Utf8.Scalar>)
    ensures IsChars(QuotedString.EscapedScalars(cps))
  {
    if cps != [] {
      var escape, rest := QuotedString.EscapedScalar(cps[0]), QuotedString.EscapedScalars(cps[1..]);
      ScalarIsChar(cps[0], rest);
      ScalarsAreChars(cps[1..]);
      assert (escape + rest)[|escape|..] == rest;
      hide QuotedString.EscapedScalar, CharLength;
    }
  }

  /** A quoted string is one of the grammar, and means the repaired string. */
  lemma QuotedIsString(s: string)
    ensures IsString(QuotedString.Quoted(s)) && StringMeaning(QuotedString.Quoted(s)) == Utf8.Repaired(s)
  {
    hide IsChars, CharsMeaning, QuotedString.Escaped, QuotedString.EscapedScalars, Utf8.Repaired, QuotedString.Contents;
    var body := QuotedString.Escaped(s);
    QuotedString.EscapedByPoints(s);
    ScalarsAreChars(Utf8.Points(s));
    QuotedString.QuotedReadsBack(s);
    CharsAreRead(body);
    assert QuotedString.Quoted(s)[1..|QuotedString.Quoted(s)| - 1] == body;
  }

  // ---------- Values ----------

  lemma Bracketed(doc: string, pos: nat, open: char, body: string, close: char)
    requires Holds(doc, pos, [open] + body + [close])
    ensures At(doc, pos, open) && Holds(doc, pos + 1, body) && At(doc, pos + 1 + |body|, close)
  {
    HoldsParts(doc, pos, [open] + body, [close]);
    HoldsParts(doc, pos, [open], body);
    HoldsAt(doc, pos, [open], 0);
    HoldsAt(doc, pos + 1 + |body|, [close], 0);
  }

  /** A text of the grammar with its meaning. */
  ghost predicate Means(doc: string, start: nat, end: nat, t: Tree, doubles: Doubles, v: Json) {
    IsText(doc, start, end, t, doubles) && Denoted(doc, start, end, t, doubles) == v
  }

  lemma ScalarIsText(v: Json, doc: string, pos: nat, end: nat, doubles: Doubles)
    requires Writable(v) && !v.Arr? && !v.Obj? && Holds(doc, pos, Text(v, doubles)) && end == pos + |Text(v, doubles)|
    ensures Means(doc, pos, end, Layout(v, pos, doubles), doubles, Canonical(v))
  {
    hide IsNumber, IsString, StringMeaning, NumberValue, QuotedString.Quoted, DecimalText.IntegerText;
    if v.Int? || v.UInt? {
      var n := if v.Int? then v.i else v.u;
      IntegerIsNumber(n, doubles);
      assert DecimalText.IntegerText(n) != "" by { DecimalText.IntegerTextRoundTrip(n); }
    } else if v.Str? {
      QuotedIsString(v.s);
      assert |QuotedString.Quoted(v.s)| >= 2 by { QuotedLength(v.s); }
    }
  }

  lemma QuotedLength(s: string)
    ensures |QuotedString.Quoted(s)| >= 2
  {
  }

  /** What the writer writes is a text of the grammar, and means the value up to tags and repair. */
  lemma {:induction false} WrittenIsText(v: Json, doc: string, pos: nat, end: nat, doubles: Doubles)
    requires Writable(v) && Holds(doc, pos, Text(v, doubles)) && end == pos + |Text(v, doubles)|
    ensures Means(doc, pos, end, Layout(v, pos, doubles), doubles, Canonical(v))
    decreases v, 0
  {
    if v.Arr? {
      WrittenArray(v.items, doc, pos, doubles);
    } else if v.Obj? {
      WrittenObject(v.members, doc, pos, doubles);
    } else {
      ScalarIsText(v, doc, pos, end, doubles);
    }
  }

  lemma {:induction false} WrittenSlot(v: Json, doc: string, pos: nat, doubles: Doubles)
    requires Writable(v) && Holds(doc, pos, Text(v, doubles))
    ensures var slot := SlotLayout(v, pos, doubles);
            IsSlot(doc, pos, slot, doubles) && DenotedSlot(doc, pos, slot, doubles) == Canonical(v)
    decreases v, 1
  {
    hide Text, Layout, Canonical, Writable;
    WrittenIsText(v, doc, pos, pos + |Text(v, doubles)|, doubles);
    hide IsText, Denoted;
  }

  lemma {:induction false} WrittenArray(items: seq<Json>, doc: string, pos: nat, doubles: Doubles)
    requires (forall item <- items :: Writable(item)) && Holds(doc, pos, Text(Arr(items), doubles))
    ensures Means(doc, pos, pos + |Text(Arr(items), doubles)|, Layout(Arr(items), pos, doubles), doubles, Canonical(Arr(items)))
    decreases items, 3
  {
    var body := ItemsText(items, true, doubles);
    assert Text(Arr(items), doubles) == ['['] + body + [']'];
    assert items == [] ==> body == "";
    hide Text, ItemsText, Holds, Writable;
    hide IsItems, DenotedItems, ItemsLayout, CanonicalItems;
    Bracketed(doc, pos, '[', body, ']');
    var slots, end := ItemsLayout(items, pos + 1, doubles), pos + |body| + 2;
    if items == [] {
      assert Means(doc, pos, pos + 2, Array([]), doubles, Arr([]));
    } else {
      WrittenItems(items, doc, pos + 1, doubles);
      SlotsMean(doc, pos, end, slots, CanonicalItems(items), doubles);
    }
  }

  lemma SlotsMean(doc: string, pos: nat, end: nat, slots: seq<Slot>, values: seq<Json>, doubles: Doubles)
    requires At(doc, pos, '[') && pos < end <= |doc|
    requires slots != [] && IsItems(doc, pos + 1, end, slots, doubles) && DenotedItems(doc, pos + 1, end, slots, doubles) == values
    ensures Means(doc, pos, end, Array(slots), doubles, Arr(values))
  {
    hide IsItems, DenotedItems;
  }

  lemma EntriesMean(doc: string, pos: nat, end: nat, entries: seq<Entry>, members: seq<Member>, doubles: Doubles)
    requires At(doc, pos, '{') && pos < end <= |doc|
    requires entries != [] && IsEntries(doc, pos + 1, end, entries, doubles)
    requires DenotedMembers(doc, pos + 1, end, entries, [], doubles) == members
    ensures Means(doc, pos, end, Object(entries), doubles, Obj(members))
  {
    hide IsEntries, DenotedMembers;
  }

  lemma EmptyObjectMeans(doc: string, pos: nat, doubles: Doubles)
    requires At(doc, pos, '{') && At(doc, pos + 1, '}')
    ensures Means(doc, pos, pos + 2, Object([]), doubles, Obj([]))
  {
  }

  lemma {:induction false} WrittenItems(items: seq<Json>, doc: string, pos: nat, doubles: Doubles)
    requires items != [] && forall item <- items :: Writable(item)
    requires Holds(doc, pos, ItemsText(items, true, doubles)) && At(doc, pos + |ItemsText(items, true, doubles)|, ']')
    ensures var slots, end := ItemsLayout(items, pos, doubles), pos + |ItemsText(items, true, doubles)| + 1;
            && slots != [] && IsItems(doc, pos, end, slots, doubles)
            && DenotedItems(doc, pos, end, slots, doubles) == CanonicalItems(items)
    decreases items, 2
  {
    hide Text, ItemsText, Holds, Layout, Writable, IsSlot, DenotedSlot, Canonical;
    var slots, others := ItemsLayout(items, pos, doubles), items[1..];
    ItemsLayOut(items, doc, pos, doubles);
    WrittenSlot(items[0], doc, pos, doubles);
    assert slots[0] == SlotLayout(items[0], pos, doubles);
    assert slots[1..] == ItemsLayout(others, slots[0].after + 1, doubles);
    if others != [] {
      WrittenItems(others, doc, slots[0].after + 1, doubles);
    }
  }

  lemma FirstItem(items: seq<Json>, doubles: Doubles)
    requires items != []
    ensures ItemsText(items, true, doubles) == Text(items[0], doubles) + ItemsText(items[1..], false, doubles)
  {
    assert "" + Text(items[0], doubles) == Text(items[0], doubles);
  }

  lemma LaterItems(items: seq<Json>, doubles: Doubles)
    requires items != []
    ensures ItemsText(items, false, doubles) == "," + ItemsText(items, true, doubles)
  {
    var first, rest := Text(items[0], doubles), ItemsText(items[1..], false, doubles);
    assert "" + first + rest == first + rest;
    assert "," + (first + rest) == "," + first + rest;
  }

  /** Where the parts of the items' text stand. */
  lemma ItemsLayOut(items: seq<Json>, doc: string, pos: nat, doubles: Doubles)
    requires items != [] && Holds(doc, pos, ItemsText(items, true, doubles))
    requires At(doc, pos + |ItemsText(items, true, doubles)|, ']')
    ensures var first, others := Text(items[0], doubles), items[1..];
            var after := pos + |first|;
            && Holds(doc, pos, first)
            && (others == [] ==> At(doc, after, ']') && |ItemsText(items, true, doubles)| == |first|)
            && (others != [] ==>
                  && At(doc, after, ',') && Holds(doc, after + 1, ItemsText(others, true, doubles))
                  && |ItemsText(items, true, doubles)| == |first| + 1 + |ItemsText(others, true, doubles)|)
  {
    var first, others := Text(items[0], doubles), items[1..];
    var rest := ItemsText(others, false, doubles);
    assert ItemsText(items, true, doubles) == first + rest by { FirstItem(items, doubles); }
    hide Text, ItemsText, Holds;
    HoldsParts(doc, pos, first, rest);
    if others == [] {
      assert first + rest == first;
    } else {
      LaterLayOut(others, doc, pos + |first|, doubles);
    }
  }

  lemma LaterLayOut(others: seq<Json>, doc: string, pos: nat, doubles: Doubles)
    requires others != [] && Holds(doc, pos, ItemsText(others, false, doubles))
    ensures var tail := ItemsText(others, true, doubles);
            At(doc, pos, ',') && Holds(doc, pos + 1, tail) && |ItemsText(others, false, doubles)| == 1 + |tail|
  {
    hide Text, ItemsText, Holds;
    LaterItems(others, doubles);
    HoldsAt(doc, pos, ItemsText(others, false, doubles), 0);
    HoldsParts(doc, pos, ",", ItemsText(others, true, doubles));
  }

  lemma WritableParts(members: seq<Member>)
    requires members != [] && Writable(Obj(members))
    ensures Writable(members[0].value) && Writable(Obj(members[1..]))
  {
    assert members[0] in members;
  }

  lemma ObjectParts(members: seq<Member>, pos: nat, doubles: Doubles)
    requires Writable(Obj(members))
    ensures Text(Obj(members), doubles) == ['{'] + MembersText(members, true, doubles) + ['}']
    ensures |Text(Obj(members), doubles)| == |MembersText(members, true, doubles)| + 2
    ensures members == [] ==> MembersText(members, true, doubles) == ""
    ensures Layout(Obj(members), pos, doubles) == Object(MembersLayout(members, pos + 1, doubles))
    ensures Canonical(Obj(members)) == Obj(Gathered([], members))
  {
    hide MembersLayout, Gathered;
  }

  lemma {:induction false} WrittenObject(members: seq<Member>, doc: string, pos: nat, doubles: Doubles)
    requires Writable(Obj(members)) && Holds(doc, pos, Text(Obj(members), doubles))
    ensures Means(doc, pos, pos + |Text(Obj(members), doubles)|, Layout(Obj(members), pos, doubles), doubles,
                  Canonical(Obj(members)))
    decreases members, 4
  {
    var body := MembersText(members, true, doubles);
    var entries, end := MembersLayout(members, pos + 1, doubles), pos + |body| + 2;
    ObjectParts(members, pos, doubles);
    hide Text, MembersText, Holds, Writable, Layout, Canonical, Means;
    hide IsEntries, DenotedMembers, MembersLayout, Gathered;
    Bracketed(doc, pos, '{', body, '}');
    if members == [] {
      EmptyObjectMeans(doc, pos, doubles);
    } else {
      WrittenMembers([], members, doc, pos + 1, doubles);
      EntriesMean(doc, pos, end, entries, Gathered([], members), doubles);
    }
  }

  lemma {:induction false} WrittenMember(m: Member, doc: string, pos: nat, doubles: Doubles)
    requires Writable(m.value)
    requires var colon := pos + |QuotedString.Quoted(m.key)|;
             Holds(doc, pos, QuotedString.Quoted(m.key)) && At(doc, colon, ':') && Holds(doc, colon + 1, Text(m.value, doubles))
    ensures var entry := MemberLayout(m, pos, doubles);
            IsEntry(doc, pos, entry, doubles) && DenotedEntry(doc, pos, entry, doubles) == CanonicalMember(m)
    decreases m, 2
  {
    hide Text, Layout, Writable, IsSlot, DenotedSlot, Canonical, IsString, StringMeaning, QuotedString.Quoted;
    QuotedIsString(m.key);
    WrittenSlot(m.value, doc, pos + |QuotedString.Quoted(m.key)| + 1, doubles);
  }

  lemma {:induction false} WrittenMembers(done: seq<Member>, members: seq<Member>, doc: string, pos: nat, doubles: Doubles)
    requires members != [] && Writable(Obj(members))
    requires Holds(doc, pos, MembersText(members, true, doubles)) && At(doc, pos + |MembersText(members, true, doubles)|, '}')
    ensures var entries, end := MembersLayout(members, pos, doubles), pos + |MembersText(members, true, doubles)| + 1;
            && entries != [] && IsEntries(doc, pos, end, entries, doubles)
            && DenotedMembers(doc, pos, end, entries, done, doubles) == Gathered(done, members)
    decreases members, 3
  {
    hide Text, MembersText, Holds, Layout, Writable, IsEntry, DenotedEntry, CanonicalMember, Sorted, Before, Put;
    hide QuotedString.Quoted;
    var entries, m, others := MembersLayout(members, pos, doubles), members[0], members[1..];
    WritableParts(members);
    MembersLayOut(members, doc, pos, doubles);
    WrittenMember(m, doc, pos, doubles);
    assert entries[0] == MemberLayout(m, pos, doubles);
    assert entries[1..] == MembersLayout(others, entries[0].slot.after + 1, doubles);
    if others != [] {
      var next := CanonicalMember(m);
      WrittenMembers(Put(done, next.key, next.value), others, doc, entries[0].slot.after + 1, doubles);
    }
  }

  lemma LaterMembers(members: seq<Member>, doubles: Doubles)
    requires members != []
    ensures MembersText(members, false, doubles) == "," + MembersText(members, true, doubles)
  {
    var m, rest := MemberText(members[0], doubles), MembersText(members[1..], false, doubles);
    assert "" + m + rest == m + rest;
    assert "," + (m + rest) == "," + m + rest;
  }

  lemma MembersLayOut(members: seq<Member>, doc: string, pos: nat, doubles: Doubles)
    requires members != [] && Holds(doc, pos, MembersText(members, true, doubles))
    requires At(doc, pos + |MembersText(members, true, doubles)|, '}')
    ensures var m, others := members[0], members[1..];
            var colon := pos + |QuotedString.Quoted(m.key)|;
            var after := colon + 1 + |Text(m.value, doubles)|;
            && Holds(doc, pos, QuotedString.Quoted(m.key)) && At(doc, colon, ':')
            && Holds(doc, colon + 1, Text(m.value, doubles))
            && (others == [] ==> At(doc, after, '}') && pos + |MembersText(members, true, doubles)| == after)
            && (others != [] ==>
                  && At(doc, after, ',') && Holds(doc, after + 1, MembersText(others, true, doubles))
                  && pos + |MembersText(members, true, doubles)| == after + 1 + |MembersText(others, true, doubles)|)
  {
    hide Holds, Text, QuotedString.Quoted;
    var m, others := members[0], members[1..];
    var quoted, text, rest := QuotedString.Quoted(m.key), Text(m.value, doubles), MembersText(others, false, doubles);
    assert MembersText(members, true, doubles) == quoted + ":" + text + rest;
    MemberLayOut(quoted, text, rest, doc, pos);
    if others != [] {
      var tail := MembersText(others, true, doubles);
      LaterMembers(others, doubles);
      HoldsAt(doc, pos + |quoted| + 1 + |text|, rest, 0);
      HoldsParts(doc, pos + |quoted| + 1 + |text|, ",", tail);
    }
  }

  lemma MemberLayOut(quoted: string, text: string, rest: string, doc: string, pos: nat)
    requires Holds(doc, pos, quoted + ":" + text + rest)
    ensures Holds(doc, pos, quoted) && At(doc, pos + |quoted|, ':')
    ensures Holds(doc, pos + |quoted| + 1, text) && Holds(doc, pos + |quoted| + 1 + |text|, rest)
  {
    HoldsParts(doc, pos, quoted + ":" + text, rest);
    HoldsParts(doc, pos, quoted + ":", text);
    HoldsParts(doc, pos, quoted, ":");
    HoldsAt(doc, pos + |quoted|, ":", 0);
  }

  // ---------- The theorem ----------

  /** For every writable value and whatever bytes follow its document, the document starts with a text of RFC 8259, and
      the reader accepts it exactly when the value is nested within the stack limit, and then yields the value itself up
      to tags and repair. */
  lemma DocumentReadsBack(v: Json, trailing: string, root: Json, doubles: Doubles)
    requires Writable(v)
    ensures var doc := Document(v, doubles) + trailing;
            && StartsWithText(doc, 0, |Text(v, doubles)|, Layout(v, 0, doubles), doubles)
            && Parse(doc, root, doubles)
            == if Depth(v) > STACK_LIMIT then Threw else Parsed(Canonical(v), |Text(v, doubles)|, None)
  {
    hide Parse, Text, Depth, Canonical, Layout, IsText, Denoted;
    var text, doc := Text(v, doubles), Document(v, doubles) + trailing;
    assert doc[..|text|] == text && doc[|text|] == '\n';
    WrittenIsText(v, doc, 0, |text|, doubles);
    LayoutDepth(v, 0, doubles);
    JsonTextIsAccepted(doc, 0, |text|, Layout(v, 0, doubles), root, doubles);
  }

  // ---------- Keys that are valid UTF-8 ----------

  predicate KeysPrecede(done: seq<Member>, members: seq<Member>) {
    forall i, j :: 0 <= i < |done| && 0 <= j < |members| ==> Before(done[i].key, members[j].key)
  }

  predicate KeysAreUtf8(members: seq<Member>) {
    forall i :: 0 <= i < |members| ==> Utf8.IsUtf8(members[i].key)
  }

  function CanonicalMembers(members: seq<Member>): (after: seq<Member>)
    ensures |after| == |members|
  {
    seq(|members|, i requires 0 <= i < |members| => CanonicalMember(members[i]))
  }

  /** Members under valid keys stay apart, and in order. */
  lemma {:induction false} GatheredInOrder(done: seq<Member>, members: seq<Member>)
    requires Sorted(members) && KeysPrecede(done, members) && KeysAreUtf8(members)
    ensures Gathered(done, members) == done + CanonicalMembers(members)
    decreases members
  {
    hide Canonical, Before, Put, Utf8.IsUtf8, Utf8.Repaired;
    if members != [] {
      var m := members[0];
      Utf8.RepairedIsUtf8(m.key);
      PutLast(done, m.key, Canonical(m.value));
      hide KeysPrecede, Sorted;
      GatheredInOrder(done + [CanonicalMember(m)], members[1..]);
      assert CanonicalMembers(members) == [CanonicalMember(m)] + CanonicalMembers(members[1..]);
    }
  }

  // ---------- Control characters ----------

  predicate Printable(s: string) {
    forall i :: 0 <= i < |s| ==> s[i] >= ' '
  }

  lemma HexIsPrintable(x: int)
    requires 0 <= x < 0x10000
    ensures Printable(QuotedString.Hex(x))
  {
  }

  lemma {:induction false} ScalarsArePrintable(cps: seq<Utf8.Scalar>)
    ensures Printable(QuotedString.EscapedScalars(cps))
  {
    if cps != [] {
      var cp: int := cps[0];
      if cp >= 0x10000 {
        var extended := cp - 0x10000;
        HexIsPrintable(0xd800 + extended / 0x400 % 0x400);
        HexIsPrintable(0xdc00 + extended % 0x400);
      } else {
        HexIsPrintable(cp);
      }
      hide QuotedString.Hex;
      ScalarsArePrintable(cps[1..]);
    }
  }

  lemma QuotedIsPrintable(s: string)
    ensures Printable(QuotedString.Quoted(s))
  {
    QuotedString.EscapedByPoints(s);
    ScalarsArePrintable(Utf8.Points(s));
    hide QuotedString.Escaped, QuotedString.EscapedScalars;
  }

  lemma {:induction false} DigitsArePrintable(s: string)
    requires DecimalText.AllDigits(s)
    ensures Printable(s) && Printable("-" + s)
  {
    forall i | 0 <= i < |s| ensures s[i] >= ' ' {
      assert DecimalText.IsDigit(s[i]);
    }
  }

  /** Whatever bytes a value holds, its text has no control characters, and so no early end. */
  lemma {:induction false} TextIsPrintable(v: Json, doubles: Doubles)
    requires Writable(v)
    ensures Printable(Text(v, doubles))
    decreases v, 0
  {
    hide QuotedString.Quoted, DecimalText.Digits;
    match v
    case Int(i) => DigitsArePrintable(DecimalText.Digits(if i < 0 then -i else i));
    case UInt(u) => DigitsArePrintable(DecimalText.Digits(u));
    case Str(s) => QuotedIsPrintable(s);
    case Arr(items) => ItemsArePrintable(items, true, doubles);
    case Obj(members) => MembersArePrintable(members, true, doubles);
    case _ =>
  }

  lemma {:induction false} ItemsArePrintable(items: seq<Json>, first: bool, doubles: Doubles)
    requires forall item <- items :: Writable(item)
    ensures Printable(ItemsText(items, first, doubles))
    decreases items, 1
  {
    hide Text;
    if items != [] {
      TextIsPrintable(items[0], doubles);
      ItemsArePrintable(items[1..], false, doubles);
    }
  }

  lemma {:induction false} MembersArePrintable(members: seq<Member>, first: bool, doubles: Doubles)
    requires forall m <- members :: Writable(m.value)
    ensures Printable(MembersText(members, first, doubles))
    decreases members, 1
  {
    hide Text, QuotedString.Quoted;
    if members != [] {
      assert members[0] in members;
      QuotedIsPrintable(members[0].key);
      TextIsPrintable(members[0].value, doubles);
      MembersArePrintable(members[1..], false, doubles);
    }
  }
}
