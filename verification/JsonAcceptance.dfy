/** Every text of RFC 8259 is a text of the reader's language, and so the reader accepts it, with the value denoted, if it
    is nested within the limit. */
module JsonAcceptance {
  import opened Options
  import opened JsonScanner
  import opened JsonValue
  import opened JsonParser
  import opened JsonGrammar
  import opened LenientGrammar
  import opened LenientAcceptance
  import DecimalText
  import QuotedString
  import Utf8

  // ---------- Strings ----------

  lemma LowHalf(low: int)
    requires IsLow(low)
    ensures low % 0x400 == low - 0xDC00
  {
  }

  lemma CharIsLoose(s: string)
    requires s != "" && CharLength(s) > 0
    ensures LooseLength(s) == CharLength(s) && LooseMeaning(s) == CharMeaning(s)
  {
    hide HexNumber, HexAt, Utf8.CodePointToUtf8;
    if CharLength(s) == 12 {
      LowHalf(HexNumber(s, 8));
    }
  }

  lemma {:induction false} CharsAreLoose(s: string)
    requires IsChars(s)
    ensures IsLooseChars(s) && LooseCharsMeaning(s) == CharsMeaning(s)
  {
    if s != "" {
      CharIsLoose(s);
      CharsAreLoose(s[CharLength(s)..]);
      hide CharLength, LooseLength, CharMeaning, LooseMeaning;
    }
  }

  /** The decoder accepts every string of the grammar, with its meaning. */
  lemma CharsAreRead(s: string)
    requires IsChars(s)
    ensures QuotedString.Contents(s) == QuotedString.Decoded(CharsMeaning(s))
  {
    CharsAreLoose(s);
    LooseCharsAreRead(s);
    hide *;
  }

  lemma StringIsLoose(doc: string, start: nat, end: nat)
    requires start <= end <= |doc| && IsString(doc[start..end])
    ensures IsLooseString(doc, start, end) && LooseStringMeaning(doc, start, end) == StringMeaning(doc[start..end])
  {
    var text := doc[start..end];
    Slice(doc, start, end, 1, |text| - 1);
    assert doc[end - 1] == text[|text| - 1] && doc[start] == text[0];
    hide IsChars, IsLooseChars, CharsMeaning, LooseCharsMeaning;
    CharsAreLoose(doc[start + 1..end - 1]);
  }

  // ---------- Numbers ----------

  lemma NumberParts(doc: string, start: nat, end: nat, d: nat, f: nat)
    requires start < end <= |doc| && IsNumberWith(doc[start..end], d, f)
    ensures 1 <= d <= f <= end - start && DecimalText.AllDigits(doc[start + 1..start + d])
    ensures IsFraction(doc[start + d..start + f]) && IsExponent(doc[start + f..end])
    ensures DecimalText.IsDigit(doc[start]) || doc[start] == '-'
  {
    var s := doc[start..end];
    var i := if s[0] == '-' then 1 else 0;
    assert s[0] == doc[start];
    assert DecimalText.IsDigit(s[i..d][0]);
    Slice(doc, start, end, d, f);
    Slice(doc, start, end, f, |s|);
    Slice(doc, start, end, 1, d);
    Slice(s, i, d, 1 - i, d - i);
    hide IsFraction, IsExponent;
    assert s[f..|s|] == s[f..];
  }

  /** A fraction is absent, or a point and digits. */
  predicate FractionAt(doc: string, d: nat, f: nat) {
    d < f <= |doc| ==> doc[d] == '.' && d + 1 < f && DecimalText.AllDigits(doc[d + 1..f])
  }

  lemma FractionParts(doc: string, d: nat, f: nat)
    requires d <= f <= |doc| && IsFraction(doc[d..f])
    ensures FractionAt(doc, d, f)
  {
    if d < f {
      assert doc[d..f][0] == doc[d] && doc[d..f][1..] == doc[d + 1..f];
    }
  }

  /** An exponent is absent, or a letter, perhaps a sign, and digits. */
  predicate ExponentAt(doc: string, f: nat, end: nat) {
    f < end <= |doc| ==>
      && (doc[f] == 'e' || doc[f] == 'E')
      && var g := if At(doc, f + 1, '+') || At(doc, f + 1, '-') then f + 2 else f + 1;
         g < end && DecimalText.AllDigits(doc[g..end])
  }

  lemma ExponentParts(doc: string, f: nat, end: nat)
    requires f <= end <= |doc| && IsExponent(doc[f..end])
    ensures ExponentAt(doc, f, end)
  {
    var s := doc[f..end];
    if f < end {
      var k := if |s| > 1 && (s[1] == '+' || s[1] == '-') then 2 else 1;
      assert s[k..] == doc[f + k..end] && s[0] == doc[f];
      assert DecimalText.IsDigit(s[k..][0]) && s[k..][0] == doc[f + k];
      assert |s| > 1 ==> s[1] == doc[f + 1];
    }
  }

  lemma NumberOfParts(doc: string, a: nat, b: nat, d: nat, f: nat)
    requires a < d <= f <= b <= |doc| && (DecimalText.IsDigit(doc[a]) || doc[a] == '-') && Delimited(doc, b)
    requires DecimalText.AllDigits(doc[a + 1..d])
    requires FractionAt(doc, d, f) && ExponentAt(doc, f, b)
    ensures IsLooseNumber(doc, a, b, d, f)
  {
    hide DecimalText.AllDigits;
  }

  lemma NumberIsLoose(doc: string, start: nat, end: nat)
    requires start < end <= |doc| && IsNumber(doc[start..end]) && Delimited(doc, end)
    ensures IsNumberToken(doc, start, end)
  {
    var d: nat, f: nat :| IsNumberWith(doc[start..end], d, f);
    hide IsLooseNumber, IsNumberWith;
    NumberWithIsLoose(doc, start, end, d, f);
  }

  lemma NumberWithIsLoose(doc: string, start: nat, end: nat, d: nat, f: nat)
    requires start < end <= |doc| && IsNumberWith(doc[start..end], d, f) && Delimited(doc, end)
    ensures IsLooseNumber(doc, start, end, start + d, start + f)
  {
    hide IsLooseNumber, FractionAt, ExponentAt, Delimited, IsNumberWith, DecimalText.AllDigits, IsFraction, IsExponent;
    NumberParts(doc, start, end, d, f);
    FractionParts(doc, start + d, start + f);
    ExponentParts(doc, start + f, end);
    NumberOfParts(doc, start, end, start + d, start + f);
  }

  lemma NumberToken(doc: string, start: nat, end: nat)
    requires start < end <= |doc| && IsNumber(doc[start..end]) && Delimited(doc, end)
    ensures TokenAt(doc, start) == Token(TokenKind.Number, start, end)
  {
    NumberIsLoose(doc, start, end);
    LooseNumberToken(doc, start, end);
    hide *;
  }

  // ---------- Values ----------

  /** The same text, as one of the reader's language. */
  function LooseOf(t: Tree): Loose
    decreases t
  {
    match t
    case Word(v) => LooseWord(v)
    case Number => LooseNumber
    case String => LooseString
    case Array(items) => LooseArray(ItemsOf(items))
    case Object(entries) => LooseObject(PairsOf(entries))
  }

  function ItemOf(slot: Slot): Item
    decreases slot
  {
    Item(slot.start, slot.end, LooseOf(slot.tree), slot.after)
  }

  function ItemsOf(slots: seq<Slot>): (items: seq<Item>)
    ensures |items| == |slots|
    decreases slots
  {
    if slots == [] then [] else [ItemOf(slots[0])] + ItemsOf(slots[1..])
  }

  function PairOf(entry: Entry): Pair
    decreases entry
  {
    Pair(entry.name, entry.nameEnd, entry.colon, ItemOf(entry.slot), entry.slot.after + 1)
  }

  function PairsOf(entries: seq<Entry>): (pairs: seq<Pair>)
    ensures |pairs| == |entries|
    decreases entries
  {
    if entries == [] then [] else [PairOf(entries[0])] + PairsOf(entries[1..])
  }

  lemma {:induction false} SpacesAreGap(doc: string, a: nat, b: nat)
    requires Spaces(doc, a, b)
    ensures Gap(doc, a, b)
    decreases b - a
  {
    if a < b {
      SpacesAreGap(doc, a + 1, b);
    }
  }

  /** The text stands as one of the language too, denotes the same, and is as deep. */
  ghost predicate IsLooseToo(doc: string, start: nat, end: nat, t: Tree, doubles: Doubles)
    requires IsText(doc, start, end, t, doubles)
  {
    && IsLoose(doc, start, end, LooseOf(t), doubles)
    && LooseDenoted(doc, start, end, LooseOf(t), doubles) == Denoted(doc, start, end, t, doubles)
    && LooseDepth(LooseOf(t)) == TreeDepth(t)
  }

  /** What follows a value inside an array or object ends a number. */
  lemma SlotIsDelimited(doc: string, pos: nat, slot: Slot, doubles: Doubles)
    requires IsSlot(doc, pos, slot, doubles)
    requires At(doc, slot.after, ',') || At(doc, slot.after, ']') || At(doc, slot.after, '}')
    ensures Delimited(doc, slot.end)
  {
    assert slot.end < slot.after ==> IsSpace(doc[slot.end]);
  }

  lemma ScalarIsLoose(doc: string, start: nat, end: nat, t: Tree, doubles: Doubles)
    requires IsText(doc, start, end, t, doubles) && !t.Array? && !t.Object? && (t.Number? ==> Delimited(doc, end))
    ensures IsLooseToo(doc, start, end, t, doubles)
  {
    hide IsNumber, IsNumberToken, NumberValue, IsString, StringMeaning, IsLooseString, LooseStringMeaning;
    if t.Number? {
      NumberIsLoose(doc, start, end);
    } else if t.String? {
      StringIsLoose(doc, start, end);
    }
  }

  lemma {:induction false} TextIsLoose(doc: string, start: nat, end: nat, t: Tree, doubles: Doubles)
    requires IsText(doc, start, end, t, doubles) && (t.Number? ==> Delimited(doc, end))
    ensures IsLooseToo(doc, start, end, t, doubles)
    decreases t, 0
  {
    if t.Array? {
      ArrayIsLoose(doc, start, end, t.items, doubles);
    } else if t.Object? {
      ObjectIsLoose(doc, start, end, t.entries, doubles);
    } else {
      ScalarIsLoose(doc, start, end, t, doubles);
    }
  }

  lemma {:induction false} SlotIsLoose(doc: string, pos: nat, slot: Slot, doubles: Doubles)
    requires IsSlot(doc, pos, slot, doubles)
    requires At(doc, slot.after, ',') || At(doc, slot.after, ']') || At(doc, slot.after, '}')
    ensures var item := ItemOf(slot);
            && IsItem(doc, pos, item, doubles) && Gap(doc, item.end, item.after) && ItemDeep(item) == SlotDepth(slot)
            && ItemDenoted(doc, pos, item, doubles) == DenotedSlot(doc, pos, slot, doubles)
    decreases slot, 1
  {
    SpacesAreGap(doc, pos, slot.start);
    SpacesAreGap(doc, slot.end, slot.after);
    SlotIsDelimited(doc, pos, slot, doubles);
    TextIsLoose(doc, slot.start, slot.end, slot.tree, doubles);
    hide IsText, IsLoose, Denoted, LooseDenoted, LooseDepth, TreeDepth, Gap, Spaces, Delimited, LooseOf;
  }

  /** The items stand as items of the language too, denote the same, and are as deep; the bracket closes them. */
  ghost predicate AreLooseToo(doc: string, pos: nat, end: nat, slots: seq<Slot>, items: seq<Item>, doubles: Doubles)
    requires slots != [] && IsItems(doc, pos, end, slots, doubles)
  {
    && items != [] && AreItems(doc, pos, end, items, doubles) && ItemsDeep(items) == SlotsDepth(slots)
    && ItemsDenoted(doc, pos, end, items, doubles) == DenotedItems(doc, pos, end, slots, doubles)
    && 0 < end <= |doc| && doc[end - 1] == ']'
  }

  /** One more item before the others. */
  lemma ItemsFrom(doc: string, pos: nat, end: nat, slot: Slot, others: seq<Slot>, item: Item, items: seq<Item>, doubles: Doubles)
    requires IsItems(doc, pos, end, [slot] + others, doubles)
    requires IsItem(doc, pos, item, doubles) && Gap(doc, item.end, item.after) && ItemDeep(item) == SlotDepth(slot)
    requires ItemDenoted(doc, pos, item, doubles) == DenotedSlot(doc, pos, slot, doubles) && item.after == slot.after
    requires |items| == |others|
    requires others != [] ==>
               IsItems(doc, slot.after + 1, end, others, doubles) && AreLooseToo(doc, slot.after + 1, end, others, items, doubles)
    ensures AreLooseToo(doc, pos, end, [slot] + others, [item] + items, doubles)
  {
    hide IsSlot, IsItem, ItemDenoted, DenotedSlot, ItemDeep, SlotDepth, Gap;
    assert ([slot] + others)[1..] == others && ([item] + items)[1..] == items;
    if others != [] {
      assert AreItems(doc, pos, end, [item] + items, doubles);
      assert ItemsDenoted(doc, pos, end, [item] + items, doubles)
          == [ItemDenoted(doc, pos, item, doubles)] + ItemsDenoted(doc, item.after + 1, end, items, doubles);
      assert DenotedItems(doc, pos, end, [slot] + others, doubles)
          == [DenotedSlot(doc, pos, slot, doubles)] + DenotedItems(doc, slot.after + 1, end, others, doubles);
      assert ItemsDeep([item] + items) == Max(ItemDeep(item), ItemsDeep(items));
      assert SlotsDepth([slot] + others) == Max(SlotDepth(slot), SlotsDepth(others));
    } else {
      assert ItemsDenoted(doc, pos, end, [item] + items, doubles) == [ItemDenoted(doc, pos, item, doubles)];
      assert DenotedItems(doc, pos, end, [slot] + others, doubles) == [DenotedSlot(doc, pos, slot, doubles)];
      assert ItemsDeep([item] + items) == SlotsDepth([slot] + others);
      assert At(doc, slot.after, ']') && end == slot.after + 1;
    }
  }

  lemma {:induction false} ItemsAreLoose(doc: string, pos: nat, end: nat, slots: seq<Slot>, doubles: Doubles)
    requires slots != [] && IsItems(doc, pos, end, slots, doubles)
    ensures AreLooseToo(doc, pos, end, slots, ItemsOf(slots), doubles)
    decreases slots, 2
  {
    FirstSlot(doc, pos, end, slots, doubles);
    FirstItem(slots);
    hide IsItems, AreLooseToo, ItemsOf;
    hide IsSlot, IsItem, ItemDenoted, DenotedSlot, ItemDeep, SlotDepth, Gap, ItemOf, Spaces;
    SlotIsLoose(doc, pos, slots[0], doubles);
    AfterOf(slots[0]);
    if |slots| > 1 {
      ItemsAreLoose(doc, slots[0].after + 1, end, slots[1..], doubles);
    }
    ItemsFrom(doc, pos, end, slots[0], slots[1..], ItemOf(slots[0]), ItemsOf(slots[1..]), doubles);
  }

  lemma FirstItem(slots: seq<Slot>)
    requires slots != []
    ensures slots == [slots[0]] + slots[1..] && ItemsOf(slots) == [ItemOf(slots[0])] + ItemsOf(slots[1..])
  {
  }

  lemma FirstSlot(doc: string, pos: nat, end: nat, slots: seq<Slot>, doubles: Doubles)
    requires slots != [] && IsItems(doc, pos, end, slots, doubles)
    ensures IsSlot(doc, pos, slots[0], doubles) && (At(doc, slots[0].after, ',') || At(doc, slots[0].after, ']'))
    ensures |slots| > 1 ==> IsItems(doc, slots[0].after + 1, end, slots[1..], doubles)
  {
    hide IsSlot;
  }

  lemma AfterOf(slot: Slot)
    ensures ItemOf(slot).after == slot.after && ItemOf(slot).end == slot.end
  {
  }

  lemma {:induction false} ArrayIsLoose(doc: string, start: nat, end: nat, slots: seq<Slot>, doubles: Doubles)
    requires IsText(doc, start, end, Array(slots), doubles)
    ensures IsLooseToo(doc, start, end, Array(slots), doubles)
    decreases slots, 3
  {
    hide AreItems, IsItems, ItemsDenoted, DenotedItems, ItemsDeep, SlotsDepth, ItemsOf;
    if slots == [] {
      NothingOf();
    } else {
      ItemsAreLoose(doc, start + 1, end, slots, doubles);
    }
  }

  lemma NothingOf()
    ensures ItemsOf([]) == [] && PairsOf([]) == [] && ItemsDeep([]) == 0 && SlotsDepth([]) == 0
    ensures PairsDeep([]) == 0 && EntriesDepth([]) == 0
  {
  }

  lemma {:induction false} EntryIsLoose(doc: string, pos: nat, entry: Entry, doubles: Doubles)
    requires IsEntry(doc, pos, entry, doubles)
    requires At(doc, entry.slot.after, ',') || At(doc, entry.slot.after, '}')
    ensures var pair := PairOf(entry);
            && IsPair(doc, pos, pair, doubles) && PairDeep(pair) == EntryDepth(entry)
            && PairDenoted(doc, pos, pair, doubles) == DenotedEntry(doc, pos, entry, doubles)
            && PairDenoted(doc, pos, pair, doubles).key == LooseStringMeaning(doc, pair.name, pair.nameEnd)
    decreases entry, 2
  {
    hide IsSlot, IsItem, Gap, Spaces, IsString, StringMeaning, IsLooseString, LooseStringMeaning, DenotedSlot, ItemDenoted;
    hide ItemDeep, SlotDepth, ItemOf;
    EntryParts(doc, pos, entry, doubles);
    SpacesAreGap(doc, pos, entry.name);
    StringIsLoose(doc, entry.name, entry.nameEnd);
    SlotIsLoose(doc, entry.colon + 1, entry.slot, doubles);
    hide Delimited;
  }

  lemma EntryParts(doc: string, pos: nat, entry: Entry, doubles: Doubles)
    requires IsEntry(doc, pos, entry, doubles)
    ensures Spaces(doc, pos, entry.name) && entry.name <= entry.nameEnd <= |doc|
    ensures IsString(doc[entry.name..entry.nameEnd]) && Spaces(doc, entry.nameEnd, entry.colon)
    ensures At(doc, entry.colon, ':') && IsSlot(doc, entry.colon + 1, entry.slot, doubles)
  {
    hide IsSlot, IsString, Spaces;
  }

  lemma {:induction false} PairsAreLoose(
      doc: string, pos: nat, end: nat, entries: seq<Entry>, name: string, done: seq<Member>, doubles: Doubles)
    requires entries != [] && IsEntries(doc, pos, end, entries, doubles)
    ensures var pairs := PairsOf(entries);
            && ArePairs(doc, pos, end, pairs, name, doubles) && PairsDeep(pairs) == EntriesDepth(entries)
            && PairsDenoted(doc, pos, end, pairs, name, done, doubles) == DenotedMembers(doc, pos, end, entries, done, doubles)
            && 0 < end <= |doc| && doc[end - 1] == '}'
    decreases entries, 2
  {
    hide IsEntry, IsPair, PairDenoted, DenotedEntry, PairDeep, EntryDepth, Gap, PairOf, Put, Spaces, CommentedGap, TokenAt;
    var entry, others := entries[0], entries[1..];
    EntryIsLoose(doc, pos, entry, doubles);
    PlacesOf(doc, pos, entry, doubles);
    var m := DenotedEntry(doc, pos, entry, doubles);
    assert PairsOf(entries)[0] == PairOf(entry) && PairsOf(entries)[1..] == PairsOf(others);
    if others != [] {
      PairsAreLoose(doc, entry.slot.after + 1, end, others, m.key, Put(done, m.key, m.value), doubles);
    } else {
      assert PairsOf(others) == [];
    }
  }

  lemma PlacesOf(doc: string, pos: nat, entry: Entry, doubles: Doubles)
    requires IsEntry(doc, pos, entry, doubles)
    ensures var pair := PairOf(entry);
            && pair.value.after == entry.slot.after && pair.next == entry.slot.after + 1
            && Spaces(doc, pair.value.end, pair.value.after)
  {
    hide IsText, LooseOf;
  }

  lemma {:induction false} ObjectIsLoose(doc: string, start: nat, end: nat, entries: seq<Entry>, doubles: Doubles)
    requires IsText(doc, start, end, Object(entries), doubles)
    ensures IsLooseToo(doc, start, end, Object(entries), doubles)
    decreases entries, 3
  {
    if entries == [] {
      EmptyObjectIsLoose(doc, start, end, doubles);
    } else {
      hide ArePairs, IsEntries, PairsDenoted, DenotedMembers, PairsDeep, EntriesDepth, PairsOf, Gap, Spaces;
      PairsAreLoose(doc, start + 1, end, entries, "", [], doubles);
      var pairs := PairsOf(entries);
      ObjectMeans(doc, start, end, pairs, PairsDenoted(doc, start + 1, end, pairs, "", [], doubles), doubles);
      hide IsLoose, LooseDenoted;
    }
  }

  lemma EmptyObjectIsLoose(doc: string, start: nat, end: nat, doubles: Doubles)
    requires IsText(doc, start, end, Object([]), doubles)
    ensures IsLooseToo(doc, start, end, Object([]), doubles)
  {
    NothingOf();
    SpacesAreGap(doc, start + 1, end - 1);
    hide Gap, Spaces, PairsOf, ItemsOf;
  }

  // ---------- The theorem ----------

  /** Every JSON text of RFC 8259, with any spaces and escapes, whatever follows it: the reader accepts it exactly when
      it is nested within the stack limit, and then yields the value it denotes. */
  lemma JsonTextIsAccepted(doc: string, start: nat, end: nat, t: Tree, root: Json, doubles: Doubles)
    requires StartsWithText(doc, start, end, t, doubles)
    ensures Parse(doc, root, doubles)
         == if TreeDepth(t) > STACK_LIMIT then Threw else Parsed(Denoted(doc, start, end, t, doubles), end, None)
  {
    TextIsLoose(doc, start, end, t, doubles);
    SpacesAreGap(doc, 0, start);
    hide Parse, Denoted, LooseDenoted, IsText, IsLoose, TreeDepth, LooseDepth, LooseOf, Gap, Spaces;
    LooseTextIsAccepted(doc, start, end, LooseOf(t), root, doubles);
  }
}
