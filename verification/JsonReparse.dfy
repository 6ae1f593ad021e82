/** Whatever document the reader accepts, writing the value down and reading it again is stable. */
module JsonReparse {
  import opened Options
  import opened JsonScanner
  import opened JsonValue
  import opened JsonWriter
  import opened JsonParser
  import opened JsonRoundTrip
  import DecimalText
  import QuotedString
  import Utf8

  /** The form of every value the reader builds: integers tagged by size, members strictly sorted by key. */
  predicate Stored(v: Json)
    decreases v
  {
    match v
    case Int(i) => DecimalText.MIN_LARGEST_INT <= i <= DecimalText.MAX_INT
    case UInt(u) => DecimalText.MAX_INT < u <= DecimalText.MAX_LARGEST_UINT
    case Arr(items) => forall item <- items :: Stored(item)
    case Obj(members) => Sorted(members) && forall m <- members :: Stored(m.value)
    case _ => true
  }

  predicate Accepted(r: Parsed) {
    r.Parsed? && r.error.None?
  }

  /** Well-formed, and nested no deeper than the stack allows from `depth` on. */
  predicate Fits(v: Json, depth: nat) {
    Stored(v) && depth + Depth(v) <= STACK_LIMIT + 1
  }

  lemma {:induction false} AppendedDepth(items: seq<Json>, v: Json)
    ensures ItemsDepth(items + [v]) == Max(ItemsDepth(items), Depth(v))
  {
    if items == [] {
      assert items + [v] == [v] && [v][1..] == [];
    } else {
      assert (items + [v])[1..] == items[1..] + [v];
      AppendedDepth(items[1..], v);
    }
  }

  lemma AppendedItemsFit(items: seq<Json>, v: Json, depth: nat)
    requires Fits(Arr(items), depth) && Fits(v, depth + 1)
    ensures Fits(Arr(items + [v]), depth)
  {
    AppendedDepth(items, v);
  }

  lemma {:induction false} PutDepth(members: seq<Member>, key: string, v: Json)
    ensures MembersDepth(Put(members, key, v)) <= Max(MembersDepth(members), Depth(v))
  {
    var m := Member(key, v);
    assert MemberDepth(m) == Depth(v);
    if members == [] || Before(key, members[0].key) {
      assert Put(members, key, v) == [m] + members && ([m] + members)[1..] == members;
    } else if members[0].key == key {
      assert ([m] + members[1..])[1..] == members[1..];
    } else {
      PutDepth(members[1..], key, v);
      assert Put(members, key, v)[1..] == Put(members[1..], key, v);
    }
  }

  lemma PutFits(members: seq<Member>, key: string, v: Json, depth: nat)
    requires Fits(Obj(members), depth) && Fits(v, depth + 1)
    ensures Fits(Obj(Put(members, key, v)), depth)
  {
    PutSorted(members, key, v);
    PutDepth(members, key, v);
  }

  lemma NumberFits(text: string, doubles: Doubles, depth: nat)
    requires text != "" && depth <= STACK_LIMIT
    ensures NumberValue(text, doubles).Some? ==> Fits(NumberValue(text, doubles).value, depth)
  {
  }

  lemma {:induction false} ValueFits(doc: string, pos: nat, depth: nat, current: Json, doubles: Doubles)
    requires pos <= |doc|
    requires Accepted(ParseValue(doc, pos, depth, current, doubles))
    ensures Fits(ParseValue(doc, pos, depth, current, doubles).value, depth)
    decreases |doc| - pos, 0
  {
    hide TokenAt, ParseItems, ParseMembers, NumberValue, Inside;
    var token := ValueToken(doc, pos);
    match token.kind
    case Number => NumberFits(TextOf(doc, token), doubles, depth);
    case ObjectBegin => MembersFit(doc, token.end, depth, [], "", doubles);
    case ArrayBegin =>
      var first := SkipSpaces(doc, token.end);
      if !At(doc, first, ']') {
        ItemsFit(doc, first, depth, [], doubles);
      }
    case _ =>
  }

  lemma {:induction false} ItemsFit(doc: string, pos: nat, depth: nat, items: seq<Json>, doubles: Doubles)
    requires pos <= |doc| && Fits(Arr(items), depth)
    requires Accepted(ParseItems(doc, pos, depth, items, doubles))
    ensures Fits(ParseItems(doc, pos, depth, items, doubles).value, depth)
    decreases |doc| - pos, 1
  {
    hide TokenAt, ParseValue, Fits;
    var r := ParseValue(doc, pos, depth + 1, Null, doubles);
    ValueFits(doc, pos, depth + 1, Null, doubles);
    AppendedItemsFit(items, r.value, depth);
    var token := ValueToken(doc, r.pos);
    if token.kind != ArrayEnd {
      ItemsFit(doc, token.end, depth, items + [r.value], doubles);
    }
  }

  lemma {:induction false} MembersFit(doc: string, pos: nat, depth: nat, members: seq<Member>, name: string, doubles: Doubles)
    requires pos <= |doc| && Fits(Obj(members), depth)
    requires Accepted(ParseMembers(doc, pos, depth, members, name, doubles))
    ensures Fits(ParseMembers(doc, pos, depth, members, name, doubles).value, depth)
    decreases |doc| - pos, 1
  {
    hide TokenAt, ParseValue, ParseAfterMember, Fits, Put, Lookup, Inside;
    var token := ValueToken(doc, pos);
    if !(token.kind == ObjectEnd && name == "") {
      var key := QuotedString.Contents(Inside(doc, token)).text;
      var colon := TokenAt(doc, token.end);
      var r := ParseValue(doc, colon.end, depth + 1, Lookup(members, key), doubles);
      ValueFits(doc, colon.end, depth + 1, Lookup(members, key), doubles);
      PutFits(members, key, r.value, depth);
      MembersAfterFit(doc, r.pos, depth, Put(members, key, r.value), key, doubles);
    }
  }

  lemma {:induction false} MembersAfterFit(doc: string, pos: nat, depth: nat, members: seq<Member>, key: string, doubles: Doubles)
    requires pos <= |doc| && Fits(Obj(members), depth)
    requires Accepted(ParseAfterMember(doc, pos, depth, members, key, doubles))
    ensures Fits(ParseAfterMember(doc, pos, depth, members, key, doubles).value, depth)
    decreases |doc| - pos, 0
  {
    hide TokenAt, ParseMembers, Fits;
    var comma := TokenAt(doc, pos);
    var last := if comma.kind == Comment then ValueToken(doc, comma.end) else comma;
    if last.kind != ObjectEnd {
      MembersFit(doc, last.end, depth, members, key, doubles);
    }
  }

  /** No floating point. */
  predicate Plain(v: Json)
    decreases v
  {
    match v
    case Real(_) => false
    case Arr(items) => forall item <- items :: Plain(item)
    case Obj(members) => forall m <- members :: Plain(m.value)
    case _ => true
  }

  /** Every string and key is valid UTF-8. */
  predicate AllUtf8(v: Json)
    decreases v
  {
    match v
    case Str(s) => Utf8.IsUtf8(s)
    case Arr(items) => forall item <- items :: AllUtf8(item)
    case Obj(members) => forall m <- members :: Utf8.IsUtf8(m.key) && AllUtf8(m.value)
    case _ => true
  }

  /** What needs no repair. */
  predicate Settled(v: Json) {
    Stored(v) && Plain(v) && AllUtf8(v)
  }

  lemma {:induction false} StoredIsWritable(v: Json)
    requires Stored(v) && Plain(v)
    ensures Writable(v)
    decreases v
  {
    match v
    case Arr(items) =>
      forall item | item in items ensures Writable(item) { StoredIsWritable(item); }
    case Obj(members) =>
      forall m | m in members ensures Writable(m.value) { StoredIsWritable(m.value); }
    case _ =>
  }

  // ---------- What is read back is settled ----------

  lemma {:induction false} CanonicalIsSettled(v: Json)
    requires Writable(v)
    ensures Settled(Canonical(v)) && Depth(Canonical(v)) <= Depth(v)
    decreases v, 0
  {
    match v
    case Str(s) => Utf8.RepairedIsUtf8(s);
    case Arr(items) => ItemsAreSettled(items);
    case Obj(members) =>
      GatheredIsSettled([], members);
      hide Gathered;
    case _ =>
  }

  lemma {:induction false} ItemsAreSettled(items: seq<Json>)
    requires forall item <- items :: Writable(item)
    ensures Settled(Arr(CanonicalItems(items))) && ItemsDepth(CanonicalItems(items)) <= ItemsDepth(items)
    decreases items, 1
  {
    if items != [] {
      CanonicalIsSettled(items[0]);
      ItemsAreSettled(items[1..]);
    }
  }

  lemma {:induction false} GatheredIsSettled(done: seq<Member>, members: seq<Member>)
    requires Settled(Obj(done)) && forall m <- members :: Writable(m.value)
    ensures Settled(Obj(Gathered(done, members)))
    ensures MembersDepth(Gathered(done, members)) <= Max(MembersDepth(done), MembersDepth(members))
    decreases members, 1
  {
    hide Canonical, Depth, Settled;
    if members != [] {
      var m := members[0];
      assert m in members && MemberDepth(m) == Depth(m.value);
      CanonicalIsSettled(m.value);
      Utf8.RepairedIsUtf8(m.key);
      PutSettled(done, Utf8.Repaired(m.key), Canonical(m.value));
      PutDepth(done, Utf8.Repaired(m.key), Canonical(m.value));
      GatheredIsSettled(Put(done, Utf8.Repaired(m.key), Canonical(m.value)), members[1..]);
    }
  }

  lemma PutSettled(members: seq<Member>, key: string, v: Json)
    requires Settled(Obj(members)) && Utf8.IsUtf8(key) && Settled(v)
    ensures Settled(Obj(Put(members, key, v)))
  {
    hide Put, Before, Utf8.IsUtf8, Sorted;
    PutSorted(members, key, v);
  }

  // ---------- What is settled is read back as it is ----------

  lemma {:induction false} SettledIsCanonical(v: Json)
    requires Settled(v)
    ensures Canonical(v) == v
    decreases v, 0
  {
    match v
    case Str(s) => Utf8.RepairedIsUtf8(s);
    case Arr(items) => SettledItems(items);
    case Obj(members) => SettledMembers(members);
    case _ =>
  }

  lemma {:induction false} SettledItems(items: seq<Json>)
    requires Settled(Arr(items))
    ensures CanonicalItems(items) == items
    decreases items, 1
  {
    if items != [] {
      SettledIsCanonical(items[0]);
      SettledItems(items[1..]);
      assert items == [items[0]] + items[1..];
    }
  }

  lemma {:induction false} SettledMembers(members: seq<Member>)
    requires Settled(Obj(members))
    ensures Gathered([], members) == members
    decreases members, 1
  {
    hide Canonical, Utf8.IsUtf8, Utf8.Repaired;
    forall i | 0 <= i < |members| ensures Utf8.IsUtf8(members[i].key) && CanonicalMember(members[i]) == members[i] {
      assert members[i] in members;
      SettledIsCanonical(members[i].value);
      Utf8.RepairedIsUtf8(members[i].key);
    }
    GatheredInOrder([], members);
    assert CanonicalMembers(members) == members;
  }

  /** Any accepted document without floating point: its value, written down and followed by any bytes, is accepted again,
      unchanged exactly if its strings and keys are valid UTF-8; and what is read then is read the same for ever after. */
  lemma AcceptedDocumentIsStable(
      doc: string, root: Json, trailing: string, root': Json, trailing': string, root'': Json, doubles: Doubles)
    requires Accepted(Parse(doc, root, doubles))
    requires Plain(Parse(doc, root, doubles).value)
    ensures var v := Parse(doc, root, doubles).value;
            var w := Canonical(v);
            && Parse(Document(v, doubles) + trailing, root', doubles) == Parsed(w, |Text(v, doubles)|, None)
            && (w == v <==> AllUtf8(v))
            && Parse(Document(w, doubles) + trailing', root'', doubles) == Parsed(w, |Text(w, doubles)|, None)
  {
    var v := Parse(doc, root, doubles).value;
    ValueFits(doc, 0, 1, root, doubles);
    hide Parse;
    StoredIsWritable(v);
    var w := Canonical(v);
    CanonicalIsSettled(v);
    if AllUtf8(v) {
      SettledIsCanonical(v);
    }
    SettledIsCanonical(w);
    StoredIsWritable(w);
    hide Canonical, Depth, Text, Stored, Plain, AllUtf8, Writable;
    DocumentReadsBack(v, trailing, root', doubles);
    DocumentReadsBack(w, trailing', root'', doubles);
  }
}
