/** JSON values as Json::Value stores them. */
module JsonValue {
  import opened Options

  /** A floating-point number, of which nothing is known. */
  datatype Double = Double(id: int)

  /** The floating-point routines of the C++ library that the codec calls. */
  datatype Doubles = Doubles(parse: string -> Option<Double>, show: Double -> string, truncate: Double -> Option<int>)

  /** An array is its items in index order, an object its members in key order. */
  datatype Json =
    | Null
    | Bool(b: bool)
    | Int(i: int)
    | UInt(u: int)
    | Real(d: Double)
    | Str(s: string)
    | Arr(items: seq<Json>)
    | Obj(members: seq<Member>)

  datatype Member = Member(key: string, value: Json)

  /** The key order of the member map: bytes compared up to the shorter length, then the lengths. */
  predicate Before(a: string, b: string) {
    if a == "" || b == "" then a == "" && b != ""
    else a[0] < b[0] || (a[0] == b[0] && Before(a[1..], b[1..]))
  }

  predicate Sorted(members: seq<Member>) {
    forall i, j :: 0 <= i < j < |members| ==> Before(members[i].key, members[j].key)
  }

  /** The member's value, null when it is absent. */
  function Lookup(members: seq<Member>, key: string): Json {
    if members == [] then Null
    else if members[0].key == key then members[0].value
    else Lookup(members[1..], key)
  }

  /** Sets a member, at its place in key order. */
  function Put(members: seq<Member>, key: string, value: Json): seq<Member> {
    if members == [] || Before(key, members[0].key) then [Member(key, value)] + members
    else if members[0].key == key then [Member(key, value)] + members[1..]
    else [members[0]] + Put(members[1..], key, value)
  }

  lemma {:induction false} BeforeIsStrictTotal(a: string, b: string)
    ensures !Before(a, a)
    ensures Before(a, b) ==> !Before(b, a) && a != b
    ensures a != b ==> Before(a, b) || Before(b, a)
    decreases |a|
  {
    if a != "" {
      BeforeIsStrictTotal(a[1..], a[1..]);
      if b != "" && a[0] == b[0] {
        BeforeIsStrictTotal(a[1..], b[1..]);
        assert a == [a[0]] + a[1..] && b == [b[0]] + b[1..];
      }
    }
  }

  lemma {:induction false} BeforeIsTransitive(a: string, b: string, c: string)
    requires Before(a, b) && Before(b, c)
    ensures Before(a, c)
  {
    if a != "" && a[0] == b[0] && b[0] == c[0] {
      BeforeIsTransitive(a[1..], b[1..], c[1..]);
    }
  }

  /** A key after all the others is absent, and goes to the end. */
  lemma {:induction false} PutLast(members: seq<Member>, key: string, value: Json)
    requires forall i :: 0 <= i < |members| ==> Before(members[i].key, key)
    ensures Lookup(members, key) == Null
    ensures Put(members, key, value) == members + [Member(key, value)]
  {
    if members != [] {
      BeforeIsStrictTotal(members[0].key, key);
      hide Before;
      var rest := members[1..];
      assert forall i :: 0 <= i < |rest| ==> rest[i] == members[i + 1];
      PutLast(rest, key, value);
      assert members == [members[0]] + rest;
    }
  }

  lemma {:induction false} PutSorted(members: seq<Member>, key: string, value: Json)
    requires Sorted(members)
    ensures Sorted(Put(members, key, value))
    ensures forall m <- Put(members, key, value) :: m in members || m == Member(key, value)
  {
    if members != [] {
      var first := members[0];
      if Before(key, first.key) {
        forall i | 0 <= i < |members| ensures Before(key, members[i].key) {
          if i > 0 { BeforeIsTransitive(key, first.key, members[i].key); }
        }
      } else if first.key != key {
        BeforeIsStrictTotal(first.key, key);
        PutSorted(members[1..], key, value);
        var rest := Put(members[1..], key, value);
        forall i | 0 <= i < |rest| ensures Before(first.key, rest[i].key) {
          assert rest[i] in rest;
        }
      }
    }
  }

  /** The member set has the value, and all others have the one they had. */
  lemma {:induction false} PutThenLookup(members: seq<Member>, key: string, value: Json, other: string)
    requires Sorted(members)
    ensures Lookup(Put(members, key, value), other) == if other == key then value else Lookup(members, other)
  {
    if members != [] {
      BeforeIsStrictTotal(members[0].key, key);
      PutThenLookup(members[1..], key, value, other);
      var put := Put(members, key, value);
      assert put != [] && (members[0].key != key && !Before(key, members[0].key) ==> put[1..] == Put(members[1..], key, value));
      assert Before(key, members[0].key) ==> put[1..] == members;
      assert members[0].key == key ==> put[1..] == members[1..];
    } else {
      assert Put(members, key, value)[1..] == [];
    }
  }

  function Max(a: nat, b: nat): nat {
    if a < b then b else a
  }
}
