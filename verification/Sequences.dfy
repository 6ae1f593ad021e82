/** Sequences put together from pieces. */
module Sequences {

  /** The pieces that the elements of a sequence give rise to, in order. */
  function Flat<A, B>(xs: seq<A>, f: A -> seq<B>): seq<B> {
    if xs == [] then [] else Flat(xs[..|xs| - 1], f) + f(xs[|xs| - 1])
  }

  lemma FlatOne<A, B>(x: A, f: A -> seq<B>)
    ensures Flat([x], f) == f(x)
  {
    assert [x][..0] == [];
  }

  lemma {:induction false} FlatAppend<A, B>(xs: seq<A>, ys: seq<A>, f: A -> seq<B>)
    ensures Flat(xs + ys, f) == Flat(xs, f) + Flat(ys, f)
  {
    if ys == [] {
      assert xs + ys == xs;
    } else {
      var front, last := ys[..|ys| - 1], ys[|ys| - 1];
      assert (xs + ys)[..|xs + ys| - 1] == xs + front;
      FlatAppend(xs, front, f);
    }
  }

  lemma {:induction false} FlatHas<A, B>(xs: seq<A>, f: A -> seq<B>, i: nat)
    requires i < |xs| && f(xs[i]) != []
    ensures Flat(xs, f) != []
  {
    if i < |xs| - 1 {
      FlatHas(xs[..|xs| - 1], f, i);
    }
  }
}
