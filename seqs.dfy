/** Order facts about lists that the screens filter. */
module Seqs {

  /** `xs` is `ys` with some elements left out, the rest in their order. */
  predicate IsSubsequence<T(==)>(xs: seq<T>, ys: seq<T>)
    decreases |ys|
  {
    || xs == []
    || (ys != [] && xs[0] == ys[0] && IsSubsequence(xs[1..], ys[1..]))
    || (ys != [] && IsSubsequence(xs, ys[1..]))
  }

  predicate NoDuplicates<T(==)>(xs: seq<T>) {
    forall i, j :: 0 <= i < j < |xs| ==> xs[i] != xs[j]
  }

  /** Where `x` first occurs in `xs`. */
  function FirstIndex<T(==)>(xs: seq<T>, x: T): (k: nat)
    requires x in xs
    ensures k < |xs| && xs[k] == x && x !in xs[..k]
    decreases |xs|
  {
    var n := |xs| - 1;
    if x in xs[..n] then
      var k := FirstIndex(xs[..n], x);
      assert xs[..n][..k] == xs[..k];
      k
    else
      assert xs == xs[..n] + [xs[n]];
      n
  }
}
