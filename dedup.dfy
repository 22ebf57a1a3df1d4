/**
  The list a seen-set loop builds: each value kept the first time it comes
  up, in the order values first come up.
 */
module Dedup {

  predicate NoDuplicates<T(==)>(r: seq<T>) {
    forall i, j :: 0 <= i < j < |r| ==> r[i] != r[j]
  }

  /** The values of `xs` without repeats, each at its first appearance. */
  function Distinct<T(==,!new)>(xs: seq<T>): (r: seq<T>)
    ensures forall x :: x in r <==> x in xs
    ensures NoDuplicates(r)
    decreases |xs|
  {
    if xs == [] then []
    else
      var d := Distinct(xs[..|xs| - 1]);
      if xs[|xs| - 1] in d then d else d + [xs[|xs| - 1]]
  }

  /** The index at which `x` first appears in `xs`. */
  function FirstIndex<T(==)>(xs: seq<T>, x: T): (i: nat)
    requires x in xs
    ensures i < |xs| && xs[i] == x
    ensures forall j :: 0 <= j < i ==> xs[j] != x
  {
    if xs[0] == x then 0 else 1 + FirstIndex(xs[1..], x)
  }

  lemma FirstIndexPrefix<T>(xs: seq<T>, n: nat, x: T)
    requires n <= |xs| && x in xs[..n]
    ensures FirstIndex(xs, x) == FirstIndex(xs[..n], x)
  {
    var i, k := FirstIndex(xs, x), FirstIndex(xs[..n], x);
    assert xs[k] == x;
    assert i <= k;
    assert xs[..n][i] == x;
  }

  lemma FirstIndexNew<T>(xs: seq<T>)
    requires xs != [] && xs[|xs| - 1] !in xs[..|xs| - 1]
    ensures FirstIndex(xs, xs[|xs| - 1]) == |xs| - 1
  {
    var n := |xs| - 1;
    assert forall j :: 0 <= j < n ==> xs[j] == xs[..n][j];
  }

  /** Earlier in the result means first seen earlier in the input. */
  lemma {:induction false} DistinctFirstSeenOrder<T(!new)>(xs: seq<T>)
    ensures forall i, j :: 0 <= i < j < |Distinct(xs)| ==>
      FirstIndex(xs, Distinct(xs)[i]) < FirstIndex(xs, Distinct(xs)[j])
    decreases |xs|
  {
    if xs != [] {
      var n := |xs| - 1;
      var ys := xs[..n];
      var d := Distinct(ys);
      var r := Distinct(xs);
      DistinctFirstSeenOrder(ys);
      assert r == if xs[n] in d then d else d + [xs[n]];
      forall i, j | 0 <= i < j < |r| ensures FirstIndex(xs, r[i]) < FirstIndex(xs, r[j]) {
        assert i < |d| && r[i] == d[i] && d[i] in ys;
        FirstIndexPrefix(xs, n, d[i]);
        if j < |d| {
          assert r[j] == d[j] && d[j] in ys;
          FirstIndexPrefix(xs, n, d[j]);
          assert FirstIndex(ys, d[i]) < FirstIndex(ys, d[j]);
        } else {
          assert r[j] == xs[n];
          FirstIndexNew(xs);
          assert FirstIndex(ys, d[i]) < n;
        }
      }
    }
  }

  /** A list with no repeats is its own deduplication. */
  lemma {:induction false} DistinctOfDistinct<T(!new)>(xs: seq<T>)
    requires NoDuplicates(xs)
    ensures Distinct(xs) == xs
    decreases |xs|
  {
    if xs != [] {
      var n := |xs| - 1;
      assert NoDuplicates(xs[..n]);
      DistinctOfDistinct(xs[..n]);
      assert xs[n] !in xs[..n];
      assert xs[..n] + [xs[n]] == xs;
    }
  }

  /** One more value: appended exactly when it has not been seen. */
  lemma DistinctSnoc<T(!new)>(xs: seq<T>, x: T)
    ensures Distinct(xs + [x]) == if x in Distinct(xs) then Distinct(xs) else Distinct(xs) + [x]
  {
    assert (xs + [x])[..|xs|] == xs;
  }
}
