/** Order-preserving removal of duplicates: the "option history" lists built
    for the location and target fields of the occurrence form. */
module Distinct {

  /** No element occurs twice. */
  predicate NoDup<T(==)>(xs: seq<T>)
  {
    forall i, j :: 0 <= i < j < |xs| ==> xs[i] != xs[j]
  }

  /** Index of the first occurrence of `x` in `xs`. */
  function FirstIndex<T(==)>(xs: seq<T>, x: T): (k: nat)
    requires x in xs
    ensures k < |xs| && xs[k] == x
    ensures forall j :: 0 <= j < k ==> xs[j] != x
  {
    if xs[0] == x then 0 else 1 + FirstIndex(xs[1..], x)
  }

  /** The list `get_location_options` builds: scan the input left to right and append
      every element not yet in the result. Defined on the last element so
      that it follows the scan one step at a time. */
  function Dedup<T(==)>(xs: seq<T>): (r: seq<T>)
    ensures NoDup(r)
    ensures forall i :: 0 <= i < |xs| ==> xs[i] in r
    ensures forall i :: 0 <= i < |r| ==> r[i] in xs
    ensures |r| <= |xs|
  {
    if |xs| == 0 then []
    else
      var d := Dedup(xs[..|xs| - 1]);
      var last := xs[|xs| - 1];
      assert forall i :: 0 <= i < |xs| - 1 ==> xs[i] == xs[..|xs| - 1][i];
      if last in d then d else d + [last]
  }

  /** The first occurrence of an element that is already in a prefix lies
      inside that prefix. */
  lemma {:induction false} FirstIndexInPrefix<T>(xs: seq<T>, m: nat, x: T)
    requires m <= |xs| && x in xs[..m]
    ensures FirstIndex(xs, x) == FirstIndex(xs[..m], x) < m
  {
    if xs[0] != x {
      assert xs[1..][..m - 1] == xs[..m][1..];
      FirstIndexInPrefix(xs[1..], m - 1, x);
    }
  }

  /** The deduplicated list is ordered by first occurrence in the input. */
  lemma DedupFirstOccurrenceOrder<T>(xs: seq<T>)
    ensures forall i, j :: 0 <= i < j < |Dedup(xs)| ==>
      FirstIndex(xs, Dedup(xs)[i]) < FirstIndex(xs, Dedup(xs)[j])
  {
    forall i, j | 0 <= i < j < |Dedup(xs)|
      ensures FirstIndex(xs, Dedup(xs)[i]) < FirstIndex(xs, Dedup(xs)[j])
    {
      DedupOrderPair(xs, i, j);
    }
  }

  /** One pair of the deduplicated list, by induction on the scan. */
  lemma {:induction false} DedupOrderPair<T>(xs: seq<T>, i: nat, j: nat)
    requires i < j < |Dedup(xs)|
    ensures FirstIndex(xs, Dedup(xs)[i]) < FirstIndex(xs, Dedup(xs)[j])
  {
    var n := |xs| - 1;
    var init := xs[..n];
    var d := Dedup(init);
    var r := Dedup(xs);
    assert r == if xs[n] in d then d else d + [xs[n]];
    assert r[i] == d[i];
    FirstIndexInPrefix(xs, n, d[i]);
    if j < |d| {
      assert r[j] == d[j];
      DedupOrderPair(init, i, j);
      FirstIndexInPrefix(xs, n, d[j]);
    } else {
      assert r[j] == xs[n] && xs[n] !in d;
      assert forall k :: 0 <= k < n ==> init[k] in d;
      LastFirstIndex(xs);
    }
  }

  /** An element that first shows up at the end has the last index. */
  lemma LastFirstIndex<T>(xs: seq<T>)
    requires |xs| > 0 && xs[|xs| - 1] !in xs[..|xs| - 1]
    ensures FirstIndex(xs, xs[|xs| - 1]) == |xs| - 1
  {
    assert forall i :: 0 <= i < |xs| - 1 ==> xs[..|xs| - 1][i] == xs[i];
  }

  /** On a duplicate-free input (a primary-key column) the scan returns the
      input unchanged. */
  lemma {:induction false} DedupOfDistinct<T>(xs: seq<T>)
    requires NoDup(xs)
    ensures Dedup(xs) == xs
  {
    if |xs| > 0 {
      var n := |xs| - 1;
      assert NoDup(xs[..n]);
      DedupOfDistinct(xs[..n]);
      assert xs[n] !in xs[..n];
      assert xs[..n] + [xs[n]] == xs;
    }
  }

  /** The scan as `get_location_options` writes it: a loop that appends each element
      not yet collected. */
  method DistinctInOrder<T(==)>(xs: seq<T>) returns (r: seq<T>)
    ensures r == Dedup(xs)
    ensures NoDup(r)
    ensures forall i :: 0 <= i < |xs| ==> xs[i] in r
    ensures forall i :: 0 <= i < |r| ==> r[i] in xs
  {
    r := [];
    var i := 0;
    while i < |xs|
      invariant 0 <= i <= |xs|
      invariant r == Dedup(xs[..i])
    {
      assert xs[..i + 1][..i] == xs[..i];
      if xs[i] !in r {
        r := r + [xs[i]];
      }
      i := i + 1;
    }
    assert xs[..i] == xs;
  }
}
