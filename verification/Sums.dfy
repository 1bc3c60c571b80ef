/** Sums of a weight over the elements of a sequence. */
module Sums {

  ghost function Total<T>(xs: seq<T>, weight: T -> nat): nat {
    if xs == [] then 0 else Total(xs[..|xs| - 1], weight) + weight(xs[|xs| - 1])
  }

  lemma {:induction false} TotalUpdate<T>(xs: seq<T>, i: nat, x: T, weight: T -> nat)
    requires i < |xs|
    ensures Total(xs[i := x], weight) == Total(xs, weight) - weight(xs[i]) + weight(x)
  {
    var n := |xs| - 1;
    if i == n {
      assert xs[i := x][..n] == xs[..n];
    } else {
      assert xs[i := x][..n] == xs[..n][i := x];
      TotalUpdate(xs[..n], i, x, weight);
    }
  }

  lemma {:induction false} TotalUniform<T>(xs: seq<T>, weight: T -> nat, w: nat)
    requires forall i :: 0 <= i < |xs| ==> weight(xs[i]) == w
    ensures Total(xs, weight) == |xs| * w
  {
    if xs != [] {
      TotalUniform(xs[..|xs| - 1], weight, w);
    }
  }

  lemma {:induction false} TotalAtLeast<T>(xs: seq<T>, i: nat, weight: T -> nat)
    requires i < |xs|
    ensures weight(xs[i]) <= Total(xs, weight)
  {
    if i < |xs| - 1 {
      TotalAtLeast(xs[..|xs| - 1], i, weight);
    }
  }

  lemma {:induction false} TotalPrefix<T>(xs: seq<T>, n: nat, weight: T -> nat)
    requires n <= |xs|
    ensures Total(xs[..n], weight) <= Total(xs, weight)
  {
    if n < |xs| {
      assert xs[..|xs| - 1][..n] == xs[..n];
      TotalPrefix(xs[..|xs| - 1], n, weight);
    } else {
      assert xs[..n] == xs;
    }
  }

  /** A positive sum has a first positive term. */
  lemma {:induction false} FirstPositive<T>(xs: seq<T>, weight: T -> nat) returns (i: nat)
    requires Total(xs, weight) > 0
    ensures i < |xs| && weight(xs[i]) > 0
    ensures forall j :: 0 <= j < i ==> weight(xs[j]) == 0
  {
    var n := |xs| - 1;
    if Total(xs[..n], weight) > 0 {
      i := FirstPositive(xs[..n], weight);
    } else {
      forall j: nat | j < n
        ensures weight(xs[j]) == 0
      {
        TotalAtLeast(xs[..n], j, weight);
      }
      i := n;
    }
  }
}
