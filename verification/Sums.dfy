/** Sums of sequences of integers, and shares of an amount in ten-thousandths rounded down. */
module Sums {

  function Sum(s: seq<int>): int {
    if s == [] then 0 else Sum(s[..|s| - 1]) + s[|s| - 1]
  }

  lemma SumAppend(s: seq<int>, x: int)
    ensures Sum(s + [x]) == Sum(s) + x
  {
    assert (s + [x])[..|s|] == s;
  }

  lemma {:induction false} SumUpdate(s: seq<int>, i: nat, x: int)
    requires i < |s|
    ensures Sum(s[i := x]) == Sum(s) - s[i] + x
  {
    var n := |s| - 1;
    if i == n {
      assert s[i := x][..n] == s[..n];
    } else {
      SumUpdate(s[..n], i, x);
      assert s[i := x][..n] == s[..n][i := x];
    }
  }

  lemma {:induction false} SumMonotone(a: seq<int>, b: seq<int>)
    requires |a| == |b| && forall i :: 0 <= i < |a| ==> a[i] <= b[i]
    ensures Sum(a) <= Sum(b)
  {
    if a != [] { SumMonotone(a[..|a| - 1], b[..|b| - 1]); }
  }

  const FULL: int := 10_000

  /** The exact share, rounded down. */
  function Share(total: int, basis: int): int { total * basis / FULL }

  function Floors(total: int, basis: seq<int>): (r: seq<int>)
    ensures |r| == |basis| && forall i :: 0 <= i < |basis| ==> r[i] == Share(total, basis[i])
  {
    if basis == [] then [] else Floors(total, basis[..|basis| - 1]) + [Share(total, basis[|basis| - 1])]
  }

  /** Pointwise below and strictly so somewhere: the sums differ. */
  lemma SumStrict(a: seq<int>, b: seq<int>, k: nat)
    requires |a| == |b| && k < |a| && a[k] < b[k]
    requires forall i :: 0 <= i < |a| ==> a[i] <= b[i]
    ensures Sum(a) < Sum(b)
  {
    SumUpdate(a, k, b[k]);
    SumMonotone(a[k := b[k]], b);
  }

  lemma {:induction false} PrefixSum(s: seq<int>, n: nat)
    requires n <= |s| && forall i :: 0 <= i < |s| ==> s[i] >= 0
    ensures 0 <= Sum(s[..n]) <= Sum(s)
    decreases |s|
  {
    if n < |s| {
      assert s[..|s| - 1][..n] == s[..n];
      PrefixSum(s[..|s| - 1], n);
    } else {
      assert s[..n] == s;
      if s != [] { PrefixSum(s[..|s| - 1], |s| - 1); assert s[..|s| - 1][..|s| - 1] == s[..|s| - 1]; }
    }
  }
}
