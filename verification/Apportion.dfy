/** `split_by_basis_points`: exact division of a 128-bit amount with the remainder on the last leg. */
module Apportion {
  import opened Prelude
  import opened Sums

  function CheckedAdd32(a: U32, b: U32): Option<U32> { if a + b <= U32_MAX then Some(a + b) else None }
  function CheckedAdd(a: U128, b: U128): Option<U128> { if a + b <= U128_MAX then Some(a + b) else None }
  function CheckedMul(a: U128, b: U128): Option<U128> { if a * b <= U128_MAX then Some(a * b) else None }
  function CheckedSub(a: U128, b: U128): Option<U128> { if b <= a then Some(a - b) else None }

  /** What is left for the last leg once every other leg has its rounded share. */
  function LastShare(total: int, legs: seq<int>): int
    requires legs != []
  {
    total - Sum(Floors(total, legs[..|legs| - 1]))
  }

  function Shares(total: int, legs: seq<int>): (r: seq<int>)
    requires legs != []
    ensures |r| == |legs|
  {
    Floors(total, legs[..|legs| - 1]) + [LastShare(total, legs)]
  }

  lemma ShareBounds(total: int, basis: int)
    ensures FULL * Share(total, basis) <= total * basis <= FULL * Share(total, basis) + FULL - 1
  {
  }

  /** Rounding down loses less than one unit per leg. */
  lemma {:induction false} FloorsBounds(total: int, legs: seq<int>)
    ensures FULL * Sum(Floors(total, legs)) <= total * Sum(legs)
    ensures total * Sum(legs) <= FULL * Sum(Floors(total, legs)) + (FULL - 1) * |legs|
  {
    if legs != [] {
      var n := |legs| - 1;
      var init, x := legs[..n], legs[n];
      FloorsBounds(total, init);
      ShareBounds(total, x);
      SumAppend(Floors(total, init), Share(total, x));
      assert total * Sum(legs) == total * Sum(init) + total * x;
    }
  }

  lemma Complement(total: int, s: int, x: int)
    requires s + x == FULL
    ensures total * x == total * FULL - total * s
  {
    assert x == FULL - s;
  }

  lemma LastIsClose(total: int, others: int, own: int, floors: int, n: nat)
    requires FULL * floors <= total * others <= FULL * floors + (FULL - 1) * n
    requires others + own == FULL
    ensures Share(total, own) <= total - floors <= Share(total, own) + n
  {
    Complement(total, others, own);
    LastBounds(total * others, total * own, total, floors, n);
  }

  lemma LastBounds(before: int, own: int, total: int, floors: int, n: nat)
    requires FULL * floors <= before <= FULL * floors + (FULL - 1) * n
    requires own == total * FULL - before
    ensures own / FULL <= total - floors <= own / FULL + n
  {
  }

  lemma LastShareIsClose(total: int, legs: seq<int>)
    requires legs != [] && Sum(legs) == FULL
    ensures Share(total, legs[|legs| - 1]) <= LastShare(total, legs) <= Share(total, legs[|legs| - 1]) + |legs| - 1
  {
    hide Share;
    var n := |legs| - 1;
    FloorsBounds(total, legs[..n]);
    LastIsClose(total, Sum(legs[..n]), legs[n], Sum(Floors(total, legs[..n])), n);
  }

  /** Amounts sum to the total; every leg but the last is the exact share rounded down; the last
      exceeds its own rounded share by at most the number of the other legs. */
  lemma SharesExact(total: int, legs: seq<int>)
    requires legs != [] && Sum(legs) == FULL
    ensures Sum(Shares(total, legs)) == total
    ensures forall i :: 0 <= i < |legs| - 1 ==> Shares(total, legs)[i] == Share(total, legs[i])
    ensures Share(total, legs[|legs| - 1]) <= Shares(total, legs)[|legs| - 1]
              <= Share(total, legs[|legs| - 1]) + |legs| - 1
  {
    hide Share, Sum, Floors, LastShare;
    SharesSum(total, legs);
    LastShareIsClose(total, legs);
    forall i | 0 <= i < |legs| - 1 ensures Shares(total, legs)[i] == Share(total, legs[i]) {
      assert Shares(total, legs)[i] == Floors(total, legs[..|legs| - 1])[i];
    }
  }

  lemma SharesSum(total: int, legs: seq<int>)
    requires legs != []
    ensures Sum(Shares(total, legs)) == total
  {
    hide Floors, Share;
    SumAppend(Floors(total, legs[..|legs| - 1]), LastShare(total, legs));
  }

  /** Dividing before multiplying gives the same rounded share. */
  lemma DivideFirst(total: int, basis: int)
    requires 0 <= total && 0 <= basis
    ensures (total / FULL) * basis + (total % FULL) * basis / FULL == Share(total, basis)
  {
    var q, m := total / FULL, total % FULL;
    assert total * basis == FULL * (q * basis) + m * basis by { assert total == FULL * q + m; }
    DivideMultiple(q * basis, m * basis);
  }

  lemma DivideMultiple(k: int, r: int)
    ensures (FULL * k + r) / FULL == k + r / FULL
  {
  }

  lemma NoOverflow(total: U128, basis: U16)
    requires basis <= FULL
    ensures 0 <= (total / FULL) * basis <= total && 0 <= (total % FULL) * basis <= FULL * FULL
    ensures 0 <= Share(total, basis) <= total
  {
    assert (total / FULL) * basis <= (total / FULL) * FULL by { Scale(total / FULL, basis, FULL); }
    Scale(total % FULL, basis, FULL);
    Scale(total, basis, FULL);
    DivideFirst(total, basis);
  }

  lemma Scale(a: int, b: int, c: int)
    requires 0 <= a && 0 <= b <= c
    ensures 0 <= a * b <= a * c
  {
  }

  lemma {:induction false} LegsBelow(legs: seq<U16>, i: nat)
    requires i < |legs| && Sum(legs) == FULL
    ensures legs[i] <= FULL
  {
    PrefixSum(legs, i + 1);
    PrefixSum(legs, i);
    assert legs[..i + 1] == legs[..i] + [legs[i]];
    SumAppend(legs[..i], legs[i]);
  }

  /** What the legs before `i` have taken never exceeds the total, nor does the next share. */
  lemma RoomForNext(total: U128, legs: seq<U16>, i: nat)
    requires i < |legs| && Sum(legs) == FULL
    ensures Floors(total, legs[..i + 1]) == Floors(total, legs[..i]) + [Share(total, legs[i])]
    ensures 0 <= Sum(Floors(total, legs[..i + 1])) <= total
  {
    assert legs[..i + 1][..i] == legs[..i];
    var taken := legs[..i + 1];
    FloorsBounds(total, taken);
    PrefixSum(legs, i + 1);
    Scale(total, Sum(taken), FULL);
    FloorsNonNegative(total, taken);
  }

  lemma {:induction false} FloorsNonNegative(total: U128, legs: seq<U16>)
    ensures 0 <= Sum(Floors(total, legs))
  {
    if legs != [] {
      FloorsNonNegative(total, legs[..|legs| - 1]);
      SumAppend(Floors(total, legs[..|legs| - 1]), Share(total, legs[|legs| - 1]));
      Scale(total, 0, legs[|legs| - 1]);
    }
  }

  /** What the loop has given out and kept before leg `i`. */
  ghost predicate Taken(total: int, legs: seq<int>, i: nat, allocations: seq<int>, remaining: int)
    requires i <= |legs|
  {
    allocations == Floors(total, legs[..i]) && remaining == total - Sum(Floors(total, legs[..i]))
  }

  lemma NothingTaken(total: int, legs: seq<int>)
    ensures Taken(total, legs, 0, [], total)
  {
  }

  lemma NextTaken(total: U128, legs: seq<U16>, i: nat, allocations: seq<int>, remaining: int, amount: int)
    requires i < |legs| && Sum(legs) == FULL && Taken(total, legs, i, allocations, remaining)
    requires amount == Share(total, legs[i])
    ensures Taken(total, legs, i + 1, allocations + [amount], remaining - amount) && amount <= remaining
  {
    hide Share;
    RoomForNext(total, legs, i);
    SumAppend(Floors(total, legs[..i]), Share(total, legs[i]));
  }

  lemma LastTaken(total: int, legs: seq<int>, allocations: seq<int>, remaining: int)
    requires legs != [] && Taken(total, legs, |legs| - 1, allocations, remaining)
    ensures allocations + [remaining] == Shares(total, legs)
  {
  }

  function Split(total: int, legs: seq<int>): Option<seq<int>> {
    if legs == [] || Sum(legs) != FULL then None else Some(Shares(total, legs))
  }

  /** For every 128-bit total and every balanced list of legs the split succeeds: none of its checked
      operations fails. It fails on an empty or unbalanced list, and only then. */
  method SplitByBasisPoints(total: U128, legs: seq<U16>) returns (r: Option<seq<U128>>)
    ensures r.None? <==> legs == [] || Sum(legs) != 10_000
    ensures r.None? <==> Split(total, legs).None?
    ensures r.Some? ==> r.value == Shares(total, legs)
  {
    if legs == [] { return None; }
    var sum: U32 := 0;
    for i := 0 to |legs|
      invariant sum == Sum(legs[..i])
    {
      SumAppend(legs[..i], legs[i]);
      assert legs[..i + 1] == legs[..i] + [legs[i]];
      PrefixSum(legs, i + 1);
      var next := CheckedAdd32(sum, legs[i]);
      if next.None? { return None; }
      sum := next.value;
    }
    assert legs[..|legs|] == legs;
    if sum != FULL { return None; }
    var remaining: U128 := total;
    var allocations: seq<U128> := [];
    NothingTaken(total, legs);
    hide Sum, Floors, Share, Shares, LastShare, Taken;
    for i := 0 to |legs|
      invariant i < |legs| ==> Taken(total, legs, i, allocations, remaining)
      invariant i == |legs| ==> allocations == Shares(total, legs)
    {
      var amount: U128;
      if i + 1 == |legs| {
        amount := remaining;
        LastTaken(total, legs, allocations, remaining);
      } else {
        LegsBelow(legs, i);
        NoOverflow(total, legs[i]);
        DivideFirst(total, legs[i]);
        var whole := CheckedMul(total / FULL, legs[i]);
        if whole.None? { return None; }
        var part := CheckedMul(total % FULL, legs[i]);
        if part.None? { return None; }
        var both := CheckedAdd(whole.value, part.value / FULL);
        if both.None? { return None; }
        amount := both.value;
        NextTaken(total, legs, i, allocations, remaining, amount);
      }
      var left := CheckedSub(remaining, amount);
      if left.None? { return None; }
      remaining := left.value;
      allocations := allocations + [amount];
    }
    return Some(allocations);
  }
}
