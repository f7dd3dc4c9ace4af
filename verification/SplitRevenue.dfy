/**
 `splitRevenue`: the division of net revenue in cents by largest remainders, computed in doubles.
 Amounts and weights are what the source has after rounding: whole cents, whole hundredths of a
 percent, or not finite.
 */
module SplitRevenue {
  import opened Prelude
  import opened Sums
  import opened LargestRemainder

  const MOST_CENTS: int := 1_000_000_000_000
  const MOST_RECIPIENTS: nat := 20

  datatype Number = NotFinite | Whole(value: int)

  datatype SplitError = BadAmounts | BadRecipients | BadPercentages

  datatype Split = Split(gross: int, fee: int, net: int, allocations: seq<int>)

  // ------------------------------------------------------------------ double arithmetic

  /** 2^53: every integer up to here is a double; from here to twice as much, every even one is. */
  const EXACT: int := 9_007_199_254_740_992

  /** 2^39: below it neighbouring doubles are at most 2^-14 apart, and 2^-13 from there to 2^40. */
  const BINADE: int := 549_755_813_888

  /** The double nearest to an integer product below 2^54: halfway between two, the multiple of four. */
  function DoubleProduct(p: int): int {
    if p <= EXACT || p % 2 == 0 then p else if p % 4 == 3 then p + 1 else p - 1
  }

  /** The rounding of the quotient: the double of an integer over 10000. */
  datatype Doubles = Doubles(over: int -> real)

  function HalfGap(q: int): real {
    if q < FULL * BINADE then 1.0 / 32768.0 else 1.0 / 16384.0
  }

  predicate NearQuotient(q: int, x: real) {
    if q % FULL == 0 then x == (q / FULL) as real
    else q as real / 10000.0 - HalfGap(q) <= x <= q as real / 10000.0 + HalfGap(q)
  }

  /** Rounding to nearest, as section 4.3.1 of IEEE 754 requires it, over the amounts the source admits. */
  ghost predicate Rounds(d: Doubles) {
    forall q: int :: 0 <= q <= FULL * MOST_CENTS ==> NearQuotient(q, d.over(q))
  }

  function Exactly(net: int, w: seq<int>): (r: seq<int>)
    ensures |r| == |w| && forall i :: 0 <= i < |w| ==> r[i] == net * w[i]
  {
    if w == [] then [] else Exactly(net, w[..|w| - 1]) + [net * w[|w| - 1]]
  }

  function Products(net: int, w: seq<int>): (r: seq<int>)
    ensures |r| == |w| && forall i :: 0 <= i < |w| ==> r[i] == DoubleProduct(net * w[i])
  {
    if w == [] then [] else Products(net, w[..|w| - 1]) + [DoubleProduct(net * w[|w| - 1])]
  }

  function Raw(d: Doubles, q: seq<int>): (r: seq<real>)
    ensures |r| == |q| && forall i :: 0 <= i < |q| ==> r[i] == d.over(q[i])
  {
    if q == [] then [] else Raw(d, q[..|q| - 1]) + [d.over(q[|q| - 1])]
  }

  function Cents(raw: seq<real>): (r: seq<int>)
    ensures |r| == |raw| && forall i :: 0 <= i < |raw| ==> r[i] == raw[i].Floor
  {
    if raw == [] then [] else Cents(raw[..|raw| - 1]) + [raw[|raw| - 1].Floor]
  }

  /** `x - cents[i]`, which is exact in doubles. */
  function Keys(raw: seq<real>): (r: seq<real>)
    ensures |r| == |raw| && forall i :: 0 <= i < |raw| ==> r[i] == raw[i] - raw[i].Floor as real
  {
    if raw == [] then [] else Keys(raw[..|raw| - 1]) + [raw[|raw| - 1] - raw[|raw| - 1].Floor as real]
  }

  // ------------------------------------------------------------------ what rounding keeps

  predicate Balanced(w: seq<int>) {
    w != [] && (forall i :: 0 <= i < |w| ==> w[i] >= 0) && Sum(w) == FULL
  }

  /** The double of this product is exact: it is at most 2^53, or even. */
  predicate IsExact(p: int) { p <= EXACT || p % 2 == 0 }

  predicate ExactSize(net: int, w: seq<int>) {
    forall i :: 0 <= i < |w| ==> IsExact(net * w[i])
  }

  /** Every net below nine billion in the currency, whatever the weights, has exact products. */
  lemma MostSizesAreExact(net: int, w: seq<int>)
    requires Balanced(w) && 0 <= net <= 900_719_925_474
    ensures ExactSize(net, w)
  {
    forall i | 0 <= i < |w| ensures IsExact(net * w[i]) {
      OneBelow(w, i);
      Scale(net, w[i], FULL);
    }
  }

  lemma FloorIs(x: real, k: int)
    requires k as real <= x < k as real + 1.0
    ensures x.Floor == k
  {
  }

  /** The quotient rounds down to the exact whole, and its fraction is the remainder to within half a gap. */
  lemma QuotientParts(q: int, x: real)
    requires 0 <= q <= FULL * MOST_CENTS && NearQuotient(q, x)
    ensures x.Floor == q / FULL
    ensures var key := x - x.Floor as real; var rest := (q % FULL) as real / 10000.0;
      if q % FULL == 0 then key == 0.0 else rest - HalfGap(q) <= key <= rest + HalfGap(q)
  {
    var k, r := q / FULL, q % FULL;
    assert q as real == 10000.0 * k as real + r as real;
    FloorIs(x, k);
  }

  /** A strictly larger remainder gives a strictly larger key, unless both amounts are enormous. */
  lemma KeyOrder(p: int, x: real, q: int, y: real)
    requires 0 <= p && 0 <= q && p + q < 2 * FULL * BINADE && p <= FULL * MOST_CENTS && q <= FULL * MOST_CENTS
    requires NearQuotient(p, x) && NearQuotient(q, y) && p % FULL > q % FULL
    ensures x - x.Floor as real > y - y.Floor as real
  {
    QuotientParts(p, x);
    QuotientParts(q, y);
    assert HalfGap(p) + HalfGap(q) < 1.0 / 10000.0;
    assert (p % FULL) as real >= (q % FULL) as real + 1.0;
  }

  lemma {:induction false} ExactSum(net: int, w: seq<int>)
    ensures Sum(Exactly(net, w)) == net * Sum(w)
  {
    if w != [] {
      var n := |w| - 1;
      ExactSum(net, w[..n]);
      SumAppend(Exactly(net, w[..n]), net * w[n]);
      Distribute(net, Sum(w[..n]), w[n]);
    }
  }

  lemma Distribute(a: int, b: int, c: int)
    ensures a * b + a * c == a * (b + c)
  {
  }

  lemma Scale(a: int, b: int, c: int)
    requires 0 <= a && 0 <= b <= c
    ensures 0 <= a * b <= a * c
  {
  }

  /** Two weights together are at most the whole. */
  lemma {:induction false} PairBelow(w: seq<int>, i: nat, j: nat)
    requires i < j < |w| && forall k :: 0 <= k < |w| ==> w[k] >= 0
    ensures w[i] + w[j] <= Sum(w)
  {
    PrefixSum(w, j + 1);
    PrefixSum(w[..j], i + 1);
    PrefixSum(w[..j], i);
    assert w[..j + 1] == w[..j] + [w[j]] && w[..j][..i + 1] == w[..j][..i] + [w[i]];
    SumAppend(w[..j], w[j]);
    SumAppend(w[..j][..i], w[i]);
  }

  lemma OneBelow(w: seq<int>, i: nat)
    requires i < |w| && forall k :: 0 <= k < |w| ==> w[k] >= 0
    ensures 0 <= w[i] <= Sum(w)
  {
    PrefixSum(w, i + 1);
    PrefixSum(w, i);
    assert w[..i + 1] == w[..i] + [w[i]];
    SumAppend(w[..i], w[i]);
  }

  /** One share: its exact product is in range, and so is the rounded one. */
  lemma ShareInRange(net: int, w: seq<int>, i: nat)
    requires Balanced(w) && 0 <= net <= MOST_CENTS && i < |w|
    ensures 0 <= w[i] <= FULL && 0 <= net * w[i] <= FULL * net <= FULL * MOST_CENTS
    ensures 0 <= Products(net, w)[i] <= FULL * MOST_CENTS
  {
    OneBelow(w, i);
    Scale(net, w[i], FULL);
  }

  /** Its double quotient is as near as doubles allow. */
  lemma QuotientInRange(d: Doubles, net: int, w: seq<int>, i: nat)
    requires Rounds(d) && Balanced(w) && 0 <= net <= MOST_CENTS && i < |w|
    ensures 0 <= Products(net, w)[i] <= FULL * MOST_CENTS
    ensures NearQuotient(Products(net, w)[i], d.over(Products(net, w)[i]))
  {
    ShareInRange(net, w, i);
  }

  /** At most one product is too large to be exact. */
  lemma PairInRange(net: int, w: seq<int>, i: nat, j: nat)
    requires Balanced(w) && 0 <= net <= MOST_CENTS && i < |w| && j < |w| && i != j
    ensures net * w[i] + net * w[j] <= FULL * net <= FULL * MOST_CENTS
  {
    if i < j { PairBelow(w, i, j); } else { PairBelow(w, j, i); }
    Scale(net, w[i] + w[j], FULL);
    Distribute(net, w[i], w[j]);
  }

  lemma ExactTotal(net: int, w: seq<int>)
    requires Balanced(w)
    ensures Sum(Exactly(net, w)) == FULL * net
  {
    ExactSum(net, w);
  }

  lemma OnlyShare(net: int, w: seq<int>)
    requires Balanced(w) && |w| == 1
    ensures net * w[0] == FULL * net
  {
    assert w[..0] == [] && Sum(w) == w[0];
  }

  /** Only one product can be off, and only by one. */
  lemma OneProductOff(net: int, w: seq<int>, b: nat)
    requires Balanced(w) && 0 <= net <= MOST_CENTS && b < |w| && !IsExact(net * w[b])
    ensures var p, q := Exactly(net, w), Products(net, w);
      && q == p[b := q[b]] && p[b] - 1 <= q[b] <= p[b] + 1 && |w| > 1
      && forall j :: 0 <= j < |w| && j != b ==> IsExact(p[j]) && q[j] < q[b]
  {
    var p, q := Exactly(net, w), Products(net, w);
    ShareInRange(net, w, b);
    hide Balanced, Exactly, Products, IsExact, DoubleProduct;
    LargeProduct(p[b]);
    forall j | 0 <= j < |w| && j != b ensures IsExact(p[j]) && q[j] == p[j] < q[b] {
      PairInRange(net, w, b, j);
      ShareInRange(net, w, j);
      SmallBesideLarge(p[b], p[j]);
    }
    if |w| == 1 { OnlyShare(net, w); }
  }

  lemma LargeProduct(p: int)
    requires !IsExact(p)
    ensures p % 2 == 1 && p - 1 <= DoubleProduct(p) <= p + 1
  {
  }

  lemma SmallBesideLarge(p: int, other: int)
    requires !IsExact(p) && 0 <= other && p + other <= FULL * MOST_CENTS
    ensures IsExact(other) && DoubleProduct(other) == other < DoubleProduct(p)
  {
  }

  lemma ExactSizesAreExact(net: int, w: seq<int>)
    requires ExactSize(net, w)
    ensures Products(net, w) == Exactly(net, w)
  {
  }

  /** The rounded products sum to the whole amount to within one, and exactly for one recipient. */
  lemma ProductsSum(net: int, w: seq<int>)
    requires Balanced(w) && 0 <= net <= MOST_CENTS
    ensures FULL * net - 1 <= Sum(Products(net, w)) <= FULL * net + 1
    ensures |w| == 1 ==> Sum(Products(net, w)) == FULL * net
  {
    var p, q := Exactly(net, w), Products(net, w);
    ExactTotal(net, w);
    hide Balanced, Sum, Exactly, Products;
    if ExactSize(net, w) {
      ExactSizesAreExact(net, w);
    } else {
      var b :| 0 <= b < |w| && !IsExact(net * w[b]);
      OneProductOff(net, w, b);
      SumUpdate(p, b, q[b]);
    }
  }

  /** Rounding down the quotients rounds down the products. */
  lemma CentsAreWholes(d: Doubles, net: int, w: seq<int>)
    requires Rounds(d) && Balanced(w) && 0 <= net <= MOST_CENTS
    ensures Cents(Raw(d, Products(net, w))) == Wholes(Products(net, w))
  {
    var q := Products(net, w);
    forall i | 0 <= i < |w| ensures Cents(Raw(d, q))[i] == Wholes(q)[i] {
      QuotientInRange(d, net, w, i);
      QuotientParts(q[i], d.over(q[i]));
    }
  }

  /** The cents left over when the rounded shares are rounded down. */
  function Leftover(net: int, w: seq<int>): int {
    net - Sum(Wholes(Products(net, w)))
  }

  /** The leftover is smaller than the number of recipients, and the remainders account for it to within one. */
  lemma LeftoverFits(net: int, w: seq<int>)
    requires Balanced(w) && 0 <= net <= MOST_CENTS
    ensures var q := Products(net, w); var leftover := Leftover(net, w);
      0 <= leftover < |w| && FULL * leftover <= Sum(Rests(q)) + 1
  {
    ProductsSum(net, w);
    RestsAccount(Products(net, w));
  }

  /** The recipients sorted by the fraction of their quotient, then by index. */
  function SortOrder(d: Doubles, q: seq<int>): (order: seq<nat>)
    ensures Indices(order, |q|) && |order| == |q|
  {
    Order(Keys(Raw(d, q)), |q|)
  }

  /** The sort never puts a strictly smaller remainder of the rounded products first. */
  lemma SortIsPermitted(d: Doubles, net: int, w: seq<int>)
    requires Rounds(d) && Balanced(w) && 0 <= net <= MOST_CENTS
    ensures Permitted(Products(net, w), SortOrder(d, Products(net, w)))
  {
    var q := Products(net, w);
    var keys := Keys(Raw(d, q));
    var order := Order(keys, |w|);
    forall k, l | 0 <= k < l < |order| ensures Rests(q)[order[k]] >= Rests(q)[order[l]] {
      var i, j := order[k], order[l];
      assert Before(keys, i, j);
      if q[i] % FULL < q[j] % FULL { KeysRespect(d, net, w, j, i); }
    }
  }

  lemma KeysRespect(d: Doubles, net: int, w: seq<int>, i: nat, j: nat)
    requires Rounds(d) && Balanced(w) && 0 <= net <= MOST_CENTS && i < |w| && j < |w|
    requires Products(net, w)[i] % FULL > Products(net, w)[j] % FULL
    ensures var keys := Keys(Raw(d, Products(net, w))); keys[i] > keys[j]
  {
    var q := Products(net, w);
    QuotientInRange(d, net, w, i);
    QuotientInRange(d, net, w, j);
    PairInRange(net, w, i, j);
    KeyOrder(q[i], d.over(q[i]), q[j], d.over(q[j]));
  }

  // ------------------------------------------------------------------ the division

  /** What the source computes, for any doubles that round to nearest. */
  ghost function Allocation(d: Doubles, net: int, w: seq<int>): (a: seq<int>)
    requires Rounds(d) && Balanced(w) && 0 <= net <= MOST_CENTS
    ensures |a| == |w|
  {
    LeftoverFits(net, w);
    var q := Products(net, w);
    Served(Wholes(q), SortOrder(d, q), Leftover(net, w))
  }

  /** Amounts sum to the net; each is the exact share rounded down or one cent more; a whole share
      gets nothing extra; a larger weight never receives less; and whoever is passed over has at most one
      ten-thousandth of a cent more left than anyone served. */
  ghost predicate FairSplit(net: int, w: seq<int>, a: seq<int>) {
    && |a| == |w| && Sum(a) == net
    && (forall i :: 0 <= i < |w| ==> Share(net, w[i]) <= a[i] <= Share(net, w[i]) + 1)
    && (forall i :: 0 <= i < |w| && net * w[i] % FULL == 0 ==> a[i] == Share(net, w[i]))
    && (forall i, j :: 0 <= i < |w| && 0 <= j < |w| && w[i] > w[j] ==> a[i] >= a[j])
    && (forall i, j :: 0 <= i < |w| && 0 <= j < |w| && a[i] == Share(net, w[i]) && a[j] == Share(net, w[j]) + 1
          ==> net * w[i] % FULL <= net * w[j] % FULL + 1)
  }

  lemma AllocationByRemainder(d: Doubles, net: int, w: seq<int>)
    requires Rounds(d) && Balanced(w) && 0 <= net <= MOST_CENTS
    ensures ByRemainder(Products(net, w), Allocation(d, net, w)) && Sum(Allocation(d, net, w)) == net
  {
    hide Rounds, Balanced, Products, SortOrder, Permitted, ByRemainder, Served, Wholes, Sum;
    LeftoverFits(net, w);
    SortIsPermitted(d, net, w);
    ServedAnswer(Products(net, w), SortOrder(d, Products(net, w)), net);
  }

  lemma ServedAnswer(q: seq<int>, order: seq<nat>, net: int)
    requires Permitted(q, order) && 0 <= net - Sum(Wholes(q)) <= |q|
    ensures Indices(order, |q|) && |order| == |q|
    ensures var a := Served(Wholes(q), order, net - Sum(Wholes(q))); ByRemainder(q, a) && Sum(a) == net
  {
    hide ByRemainder, Served, Wholes, Sum;
    ServedByRemainder(q, order, net - Sum(Wholes(q)));
  }

  /** Rounding the product moves a share only from a last ten-thousandth up to the next whole. */
  lemma RoundedShare(p: int, q: int)
    requires q == DoubleProduct(p) && 0 <= p
    ensures q / FULL == p / FULL || (q / FULL == p / FULL + 1 && q % FULL == 0 && p % FULL == FULL - 1)
    ensures q / FULL == p / FULL ==> p % FULL - 1 <= q % FULL <= p % FULL + 1 && q % FULL - p % FULL == q - p
    ensures p % FULL == 0 ==> q == p
  {
    OddByOne(p);
    Parity(p);
    hide DoubleProduct;
    var k, r := p / FULL, p % FULL;
    if q == p + 1 {
      if r < FULL - 1 { Parts(q, k, r + 1); } else { Parts(q, k + 1, 0); }
    } else if q == p - 1 {
      Parts(q, k, r - 1);
    }
  }

  lemma OddByOne(p: int)
    ensures DoubleProduct(p) != p ==> p % 2 == 1 && (DoubleProduct(p) == p + 1 || DoubleProduct(p) == p - 1)
  {
  }

  lemma Parity(p: int)
    ensures p % FULL % 2 == p % 2
  {
    var m := 5_000 * (p / FULL);
    assert p == 2 * m + p % FULL;
    EvenApart(m, p % FULL);
  }

  lemma EvenApart(m: int, r: int)
    ensures (2 * m + r) % 2 == r % 2
  {
  }

  lemma Parts(q: int, k: int, r: int)
    requires q == FULL * k + r && 0 <= r < FULL
    ensures q / FULL == k && q % FULL == r
  {
  }

  lemma AllocationNearShare(d: Doubles, net: int, w: seq<int>, i: nat)
    requires Rounds(d) && Balanced(w) && 0 <= net <= MOST_CENTS && i < |w|
    ensures var a := Allocation(d, net, w);
      |a| == |w| && Share(net, w[i]) <= a[i] <= Share(net, w[i]) + 1
      && (net * w[i] % FULL == 0 ==> a[i] == Share(net, w[i]))
  {
    AllocationByRemainder(d, net, w);
    LeftoverFits(net, w);
    ShareInRange(net, w, i);
    var q := Products(net, w);
    RoundedShare(net * w[i], q[i]);
    hide Allocation;
    if q[i] % FULL == 0 { WholeShareGetsNoExtra(q, Allocation(d, net, w), i); }
  }

  lemma AllocationMonotone(d: Doubles, net: int, w: seq<int>, i: nat, j: nat)
    requires Rounds(d) && Balanced(w) && 0 <= net <= MOST_CENTS && i < |w| && j < |w| && w[i] > w[j]
    ensures |Allocation(d, net, w)| == |w| && Allocation(d, net, w)[i] >= Allocation(d, net, w)[j]
  {
    hide Rounds, Balanced, Allocation, ByRemainder, Sum, NearQuotient;
    AllocationByRemainder(d, net, w);
    AllocationNearShare(d, net, w, i);
    AllocationNearShare(d, net, w, j);
    if net > 0 {
      ShareInRange(net, w, i);
      ShareInRange(net, w, j);
      var q := Products(net, w);
      Gap(net, w[j], w[i]);
      LargerShareNeverLess(q, Allocation(d, net, w), i, j);
    }
  }

  lemma Gap(net: int, low: int, high: int)
    requires 0 < net && low < high
    ensures net * low + net <= net * high
  {
    Distribute(net, low, 1);
    Scale(net, 0, high - low - 1);
    Distribute(net, low + 1, high - low - 1);
  }

  /** The extra cents follow the exact remainders to within one ten-thousandth of a cent. */
  lemma PassedOverByOne(d: Doubles, net: int, w: seq<int>, i: nat, j: nat)
    requires Rounds(d) && Balanced(w) && 0 <= net <= MOST_CENTS && i < |w| && j < |w|
    requires Allocation(d, net, w)[i] == Share(net, w[i]) && Allocation(d, net, w)[j] == Share(net, w[j]) + 1
    ensures net * w[i] % FULL <= net * w[j] % FULL + 1
  {
    AllocationByRemainder(d, net, w);
    OffElsewhere(net, w, i, j);
    ShareInRange(net, w, i);
    ShareInRange(net, w, j);
    var q, a := Products(net, w), Allocation(d, net, w);
    hide Rounds, Balanced, Allocation, Products, DoubleProduct, Sum;
    RoundedShare(net * w[i], q[i]);
    RoundedShare(net * w[j], q[j]);
    Bounds(q, a);
    assert a[j] > q[j] / FULL && a[i] == q[i] / FULL ==> q[j] % FULL >= q[i] % FULL;
  }

  /** Of two recipients one has an exact product. */
  lemma OffElsewhere(net: int, w: seq<int>, i: nat, j: nat)
    requires Balanced(w) && 0 <= net <= MOST_CENTS && i < |w| && j < |w|
    ensures i != j ==> Products(net, w)[i] == net * w[i] || Products(net, w)[j] == net * w[j]
  {
    if !IsExact(net * w[i]) { OneProductOff(net, w, i); }
  }

  /** For every admitted amount and every balanced list of weights. */
  lemma AllocationIsFair(d: Doubles, net: int, w: seq<int>)
    requires Rounds(d) && Balanced(w) && 0 <= net <= MOST_CENTS
    ensures FairSplit(net, w, Allocation(d, net, w))
  {
    hide Rounds, Balanced, Allocation, Share, ByRemainder, Sum;
    AllocationByRemainder(d, net, w);
    var a := Allocation(d, net, w);
    forall i | 0 <= i < |w|
      ensures Share(net, w[i]) <= a[i] <= Share(net, w[i]) + 1 && (net * w[i] % FULL == 0 ==> a[i] == Share(net, w[i]))
    {
      AllocationNearShare(d, net, w, i);
    }
    forall i, j | 0 <= i < |w| && 0 <= j < |w| && w[i] > w[j] ensures a[i] >= a[j] {
      AllocationMonotone(d, net, w, i, j);
    }
    forall i, j | 0 <= i < |w| && 0 <= j < |w| && a[i] == Share(net, w[i]) && a[j] == Share(net, w[j]) + 1
      ensures net * w[i] % FULL <= net * w[j] % FULL + 1
    {
      PassedOverByOne(d, net, w, i, j);
    }
  }

  // ------------------------------------------------------------------ remainders and ties

  function ExactLeftover(net: int, w: seq<int>): int {
    net - Sum(Wholes(Exactly(net, w)))
  }

  lemma ExactLeftoverFits(net: int, w: seq<int>)
    requires Balanced(w)
    ensures 0 <= ExactLeftover(net, w) < |w|
  {
    ExactTotal(net, w);
    RestsAccount(Exactly(net, w));
  }

  /** The shares rounded down, and the rest of the net by their remainders with ties to the lower index. */
  function LowSplit(q: seq<int>, net: int): (a: seq<int>)
    requires 0 <= net - Sum(Wholes(q)) <= |q|
    ensures |a| == |q| && Sum(a) == net
  {
    LowSum(q, net - Sum(Wholes(q)));
    Served(Wholes(q), LowerFirst(q), net - Sum(Wholes(q)))
  }

  lemma LowSum(q: seq<int>, leftover: nat)
    requires leftover <= |q|
    ensures |LowerFirst(q)| == |q| && Indices(LowerFirst(q), |q|)
    ensures Sum(Served(Wholes(q), LowerFirst(q), leftover)) == Sum(Wholes(q)) + leftover
  {
    hide Served, LowerFirst, Wholes, Sum;
    ServedAt(Wholes(q), LowerFirst(q), leftover);
  }

  /** The division by exact remainders with ties to the lower index. */
  function LowerIndexSplit(net: int, w: seq<int>): (a: seq<int>)
    requires Balanced(w)
  {
    ExactLeftoverFits(net, w);
    LowSplit(Exactly(net, w), net)
  }

  /** Two equal exact remainders straddle the last place served. */
  predicate TieAtTheEdge(net: int, w: seq<int>)
    requires Balanced(w)
  {
    ExactLeftoverFits(net, w);
    TieStraddles(Exactly(net, w), ExactLeftover(net, w))
  }

  /** While products are exact, no recipient is passed over for one with a strictly smaller exact
      remainder; and unless a tie straddles the last place served, ties go to the lower index. */
  lemma ExactRemaindersDecide(d: Doubles, net: int, w: seq<int>)
    requires Rounds(d) && Balanced(w) && 0 <= net <= MOST_CENTS && ExactSize(net, w)
    ensures ByRemainder(Exactly(net, w), Allocation(d, net, w))
    ensures !TieAtTheEdge(net, w) ==> Allocation(d, net, w) == LowerIndexSplit(net, w)
  {
    hide Permitted, ByRemainder, Served, Rounds, Balanced, Exactly, Products, SortOrder, Sum, Wholes, LowerFirst, TieStraddles,
      ExactSize;
    AllocationByRemainder(d, net, w);
    ExactSizesAreExact(net, w);
    SortIsPermitted(d, net, w);
    ExactLeftoverFits(net, w);
    var q := Exactly(net, w);
    if !TieAtTheEdge(net, w) {
      NoTieSameAnswer(q, SortOrder(d, q), ExactLeftover(net, w));
    }
  }

  /** Recipient `i` is served, that is among the first of the sort. */
  predicate IsServed(d: Doubles, net: int, w: seq<int>, i: nat)
    requires Balanced(w) && 0 <= net <= MOST_CENTS
  {
    LeftoverFits(net, w);
    i in SortOrder(d, Products(net, w))[..Leftover(net, w)]
  }

  lemma AllocationAt(d: Doubles, net: int, w: seq<int>, i: nat)
    requires Rounds(d) && Balanced(w) && 0 <= net <= MOST_CENTS && i < |w|
    ensures Allocation(d, net, w)[i] == Products(net, w)[i] / FULL + if IsServed(d, net, w, i) then 1 else 0
  {
    LeftoverFits(net, w);
    hide Served, Rounds, Balanced, SortOrder, Leftover, Products, Wholes;
    ServedShare(Products(net, w), SortOrder(d, Products(net, w)), Leftover(net, w), i);
  }

  lemma ServedShare(q: seq<int>, order: seq<nat>, leftover: nat, i: nat)
    requires Indices(order, |q|) && leftover <= |order| && i < |q|
    ensures Served(Wholes(q), order, leftover)[i] == q[i] / FULL + if i in order[..leftover] then 1 else 0
  {
    hide Served;
    ServedAt(Wholes(q), order, leftover);
  }

  /** Whoever is sorted before a recipient that is served is served, too. */
  lemma ServedFirst(d: Doubles, net: int, w: seq<int>, i: nat, j: nat)
    requires Balanced(w) && 0 <= net <= MOST_CENTS && i < |w| && j < |w| && IsServed(d, net, w, i)
    requires Before(Keys(Raw(d, Products(net, w))), j, i)
    ensures IsServed(d, net, w, j)
  {
    LeftoverFits(net, w);
    ServedByKey(Keys(Raw(d, Products(net, w))), Leftover(net, w), i, j);
  }

  /** Recipient `i` is one of those whose rounded products tie across the last place served. */
  predicate Tied(net: int, w: seq<int>, i: nat) {
    AtTheEdge(Products(net, w), Leftover(net, w), i)
  }

  /** Two different weights are among the tied. */
  predicate MixedTie(net: int, w: seq<int>) {
    exists i, j :: 0 <= i < |w| && 0 <= j < |w| && Tied(net, w, i) && Tied(net, w, j) && w[i] != w[j]
  }

  /** The division of the rounded products with ties to the lower index. */
  function RoundedSplit(net: int, w: seq<int>): (a: seq<int>)
    requires Balanced(w) && 0 <= net <= MOST_CENTS
    ensures |a| == |w| && Sum(a) == net
  {
    LeftoverFits(net, w);
    LowSplit(Products(net, w), net)
  }

  predicate LowServed(net: int, w: seq<int>, i: nat)
    requires Balanced(w) && 0 <= net <= MOST_CENTS
  {
    LeftoverFits(net, w);
    i in LowerFirst(Products(net, w))[..Leftover(net, w)]
  }

  lemma RoundedSplitAt(net: int, w: seq<int>, i: nat)
    requires Balanced(w) && 0 <= net <= MOST_CENTS && i < |w|
    ensures |RoundedSplit(net, w)| == |w|
    ensures RoundedSplit(net, w)[i] == Products(net, w)[i] / FULL + if LowServed(net, w, i) then 1 else 0
  {
    LeftoverFits(net, w);
    hide LowSplit, Balanced, LowerFirst, Products, Wholes, Sum, DoubleProduct, Rests;
    LowSplitAt(Products(net, w), net, i);
  }

  lemma LowSplitAt(q: seq<int>, net: int, i: nat)
    requires 0 <= net - Sum(Wholes(q)) <= |q| && i < |q|
    ensures LowSplit(q, net)[i] == q[i] / FULL + if i in LowerFirst(q)[..net - Sum(Wholes(q))] then 1 else 0
  {
    hide Served, LowerFirst, Wholes, Sum;
    ServedShare(q, LowerFirst(q), net - Sum(Wholes(q)), i);
  }

  /** What the code and the lower-index order serve differently is tied. */
  lemma DifferenceIsTied(d: Doubles, net: int, w: seq<int>, i: nat, j: nat)
    requires Rounds(d) && Balanced(w) && 0 <= net <= MOST_CENTS && i < |w| && j < |w|
    requires IsServed(d, net, w, i) && !IsServed(d, net, w, j) && !LowServed(net, w, i) && LowServed(net, w, j)
    ensures Tied(net, w, i) && Tied(net, w, j)
  {
    LeftoverFits(net, w);
    SortIsPermitted(d, net, w);
    hide Rounds, Balanced, Permitted, SortOrder, LowerFirst, AtTheEdge, Leftover, Products;
    SwappedAreTied(Products(net, w), SortOrder(d, Products(net, w)), Leftover(net, w), i, j);
  }

  /** How far the double of a quotient is off. */
  function Error(d: Doubles, q: int): real {
    d.over(q) - q as real / 10000.0
  }

  /** No tied recipient that the lower-index order serves has a smaller error than one it does not serve. */
  predicate ErrorsKeepTheTie(d: Doubles, net: int, w: seq<int>)
    requires Balanced(w) && 0 <= net <= MOST_CENTS
  {
    forall i, j :: 0 <= i < |w| && 0 <= j < |w| && Tied(net, w, i) && Tied(net, w, j) && LowServed(net, w, i) && !LowServed(net, w, j)
      ==> Error(d, Products(net, w)[i]) >= Error(d, Products(net, w)[j])
  }

  /** Among equal remainders the sort is by the errors, then by index. */
  lemma KeysByError(d: Doubles, net: int, w: seq<int>, i: nat, j: nat)
    requires Rounds(d) && Balanced(w) && 0 <= net <= MOST_CENTS && i < |w| && j < |w|
    requires Products(net, w)[i] % FULL == Products(net, w)[j] % FULL
    ensures var q := Products(net, w); var keys := Keys(Raw(d, q));
      keys[i] - keys[j] == Error(d, q[i]) - Error(d, q[j])
  {
    QuotientInRange(d, net, w, i);
    QuotientInRange(d, net, w, j);
    var q := Products(net, w);
    hide Rounds, Balanced, Products;
    QuotientParts(q[i], d.over(q[i]));
    QuotientParts(q[j], d.over(q[j]));
    assert q[i] as real == 10000.0 * (q[i] / FULL) as real + (q[i] % FULL) as real;
    assert q[j] as real == 10000.0 * (q[j] / FULL) as real + (q[j] % FULL) as real;
  }

  lemma ErrorGoesLow(d: Doubles, net: int, w: seq<int>, i: nat, j: nat)
    requires Rounds(d) && Balanced(w) && 0 <= net <= MOST_CENTS && i < |w| && j < |w| && ErrorsKeepTheTie(d, net, w)
    requires IsServed(d, net, w, i) && !LowServed(net, w, i) && LowServed(net, w, j)
    ensures IsServed(d, net, w, j)
  {
    if !IsServed(d, net, w, j) {
      DifferenceIsTied(d, net, w, i, j);
      TiedRest(net, w, i, j);
      KeysByError(d, net, w, i, j);
      hide IsServed, LowServed, Rounds, Balanced, Products, Keys, Raw, Tied, Error;
      if i < j { LowFirst(net, w, j, i); } else { ServedFirst(d, net, w, i, j); }
    }
  }

  lemma LowFirst(net: int, w: seq<int>, i: nat, j: nat)
    requires Balanced(w) && 0 <= net <= MOST_CENTS && i < |w| && j < |w| && LowServed(net, w, i)
    requires Products(net, w)[i] % FULL == Products(net, w)[j] % FULL && j <= i
    ensures LowServed(net, w, j)
  {
    LeftoverFits(net, w);
    var q := Products(net, w);
    hide Leftover, Products, Balanced, LowerFirst, Rests;
    LowByIndex(q, Leftover(net, w), i, j);
  }

  lemma ErrorsGoLow(d: Doubles, net: int, w: seq<int>)
    requires Rounds(d) && Balanced(w) && 0 <= net <= MOST_CENTS && ErrorsKeepTheTie(d, net, w)
    ensures Allocation(d, net, w) == RoundedSplit(net, w)
  {
    hide Rounds, Balanced, Allocation, RoundedSplit, Products, IsServed, LowServed, ErrorsKeepTheTie, Sum, ByRemainder;
    AllocationByRemainder(d, net, w);
    var a, b := Allocation(d, net, w), RoundedSplit(net, w);
    forall i | 0 <= i < |w| ensures a[i] <= b[i] {
      AllocationAt(d, net, w, i);
      RoundedSplitAt(net, w, i);
      if IsServed(d, net, w, i) && !LowServed(net, w, i) {
        forall j | 0 <= j < |w| ensures b[j] <= a[j] {
          AllocationAt(d, net, w, j);
          RoundedSplitAt(net, w, j);
          if LowServed(net, w, j) { ErrorGoesLow(d, net, w, i, j); }
        }
        SumStrict(b, a, i);
      }
    }
    if a != b {
      var i :| 0 <= i < |w| && a[i] != b[i];
      SumStrict(a, b, i);
    }
  }

  /** A tied recipient the lower index should not serve has the larger error: it is served first. */
  lemma ErrorGoesHigh(d: Doubles, net: int, w: seq<int>, i: nat, j: nat)
    requires Rounds(d) && Balanced(w) && 0 <= net <= MOST_CENTS && i < |w| && j < |w|
    requires Tied(net, w, i) && Tied(net, w, j) && LowServed(net, w, i) && !LowServed(net, w, j)
    requires Error(d, Products(net, w)[i]) < Error(d, Products(net, w)[j])
    ensures Allocation(d, net, w) != RoundedSplit(net, w)
  {
    TiedRest(net, w, i, j);
    KeysByError(d, net, w, j, i);
    hide Allocation, RoundedSplit, Balanced, Rounds, Products, IsServed, LowServed, Tied, Error, Keys, Raw;
    AllocationAt(d, net, w, i);
    AllocationAt(d, net, w, j);
    RoundedSplitAt(net, w, i);
    RoundedSplitAt(net, w, j);
    if IsServed(d, net, w, i) { ServedFirst(d, net, w, i, j); }
  }

  /** For every admitted amount and every rounding of the quotients, that of the code included: ties go to the
      lower index if and only if the errors of the tied quotients do not speak against it. */
  lemma TiesByError(d: Doubles, net: int, w: seq<int>)
    requires Rounds(d) && Balanced(w) && 0 <= net <= MOST_CENTS
    ensures Allocation(d, net, w) == RoundedSplit(net, w) <==> ErrorsKeepTheTie(d, net, w)
  {
    hide Rounds, Balanced, Allocation, RoundedSplit, Products, Tied, LowServed, Error;
    if ErrorsKeepTheTie(d, net, w) {
      ErrorsGoLow(d, net, w);
    } else {
      var i, j :| 0 <= i < |w| && 0 <= j < |w| && Tied(net, w, i) && Tied(net, w, j) && LowServed(net, w, i)
        && !LowServed(net, w, j) && Error(d, Products(net, w)[i]) < Error(d, Products(net, w)[j]);
      ErrorGoesHigh(d, net, w, i, j);
    }
  }

  // ------------------------------------------------------------------ roundings that decide a tie

  /** The quotient of `c` is off by half a gap, every other one is exact. */
  function Tilt(c: int, up: bool, q: int): real {
    q as real / 10000.0 + if q != c || c % FULL == 0 then 0.0 else if up then HalfGap(c) else -HalfGap(c)
  }

  function Tilted(c: int, up: bool): Doubles {
    Doubles(q => Tilt(c, up, q))
  }

  lemma TiltedRounds(c: int, up: bool)
    ensures Rounds(Tilted(c, up))
  {
    forall q | 0 <= q <= FULL * MOST_CENTS ensures NearQuotient(q, Tilted(c, up).over(q)) {
      assert q as real == 10000.0 * (q / FULL) as real + (q % FULL) as real;
    }
  }

  /** Of two products with one remainder, the tilted one has the larger or the smaller key. */
  lemma TiltedKeys(net: int, w: seq<int>, c: int, up: bool, i: nat, j: nat)
    requires Balanced(w) && 0 <= net <= MOST_CENTS && i < |w| && j < |w|
    requires Products(net, w)[i] == c != Products(net, w)[j] && c % FULL == Products(net, w)[j] % FULL > 0
    ensures var keys := Keys(Raw(Tilted(c, up), Products(net, w)));
      if up then keys[i] > keys[j] else keys[i] < keys[j]
  {
    TiltedRounds(c, up);
    QuotientInRange(Tilted(c, up), net, w, i);
    QuotientInRange(Tilted(c, up), net, w, j);
    var q := Products(net, w);
    hide Products, Balanced, Rounds;
    TiltedKey(c, up, q[i]);
    TiltedKey(c, up, q[j]);
  }

  lemma TiltedKey(c: int, up: bool, q: int)
    requires 0 <= q <= FULL * MOST_CENTS && NearQuotient(q, Tilt(c, up, q))
    ensures var x := Tilt(c, up, q);
      x - x.Floor as real == (q % FULL) as real / 10000.0
        + if q != c || c % FULL == 0 then 0.0 else if up then HalfGap(c) else -HalfGap(c)
  {
    QuotientParts(q, Tilt(c, up, q));
    assert q as real == 10000.0 * (q / FULL) as real + (q % FULL) as real;
  }

  /** The tied share one positive remainder. */
  lemma TiedRest(net: int, w: seq<int>, i: nat, j: nat)
    requires Balanced(w) && 0 <= net <= MOST_CENTS && Tied(net, w, i) && Tied(net, w, j)
    ensures i < |w| && j < |w| && Products(net, w)[i] % FULL == Products(net, w)[j] % FULL > 0
  {
    LeftoverFits(net, w);
    EdgeIsPositive(Products(net, w), Leftover(net, w), j);
  }

  /** Different weights with a remainder have different products. */
  lemma DifferentProducts(net: int, w: seq<int>, i: nat, j: nat)
    requires Balanced(w) && 0 <= net <= MOST_CENTS && i < |w| && j < |w| && w[i] != w[j]
    requires Products(net, w)[i] % FULL > 0
    ensures Products(net, w)[i] != Products(net, w)[j]
  {
    if !IsExact(net * w[i]) {
      OneProductOff(net, w, i);
    } else if !IsExact(net * w[j]) {
      OneProductOff(net, w, j);
    } else {
      assert net != 0;
      if w[i] < w[j] { Gap(net, w[i], w[j]); } else { Gap(net, w[j], w[i]); }
    }
  }

  /** In a mixed tie there are two different weights, one served and one not by the lower-index order. */
  lemma MixedPair(net: int, w: seq<int>) returns (i: nat, j: nat)
    requires Balanced(w) && 0 <= net <= MOST_CENTS && MixedTie(net, w)
    ensures Tied(net, w, i) && Tied(net, w, j) && i < |w| && j < |w| && w[i] != w[j]
    ensures LowServed(net, w, i) && !LowServed(net, w, j)
  {
    var a, b :| 0 <= a < |w| && 0 <= b < |w| && Tied(net, w, a) && Tied(net, w, b) && w[a] != w[b];
    LeftoverFits(net, w);
    i, j := TiedPair(Products(net, w), Leftover(net, w), a);
    hide Balanced, Products, Leftover, LowerFirst;
    if w[i] == w[j] {
      var c := if w[a] != w[i] then a else b;
      if c in LowerFirst(Products(net, w))[..Leftover(net, w)] { i := c; } else { j := c; }
    }
  }

  /** A mixed tie: rounding one quotient up turns it against the lower index. */
  lemma MixedTieGoesHigh(net: int, w: seq<int>) returns (d: Doubles)
    requires Balanced(w) && 0 <= net <= MOST_CENTS && MixedTie(net, w)
    ensures Rounds(d) && Allocation(d, net, w) != RoundedSplit(net, w)
  {
    var i, j := MixedPair(net, w);
    TiedRest(net, w, i, j);
    DifferentProducts(net, w, i, j);
    var c := Products(net, w)[j];
    d := Tilted(c, true);
    TiltedRounds(c, true);
    hide Allocation, RoundedSplit, Balanced, Rounds, Products, LowServed, Tied;
    ErrorGoesHigh(d, net, w, i, j);
  }

  /** Equal weights have equal errors. */
  lemma OneWeightKeepsTheTie(d: Doubles, net: int, w: seq<int>)
    requires Balanced(w) && 0 <= net <= MOST_CENTS && !MixedTie(net, w)
    ensures ErrorsKeepTheTie(d, net, w)
  {
    hide Balanced, Tied, LowServed, Error;
  }

  /** For every admitted amount, ties go to the lower index however the quotients round if and only if
      no two different weights tie across the last place served. */
  lemma TiesGoLowExactly(net: int, w: seq<int>)
    requires Balanced(w) && 0 <= net <= MOST_CENTS
    ensures (forall d :: Rounds(d) ==> Allocation(d, net, w) == RoundedSplit(net, w)) <==> !MixedTie(net, w)
    ensures ExactSize(net, w) ==> RoundedSplit(net, w) == LowerIndexSplit(net, w)
  {
    hide Rounds, Balanced, MixedTie, Allocation, Served, LowerFirst, Wholes, Sum, Products, ErrorsKeepTheTie;
    if MixedTie(net, w) {
      var d := MixedTieGoesHigh(net, w);
    } else {
      forall d | Rounds(d) ensures Allocation(d, net, w) == RoundedSplit(net, w) {
        OneWeightKeepsTheTie(d, net, w);
        TiesByError(d, net, w);
      }
    }
    if ExactSize(net, w) { ExactSizesAreExact(net, w); }
  }

  // ------------------------------------------------------------------ when exact remainders decide

  /** A recipient whose product was rounded ties, once rounded, across the last place served. */
  predicate OffAtTheEdge(net: int, w: seq<int>) {
    exists b :: 0 <= b < |w| && !IsExact(net * w[b]) && Tied(net, w, b)
  }

  /** Then its exact remainder differs by exactly one from that of each other one it ties with. */
  lemma OffByExactlyOne(net: int, w: seq<int>, b: nat, i: nat)
    requires Balanced(w) && 0 <= net <= MOST_CENTS && b < |w| && i < |w| && i != b
    requires !IsExact(net * w[b]) && Tied(net, w, b) && Tied(net, w, i)
    ensures net * w[b] % FULL == net * w[i] % FULL + net * w[b] - Products(net, w)[b]
    ensures net * w[b] - Products(net, w)[b] == if net * w[b] % 4 == 3 then -1 else 1
    ensures Products(net, w)[b] / FULL == Share(net, w[b])
    ensures Products(net, w)[i] == net * w[i] < Products(net, w)[b]
  {
    TiedRest(net, w, b, i);
    OneProductOff(net, w, b);
    ShareInRange(net, w, b);
    RoundedShare(net * w[b], Products(net, w)[b]);
  }

  /** Served with equal rounded remainders on both sides: a tie. */
  lemma TieIsTied(d: Doubles, net: int, w: seq<int>, i: nat, j: nat)
    requires Rounds(d) && Balanced(w) && 0 <= net <= MOST_CENTS && i < |w| && j < |w|
    requires IsServed(d, net, w, i) && !IsServed(d, net, w, j)
    ensures Products(net, w)[i] % FULL >= Products(net, w)[j] % FULL
    ensures Products(net, w)[i] % FULL == Products(net, w)[j] % FULL ==> Tied(net, w, i) && Tied(net, w, j)
  {
    LeftoverFits(net, w);
    SortIsPermitted(d, net, w);
    var q := Products(net, w);
    hide Rounds, Balanced, Permitted, SortOrder, AtTheEdge, Leftover, Products;
    ServedInOrder(q, SortOrder(d, q), Leftover(net, w), i, j);
    if q[i] % FULL == q[j] % FULL { TieInAnyOrder(q, SortOrder(d, q), Leftover(net, w), i, j); }
  }

  /** A rounded product ties across the last place served, and is served although it was rounded up or
      passed over although it was rounded down. */
  predicate RoundedWrongWay(d: Doubles, net: int, w: seq<int>)
    requires Balanced(w) && 0 <= net <= MOST_CENTS
  {
    exists b :: 0 <= b < |w| && !IsExact(net * w[b]) && Tied(net, w, b) && (IsServed(d, net, w, b) <==> net * w[b] % 4 == 3)
  }

  /** An extra cent means being served, or the largest remainder. */
  lemma ExtraIsServed(d: Doubles, net: int, w: seq<int>, i: nat)
    requires Rounds(d) && Balanced(w) && 0 <= net <= MOST_CENTS && i < |w|
    requires Allocation(d, net, w)[i] > Share(net, w[i])
    ensures net * w[i] % FULL == FULL - 1 || (IsServed(d, net, w, i) && Products(net, w)[i] / FULL == Share(net, w[i]))
  {
    AllocationAt(d, net, w, i);
    ShareInRange(net, w, i);
    hide Rounds, Balanced, Allocation, Products, IsServed, Sum, DoubleProduct;
    RoundedShare(net * w[i], Products(net, w)[i]);
  }

  lemma NoExtraIsNotServed(d: Doubles, net: int, w: seq<int>, i: nat)
    requires Rounds(d) && Balanced(w) && 0 <= net <= MOST_CENTS && i < |w|
    requires Allocation(d, net, w)[i] == Share(net, w[i])
    ensures !IsServed(d, net, w, i) && Products(net, w)[i] / FULL == Share(net, w[i])
  {
    AllocationAt(d, net, w, i);
    ShareInRange(net, w, i);
    hide Rounds, Balanced, Allocation, Products, IsServed, Sum, DoubleProduct;
    RoundedShare(net * w[i], Products(net, w)[i]);
  }

  /** How the remainder moves with the rounding, as long as the whole cents stay. */
  lemma RestMoves(net: int, w: seq<int>, i: nat)
    requires Balanced(w) && 0 <= net <= MOST_CENTS && i < |w| && Products(net, w)[i] / FULL == Share(net, w[i])
    ensures Products(net, w)[i] % FULL == net * w[i] % FULL
      + if IsExact(net * w[i]) then 0 else if net * w[i] % 4 == 3 then 1 else -1
  {
    ShareInRange(net, w, i);
    RoundedShare(net * w[i], Products(net, w)[i]);
  }

  /** Otherwise a served recipient's exact remainder is no smaller than one passed over. */
  lemma ExactPair(d: Doubles, net: int, w: seq<int>, i: nat, j: nat)
    requires Rounds(d) && Balanced(w) && 0 <= net <= MOST_CENTS && i < |w| && j < |w| && !RoundedWrongWay(d, net, w)
    requires Allocation(d, net, w)[i] > Share(net, w[i]) && Allocation(d, net, w)[j] == Share(net, w[j])
    ensures net * w[i] % FULL >= net * w[j] % FULL
  {
    hide Rounds, Balanced, Allocation, Products, IsServed, Tied, Sum, IsExact, DoubleProduct, Share;
    ExtraIsServed(d, net, w, i);
    NoExtraIsNotServed(d, net, w, j);
    OffElsewhere(net, w, i, j);
    if net * w[i] % FULL != FULL - 1 {
      RestMoves(net, w, i);
      RestMoves(net, w, j);
      TieIsTied(d, net, w, i, j);
    }
  }

  lemma NotWrongWay(d: Doubles, net: int, w: seq<int>)
    requires Rounds(d) && Balanced(w) && 0 <= net <= MOST_CENTS && !RoundedWrongWay(d, net, w)
    ensures ByRemainder(Exactly(net, w), Allocation(d, net, w))
  {
    var p, a := Exactly(net, w), Allocation(d, net, w);
    hide Rounds, Balanced, Allocation, RoundedWrongWay, Exactly, Products, Sum;
    forall i | 0 <= i < |w| ensures p[i] / FULL <= a[i] <= p[i] / FULL + 1 { AllocationNearShare(d, net, w, i); }
    forall i, j | 0 <= i < |w| && 0 <= j < |w| && a[i] > p[i] / FULL && a[j] == p[j] / FULL
      ensures p[i] % FULL >= p[j] % FULL
    {
      ExactPair(d, net, w, i, j);
    }
  }

  lemma WrongWay(d: Doubles, net: int, w: seq<int>, b: nat)
    requires Rounds(d) && Balanced(w) && 0 <= net <= MOST_CENTS && b < |w| && !IsExact(net * w[b]) && Tied(net, w, b)
    requires IsServed(d, net, w, b) <==> net * w[b] % 4 == 3
    ensures !ByRemainder(Exactly(net, w), Allocation(d, net, w))
  {
    var i, j := SplitTie(d, net, w, b);
    hide Rounds, Balanced, Allocation, Products, Tied, Exactly, ByRemainder, IsServed, IsExact;
    if net * w[b] % 4 == 3 { WrongPair(d, net, w, b, j); } else { WrongPair(d, net, w, i, b); }
  }

  /** For every admitted amount and every rounding of the quotients, that of the code included: nobody is passed
      over for a strictly smaller exact remainder if and only if no rounded product at the edge goes its wrong way. */
  lemma RemaindersByRounding(d: Doubles, net: int, w: seq<int>)
    requires Rounds(d) && Balanced(w) && 0 <= net <= MOST_CENTS
    ensures ByRemainder(Exactly(net, w), Allocation(d, net, w)) <==> !RoundedWrongWay(d, net, w)
  {
    hide Rounds, Balanced, Allocation, Exactly, ByRemainder, IsServed, Tied, IsExact;
    if RoundedWrongWay(d, net, w) {
      var b :| 0 <= b < |w| && !IsExact(net * w[b]) && Tied(net, w, b) && (IsServed(d, net, w, b) <==> net * w[b] % 4 == 3);
      WrongWay(d, net, w, b);
    } else {
      NotWrongWay(d, net, w);
    }
  }

  /** The rounding that exaggerates how the product of `b` was rounded. */
  function TiltOf(net: int, w: seq<int>, b: nat): Doubles
    requires b < |w|
  {
    Tilted(Products(net, w)[b], net * w[b] % 4 == 3)
  }

  /** At the edge: it serves or passes over the wrong one. */
  lemma AtTheEdgeItGoesWrong(net: int, w: seq<int>, b: nat)
    requires Balanced(w) && 0 <= net <= MOST_CENTS && b < |w| && !IsExact(net * w[b]) && Tied(net, w, b)
    requires Rounds(TiltOf(net, w, b))
    ensures RoundedWrongWay(TiltOf(net, w, b), net, w)
  {
    hide Rounds, Balanced, Products, Tied, TiltOf, IsServed, IsExact;
    var d := TiltOf(net, w, b);
    var i, j := SplitTie(d, net, w, b);
    if net * w[b] % 4 == 3 {
      if i != b { WrongOrder(net, w, b, i); }
    } else {
      if j != b { WrongOrder(net, w, b, j); }
    }
  }

  /** One of the tied is served and another one is not. */
  lemma SplitTie(d: Doubles, net: int, w: seq<int>, b: nat) returns (i: nat, j: nat)
    requires Rounds(d) && Balanced(w) && 0 <= net <= MOST_CENTS && Tied(net, w, b)
    ensures i < |w| && j < |w| && Tied(net, w, i) && Tied(net, w, j)
    ensures IsServed(d, net, w, i) && !IsServed(d, net, w, j)
  {
    LeftoverFits(net, w);
    SortIsPermitted(d, net, w);
    hide Rounds, Balanced, Permitted, SortOrder, Leftover, Products;
    i, j := EdgeIsSplit(Products(net, w), SortOrder(d, Products(net, w)), Leftover(net, w));
  }

  /** The rounded product `b` tilted its own way: up, it is served with `i`; down, `i` is served with it. */
  lemma WrongOrder(net: int, w: seq<int>, b: nat, i: nat)
    requires Balanced(w) && 0 <= net <= MOST_CENTS && b < |w| && i < |w| && i != b
    requires !IsExact(net * w[b]) && Tied(net, w, b) && Tied(net, w, i)
    ensures net * w[b] % 4 == 3 && IsServed(TiltOf(net, w, b), net, w, i) ==> IsServed(TiltOf(net, w, b), net, w, b)
    ensures net * w[b] % 4 != 3 && IsServed(TiltOf(net, w, b), net, w, b) ==> IsServed(TiltOf(net, w, b), net, w, i)
  {
    var d := TiltOf(net, w, b);
    TiedRest(net, w, b, i);
    OneProductOff(net, w, b);
    var c, up := Products(net, w)[b], net * w[b] % 4 == 3;
    hide Balanced, Products, IsServed, Tied, Tilted, Keys, Raw;
    TiltedKeys(net, w, c, up, b, i);
    if up && IsServed(d, net, w, i) { ServedFirst(d, net, w, i, b); }
    if !up && IsServed(d, net, w, b) { ServedFirst(d, net, w, b, i); }
  }

  /** Served with the smaller exact remainder: the remainders do not decide. */
  lemma WrongPair(d: Doubles, net: int, w: seq<int>, i: nat, j: nat)
    requires Rounds(d) && Balanced(w) && 0 <= net <= MOST_CENTS && i < |w| && j < |w| && i != j
    requires Tied(net, w, i) && Tied(net, w, j) && IsServed(d, net, w, i) && !IsServed(d, net, w, j)
    requires (!IsExact(net * w[i]) && net * w[i] % 4 == 3) || (!IsExact(net * w[j]) && net * w[j] % 4 != 3)
    ensures !ByRemainder(Exactly(net, w), Allocation(d, net, w))
  {
    AllocationAt(d, net, w, i);
    AllocationAt(d, net, w, j);
    var p, a := Exactly(net, w), Allocation(d, net, w);
    hide Rounds, Balanced, Allocation, Products, Tied, Sum, IsServed;
    if !IsExact(net * w[i]) && net * w[i] % 4 == 3 { OffByExactlyOne(net, w, i, j); } else { OffByExactlyOne(net, w, j, i); }
    assert a[i] > p[i] / FULL && a[j] == p[j] / FULL && p[i] % FULL < p[j] % FULL;
  }

  lemma AwayFromTheEdge(d: Doubles, net: int, w: seq<int>)
    requires Balanced(w) && 0 <= net <= MOST_CENTS && !OffAtTheEdge(net, w)
    ensures !RoundedWrongWay(d, net, w)
  {
    hide Balanced, Tied, IsExact, IsServed;
  }

  lemma WrongRounding(net: int, w: seq<int>)
    requires Balanced(w) && 0 <= net <= MOST_CENTS && OffAtTheEdge(net, w)
    ensures exists d :: Rounds(d) && !ByRemainder(Exactly(net, w), Allocation(d, net, w))
  {
    var b :| 0 <= b < |w| && !IsExact(net * w[b]) && Tied(net, w, b);
    TiltedRounds(Products(net, w)[b], net * w[b] % 4 == 3);
    hide Rounds, Balanced, Allocation, Exactly, ByRemainder, RoundedWrongWay;
    AtTheEdgeItGoesWrong(net, w, b);
    RemaindersByRounding(TiltOf(net, w, b), net, w);
  }

  /** For every admitted amount, no strictly smaller exact remainder wins however the quotients round if
      and only if no rounded product ties across the last place served. */
  lemma RemaindersDecideExactly(net: int, w: seq<int>)
    requires Balanced(w) && 0 <= net <= MOST_CENTS
    ensures (forall d :: Rounds(d) ==> ByRemainder(Exactly(net, w), Allocation(d, net, w))) <==> !OffAtTheEdge(net, w)
  {
    hide Rounds, Balanced, OffAtTheEdge, Allocation, ByRemainder;
    if OffAtTheEdge(net, w) {
      WrongRounding(net, w);
    } else {
      forall d | Rounds(d) ensures ByRemainder(Exactly(net, w), Allocation(d, net, w)) {
        AwayFromTheEdge(d, net, w);
        RemaindersByRounding(d, net, w);
      }
    }
  }

  // ------------------------------------------------------------------ two inputs

  lemma OrderOfThree(keys: seq<real>, i: nat, j: nat, k: nat)
    requires |keys| == 3 && i < 3 && j < 3 && k < 3
    requires i != j && j != k && i != k && Before(keys, i, j) && Before(keys, j, k)
    ensures Order(keys, 3) == [i, j, k]
  {
    assert !Before(keys, j, i) && !Before(keys, k, j) && !Before(keys, k, i);
    var order := Order(keys, 3);
    hide Order, Before;
    assert Before(keys, order[0], order[1]) && Before(keys, order[1], order[2]) && Before(keys, order[0], order[2]);
    assert forall l :: 0 <= l < 3 ==> order[l] == i || order[l] == j || order[l] == k;
  }

  const FIFTY_TWO: seq<int> := [3500, 4500, 2000]

  lemma SharesOf52()
    ensures Balanced(FIFTY_TWO) && ExactSize(52, FIFTY_TWO) && Exactly(52, FIFTY_TWO) == [182_000, 234_000, 104_000]
    ensures Wholes(Exactly(52, FIFTY_TWO)) == [18, 23, 10] && Rests(Exactly(52, FIFTY_TWO)) == [2000, 4000, 4000]
    ensures ExactLeftover(52, FIFTY_TWO) == 1
  {
    SumOfThree(FIFTY_TWO);
    hide Sum;
    var q := Exactly(52, FIFTY_TWO);
    assert q == [182_000, 234_000, 104_000];
    hide Exactly, Wholes, Rests;
    assert Wholes(q) == [18, 23, 10] && Rests(q) == [2000, 4000, 4000];
    SumOfThree(Wholes(q));
  }

  /** 52 cents split 35/45/20: recipients 1 and 2 tie at 4000 ten-thousandths for the one cent left. */
  lemma TieOf52()
    ensures Balanced(FIFTY_TWO) && TieAtTheEdge(52, FIFTY_TWO) && LowerIndexSplit(52, FIFTY_TWO) == [18, 24, 10]
  {
    hide Balanced, Sum, Order, Exactly, Wholes, Rests, AsReals, Permitted, Served;
    SharesOf52();
    OrderOfThree(AsReals(Rests(Exactly(52, FIFTY_TWO))), 1, 2, 0);
    ServeOne([18, 23, 10], [1, 2, 0]);
  }

  lemma ServeOne(floors: seq<int>, order: seq<nat>)
    requires |floors| == |order| == 3 && Indices(order, 3)
    ensures Served(floors, order, 1) == floors[order[0] := floors[order[0]] + 1]
  {
    assert Served(floors, order, 0) == floors;
  }

  /** The doubles nearest to 18.2, 23.4 and 10.4 give that cent to recipient 2, not to the lower index. */
  lemma RoundingBreaksTheTie(d: Doubles)
    requires Rounds(d)
    requires d.over(182_000) == 5122844576133939.0 / 281474976710656.0
    requires d.over(234_000) == 3293257227514675.0 / 140737488355328.0
    requires d.over(104_000) == 5854679515581645.0 / 562949953421312.0
    ensures Balanced(FIFTY_TWO) && ExactSize(52, FIFTY_TWO) && TieAtTheEdge(52, FIFTY_TWO)
    ensures Allocation(d, 52, FIFTY_TWO) == [18, 23, 11] != LowerIndexSplit(52, FIFTY_TWO)
  {
    hide Rounds, Balanced, ExactSize, Exactly, Products, Wholes, Rests, Keys, Raw, Order, Sum, Served, TieAtTheEdge,
      LowerIndexSplit, Before;
    SharesOf52();
    TieOf52();
    ExactSizesAreExact(52, FIFTY_TWO);
    var q := Exactly(52, FIFTY_TWO);
    FractionsOf52(d, q);
    OrderOfThree(Keys(Raw(d, q)), 2, 1, 0);
    ServeOne([18, 23, 10], [2, 1, 0]);
  }

  lemma FractionsOf52(d: Doubles, q: seq<int>)
    requires Rounds(d) && q == [182_000, 234_000, 104_000]
    requires d.over(182_000) == 5122844576133939.0 / 281474976710656.0
    requires d.over(234_000) == 3293257227514675.0 / 140737488355328.0
    requires d.over(104_000) == 5854679515581645.0 / 562949953421312.0
    ensures var keys := Keys(Raw(d, q)); Before(keys, 2, 1) && Before(keys, 1, 0) && Before(keys, 2, 0)
  {
    FloorIs(d.over(182_000), 18);
    FloorIs(d.over(234_000), 23);
    FloorIs(d.over(104_000), 10);
    var keys := Keys(Raw(d, q));
    assert keys[0] == d.over(182_000) - 18.0 && keys[1] == d.over(234_000) - 23.0 && keys[2] == d.over(104_000) - 10.0;
  }

  lemma SumOfThree(s: seq<int>)
    requires |s| == 3
    ensures Sum(s) == s[0] + s[1] + s[2]
  {
    assert s[..2][..1] == s[..1] && s[..1][..0] == [];
    assert Sum(s[..1]) == s[0] && Sum(s[..2]) == Sum(s[..1]) + s[1];
  }

  const ENORMOUS: int := 999_999_999_697
  const UNEVEN: seq<int> := [9983, 16, 1]

  /** Beyond the exact sizes a strictly smaller exact remainder can win. 999999999697 cents split
      99.83/0.16/0.01 leave two cents and remainders 5151, 5152 and 9697; the first product is odd and
      rounds up to the next even double, so recipient 0 ties with recipient 1 and is served first. */
  lemma RoundedProductOvertakes(d: Doubles)
    requires Rounds(d)
    requires d.over(ENORMOUS * 9983 + 1) == 8178073597522045.0 / 8192.0
    requires d.over(ENORMOUS * 16) == 6710886397966601.0 / 4194304.0
    requires d.over(ENORMOUS) == 6710886397966601.0 / 67108864.0
    ensures Balanced(UNEVEN) && !ExactSize(ENORMOUS, UNEVEN)
    ensures Allocation(d, ENORMOUS, UNEVEN) == [998_299_999_698, 1_599_999_999, 100_000_000]
    ensures !ByRemainder(Exactly(ENORMOUS, UNEVEN), Allocation(d, ENORMOUS, UNEVEN))
  {
    SharesOfEnormous();
    var q := Products(ENORMOUS, UNEVEN);
    FractionsOfEnormous(d, q);
    hide Rounds, Balanced, Products, Wholes, Keys, Raw, Order, Sum, Served, Exactly, ByRemainder, ExactSize, Before, Rests;
    OrderOfThree(Keys(Raw(d, q)), 2, 0, 1);
    ServeTwo([998_299_999_697, 1_599_999_999, 99_999_999], [2, 0, 1]);
    SmallerRemainderServed(Allocation(d, ENORMOUS, UNEVEN));
  }

  lemma SmallerRemainderServed(a: seq<int>)
    requires a == [998_299_999_698, 1_599_999_999, 100_000_000]
    ensures !ByRemainder(Exactly(ENORMOUS, UNEVEN), a)
  {
    var p := Exactly(ENORMOUS, UNEVEN);
    assert p[0] == ENORMOUS * 9983 && p[1] == ENORMOUS * 16;
    assert p[0] / FULL == 998_299_999_697 && p[1] / FULL == 1_599_999_999 && p[0] % FULL == 5151 && p[1] % FULL == 5152;
  }

  lemma SharesOfEnormous()
    ensures Balanced(UNEVEN) && !ExactSize(ENORMOUS, UNEVEN)
    ensures var q := Products(ENORMOUS, UNEVEN);
      && q == [ENORMOUS * 9983 + 1, ENORMOUS * 16, ENORMOUS]
      && Wholes(q) == [998_299_999_697, 1_599_999_999, 99_999_999]
      && Sum(Wholes(q)) == ENORMOUS - 2
  {
    SumOfThree(UNEVEN);
    var q := Products(ENORMOUS, UNEVEN);
    assert !IsExact(ENORMOUS * UNEVEN[0]);
    assert q == [ENORMOUS * 9983 + 1, ENORMOUS * 16, ENORMOUS];
    hide Products, Sum;
    assert Wholes(q) == [998_299_999_697, 1_599_999_999, 99_999_999];
    SumOfThree(Wholes(q));
  }

  lemma FractionsOfEnormous(d: Doubles, q: seq<int>)
    requires q == [ENORMOUS * 9983 + 1, ENORMOUS * 16, ENORMOUS]
    requires d.over(ENORMOUS * 9983 + 1) == 8178073597522045.0 / 8192.0
    requires d.over(ENORMOUS * 16) == 6710886397966601.0 / 4194304.0
    requires d.over(ENORMOUS) == 6710886397966601.0 / 67108864.0
    ensures var keys := Keys(Raw(d, q)); Before(keys, 2, 0) && Before(keys, 0, 1) && Before(keys, 2, 1)
  {
    FloorIs(d.over(ENORMOUS * 9983 + 1), 998_299_999_697);
    FloorIs(d.over(ENORMOUS * 16), 1_599_999_999);
    FloorIs(d.over(ENORMOUS), 99_999_999);
    var raw := Raw(d, q);
    assert raw[0].Floor == 998_299_999_697 && raw[1].Floor == 1_599_999_999 && raw[2].Floor == 99_999_999;
  }

  lemma ServeTwo(floors: seq<int>, order: seq<nat>)
    requires |floors| == |order| == 3 && Indices(order, 3)
    ensures Served(floors, order, 2) == floors[order[0] := floors[order[0]] + 1][order[1] := floors[order[1]] + 1]
  {
    ServeOne(floors, order);
  }

  function Over(q: int): real {
    if q == 182_000 then 5122844576133939.0 / 281474976710656.0
    else if q == 234_000 then 3293257227514675.0 / 140737488355328.0
    else if q == 104_000 then 5854679515581645.0 / 562949953421312.0
    else if q == ENORMOUS * 9983 + 1 then 8178073597522045.0 / 8192.0
    else if q == ENORMOUS * 16 then 6710886397966601.0 / 4194304.0
    else if q == ENORMOUS then 6710886397966601.0 / 67108864.0
    else q as real / 10000.0
  }

  /** Both inputs are consistent with rounding to nearest. */
  lemma BothInputsAreConsistent()
    ensures Balanced(FIFTY_TWO) && Balanced(UNEVEN)
    ensures var d := Doubles(Over);
      && Rounds(d)
      && Allocation(d, 52, FIFTY_TWO) == [18, 23, 11]
      && Allocation(d, ENORMOUS, UNEVEN) == [998_299_999_698, 1_599_999_999, 100_000_000]
  {
    hide Rounds, Allocation, Balanced;
    TheyRound();
    RoundingBreaksTheTie(Doubles(Over));
    RoundedProductOvertakes(Doubles(Over));
  }

  /** So both exact conditions occur. */
  lemma BothConditionsOccur()
    ensures MixedTie(52, FIFTY_TWO) && OffAtTheEdge(ENORMOUS, UNEVEN)
  {
    hide Rounds, Allocation, Balanced, MixedTie, OffAtTheEdge, ExactSize, TieAtTheEdge, LowerIndexSplit, RoundedSplit, ByRemainder;
    var d := Doubles(Over);
    TheyRound();
    RoundingBreaksTheTie(d);
    TiesGoLowExactly(52, FIFTY_TWO);
    assert Allocation(d, 52, FIFTY_TWO) != RoundedSplit(52, FIFTY_TWO);
    RoundedProductOvertakes(d);
    RemaindersDecideExactly(ENORMOUS, UNEVEN);
    assert !ByRemainder(Exactly(ENORMOUS, UNEVEN), Allocation(d, ENORMOUS, UNEVEN));
  }

  lemma TheyRound()
    ensures Rounds(Doubles(Over))
  {
    hide Over;
    forall q | 0 <= q <= FULL * MOST_CENTS ensures NearQuotient(q, Over(q)) { NearOver(q); }
  }

  lemma NearOver(q: int)
    requires 0 <= q
    ensures NearQuotient(q, Over(q))
  {
    assert q as real == 10000.0 * (q / FULL) as real + (q % FULL) as real;
  }

  // ------------------------------------------------------------------ the function itself

  predicate BadAmount(gross: Number, fee: Number) {
    gross.NotFinite? || fee.NotFinite? || gross.value < 0 || fee.value < 0 || fee.value > gross.value
    || gross.value > MOST_CENTS
  }

  predicate BadWeights(weights: seq<Number>) {
    (exists i :: 0 <= i < |weights| && (weights[i].NotFinite? || weights[i].value < 0)) || Sum(Values(weights)) != FULL
  }

  function Values(weights: seq<Number>): (r: seq<int>)
    ensures |r| == |weights| && forall i :: 0 <= i < |r| ==> r[i] == if weights[i].Whole? then weights[i].value else 0
  {
    if weights == [] then []
    else Values(weights[..|weights| - 1]) + [if weights[|weights| - 1].Whole? then weights[|weights| - 1].value else 0]
  }

  /** `percentages` is `None` when it is not an array. Every accepted request is divided fairly; every
      other is refused with the first error that applies. */
  method SplitCents(d: Doubles, gross: Number, fee: Number, percentages: Option<seq<Number>>)
    returns (r: Result<Split, SplitError>)
    requires Rounds(d)
    ensures r == Err(BadAmounts) <==> BadAmount(gross, fee)
    ensures r == Err(BadRecipients) <==>
      !BadAmount(gross, fee) && (percentages.None? || !(0 < |percentages.value| <= MOST_RECIPIENTS))
    ensures r == Err(BadPercentages) ==> percentages.Some? && BadWeights(percentages.value)
    ensures r.Ok? ==>
      && percentages.Some? && !BadWeights(percentages.value) && Balanced(Values(percentages.value))
      && r.value.gross == gross.value && r.value.fee == fee.value && r.value.net == gross.value - fee.value
      && FairSplit(r.value.net, Values(percentages.value), r.value.allocations)
      && r.value.allocations == Allocation(d, r.value.net, Values(percentages.value))
    ensures r.Err? && r.error == BadAmounts <==>
      !(gross.Whole? && fee.Whole? && 0 <= fee.value <= gross.value <= 1_000_000_000_000)
    ensures r.Ok? <==>
      && gross.Whole? && fee.Whole? && 0 <= fee.value <= gross.value <= 1_000_000_000_000
      && percentages.Some? && 1 <= |percentages.value| <= 20
      && (forall i :: 0 <= i < |percentages.value| ==> percentages.value[i].Whole? && percentages.value[i].value >= 0)
      && Sum(Values(percentages.value)) == 10_000
  {
    if gross.NotFinite? || fee.NotFinite? || gross.value < 0 || fee.value < 0 || fee.value > gross.value
       || gross.value > MOST_CENTS {
      return Err(BadAmounts);
    }
    assert !BadAmount(gross, fee);
    hide Rounds, Allocation, FairSplit, Sum, Values, BadAmount, BadWeights, Balanced;
    if percentages.None? || percentages.value == [] || |percentages.value| > MOST_RECIPIENTS { return Err(BadRecipients); }
    var weights := percentages.value;
    WeightsExactly(weights);
    if BadWeights(weights) { return Err(BadPercentages); }
    GoodWeights(weights);
    var net := gross.value - fee.value;
    var allocations := Divide(d, net, Values(weights));
    return Ok(Split(gross.value, fee.value, net, allocations));
  }

  lemma WeightsExactly(weights: seq<Number>)
    ensures !BadWeights(weights) <==>
      (forall i :: 0 <= i < |weights| ==> weights[i].Whole? && weights[i].value >= 0) && Sum(Values(weights)) == 10_000
  {
    hide Sum, Values;
  }

  lemma GoodWeights(weights: seq<Number>)
    requires weights != [] && !BadWeights(weights)
    ensures Balanced(Values(weights))
  {
    hide Sum, Values;
  }

  method Divide(d: Doubles, net: int, w: seq<int>) returns (r: seq<int>)
    requires Rounds(d) && Balanced(w) && 0 <= net <= MOST_CENTS
    ensures r == Allocation(d, net, w) && FairSplit(net, w, r)
  {
    hide Rounds, Balanced, FairSplit, Order, Sum, Served, Products, Raw, Keys, Cents, Wholes, Rests;
    var q := Products(net, w);
    var raw := Raw(d, q);
    CentsAreWholes(d, net, w);
    LeftoverFits(net, w);
    var cents := Cents(raw);
    var remainder := net - Sum(cents);
    var order := Order(Keys(raw), |w|);
    r := HandOut(cents, order, remainder);
    AllocationIsFair(d, net, w);
  }

  /** One extra cent to each of the first `remainder` recipients: `i % |order|` never wraps around. */
  method HandOut(floors: seq<int>, order: seq<nat>, remainder: nat) returns (r: seq<int>)
    requires Indices(order, |floors|) && |order| == |floors| && remainder < |floors|
    ensures r == Served(floors, order, remainder) && Sum(r) == Sum(floors) + remainder
    ensures |r| == |floors|
    ensures forall j :: 0 <= j < |floors| ==> r[j] == floors[j] + if j in order[..remainder] then 1 else 0
  {
    var n := |floors|;
    var cents := new int[n];
    forall j | 0 <= j < n { cents[j] := floors[j]; }
    assert cents[..] == floors;
    var i := 0;
    while i < remainder
      invariant 0 <= i <= remainder
      invariant cents[..] == Served(floors, order, i)
    {
      SmallModulo(i, |order|);
      var k := order[i % |order|];
      ghost var before := cents[..];
      cents[k] := cents[k] + 1;
      assert cents[..] == before[k := before[k] + 1];
      i := i + 1;
    }
    ServedAt(floors, order, remainder);
    return cents[..];
  }

  lemma SmallModulo(i: nat, n: nat)
    requires i < n
    ensures i % n == i
  {
  }
}
