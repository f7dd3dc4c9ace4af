/**
 Dividing a whole amount by largest remainders. Share `i` is `q[i]` ten-thousandths: it is
 rounded down, and what is left over goes one by one to the first shares of an order in which a
 strictly larger remainder always comes first. What ties do is up to the order.
 */
module LargestRemainder {
  import opened Sums

  function Wholes(q: seq<int>): (r: seq<int>)
    ensures |r| == |q| && forall i :: 0 <= i < |q| ==> r[i] == q[i] / FULL
  {
    if q == [] then [] else Wholes(q[..|q| - 1]) + [q[|q| - 1] / FULL]
  }

  function Rests(q: seq<int>): (r: seq<int>)
    ensures |r| == |q| && forall i :: 0 <= i < |q| ==> r[i] == q[i] % FULL
  {
    if q == [] then [] else Rests(q[..|q| - 1]) + [q[|q| - 1] % FULL]
  }

  // ------------------------------------------------------------------ orders

  predicate Indices(order: seq<nat>, n: nat) {
    && (forall k :: 0 <= k < |order| ==> order[k] < n)
    && (forall k, l :: 0 <= k < l < |order| ==> order[k] != order[l])
  }

  /** Every index below `n`, once. */
  ghost predicate Complete(order: seq<nat>, n: nat) {
    |order| == n && Indices(order, n) && forall x: nat :: x in order <==> x < n
  }

  /** A complete order in which a strictly larger remainder always comes first. */
  ghost predicate Permitted(q: seq<int>, order: seq<nat>) {
    && Complete(order, |q|)
    && forall k, l :: 0 <= k < l < |order| ==> Rests(q)[order[k]] >= Rests(q)[order[l]]
  }

  /** Index `i` is sorted before `j`: a larger key, and on equal keys the lower index. */
  predicate Before(keys: seq<real>, i: nat, j: nat)
    requires i < |keys| && j < |keys|
  {
    keys[i] > keys[j] || (keys[i] == keys[j] && i < j)
  }

  predicate Ranked(keys: seq<real>, order: seq<nat>)
    requires Indices(order, |keys|)
  {
    forall k, l :: 0 <= k < l < |order| ==> Before(keys, order[k], order[l])
  }

  lemma ExtendRanked(keys: seq<real>, order: seq<nat>, last: nat)
    requires Indices(order, |keys|) && Ranked(keys, order) && last < |keys| && last !in order
    requires forall x: nat :: x in order ==> x < |keys| && Before(keys, x, last)
    ensures Indices(order + [last], |keys|) && Ranked(keys, order + [last])
  {
    var r := order + [last];
    forall k, l | 0 <= k < l < |r| ensures r[k] != r[l] && Before(keys, r[k], r[l]) {
      if l == |order| { assert r[k] in order; }
    }
  }

  /** Everything in a ranked order comes before what its last entry comes before. */
  lemma LastBefore(keys: seq<real>, order: seq<nat>, i: nat)
    requires order != [] && Indices(order, |keys|) && Ranked(keys, order) && i < |keys|
    requires Before(keys, order[|order| - 1], i)
    ensures forall x: nat :: x in order ==> x < |keys| && Before(keys, x, i)
  {
    forall x: nat | x in order ensures x < |keys| && Before(keys, x, i) {
      var k :| 0 <= k < |order| && order[k] == x;
      if k < |order| - 1 { assert Before(keys, order[k], order[|order| - 1]); }
    }
  }

  lemma InitBefore(keys: seq<real>, order: seq<nat>)
    requires order != [] && Indices(order, |keys|) && Ranked(keys, order)
    ensures var n := |order| - 1;
      && order[n] !in order[..n] && order == order[..n] + [order[n]]
      && Indices(order[..n], |keys|) && Ranked(keys, order[..n])
      && forall x: nat :: x in order[..n] ==> x < |keys| && Before(keys, x, order[n])
  {
    var n := |order| - 1;
    forall x: nat | x in order[..n] ensures x < |keys| && Before(keys, x, order[n]) {
      var k :| 0 <= k < n && order[k] == x;
    }
  }

  /** One step of the sort by the comparator. */
  function Place(keys: seq<real>, order: seq<nat>, i: nat): (r: seq<nat>)
    requires i < |keys| && Indices(order, |keys|) && Ranked(keys, order) && i !in order
    ensures Indices(r, |keys|) && Ranked(keys, r)
    ensures |r| == |order| + 1 && forall x: nat :: x in r <==> x in order || x == i
  {
    if order == [] then [i]
    else
      var n := |order| - 1;
      InitBefore(keys, order);
      if Before(keys, order[n], i) then
        LastBefore(keys, order, i);
        ExtendRanked(keys, order, i);
        order + [i]
      else
        var r := Place(keys, order[..n], i);
        ExtendRanked(keys, r, order[n]);
        r + [order[n]]
  }

  /** The indices below `n` sorted by the comparator. */
  function Order(keys: seq<real>, n: nat): (r: seq<nat>)
    requires n <= |keys|
    ensures Indices(r, |keys|) && Ranked(keys, r) && |r| == n && forall x: nat :: x in r <==> x < n
  {
    if n == 0 then [] else Place(keys, Order(keys, n - 1), n - 1)
  }

  // ------------------------------------------------------------------ serving the leftover

  /** `floors` with one more at each of the first `k` indices of the order. */
  function Served(floors: seq<int>, order: seq<nat>, k: nat): (r: seq<int>)
    requires Indices(order, |floors|) && k <= |order|
    ensures |r| == |floors|
  {
    if k == 0 then floors
    else
      var r := Served(floors, order, k - 1);
      r[order[k - 1] := r[order[k - 1]] + 1]
  }

  lemma {:induction false} ServedAt(floors: seq<int>, order: seq<nat>, k: nat)
    requires Indices(order, |floors|) && k <= |order|
    ensures Sum(Served(floors, order, k)) == Sum(floors) + k
    ensures forall j :: 0 <= j < |floors| ==> Served(floors, order, k)[j] == floors[j] + if j in order[..k] then 1 else 0
  {
    if k > 0 {
      var r, last := Served(floors, order, k - 1), order[k - 1];
      ServedAt(floors, order, k - 1);
      SumUpdate(r, last, r[last] + 1);
      assert order[..k] == order[..k - 1] + [last];
      assert last !in order[..k - 1];
    }
  }

  /** Each amount is its share rounded down or one more, and no share is passed over for one with
      a strictly smaller remainder. */
  ghost predicate ByRemainder(q: seq<int>, a: seq<int>) {
    && |a| == |q|
    && (forall i :: 0 <= i < |q| ==> q[i] / FULL <= a[i] <= q[i] / FULL + 1)
    && (forall i, j :: 0 <= i < |q| && 0 <= j < |q| && a[i] > q[i] / FULL && a[j] == q[j] / FULL
          ==> q[i] % FULL >= q[j] % FULL)
  }

  /** The place of `x` in a complete order, and whether that is among the first `k`. */
  lemma PlaceOf(order: seq<nat>, n: nat, k: nat, x: nat) returns (p: nat)
    requires Complete(order, n) && x < n && k <= n
    ensures p < n && order[p] == x && (x in order[..k] <==> p < k)
  {
    assert x in order;
    p :| 0 <= p < n && order[p] == x;
    assert p < k ==> order[..k][p] == x;
  }

  lemma ServedInOrder(q: seq<int>, order: seq<nat>, k: nat, i: nat, j: nat)
    requires Permitted(q, order) && k <= |q| && i < |q| && j < |q| && i in order[..k] && j !in order[..k]
    ensures q[i] % FULL >= q[j] % FULL
  {
    var m := PlaceOf(order, |q|, k, i);
    var p := PlaceOf(order, |q|, k, j);
    assert Rests(q)[order[m]] >= Rests(q)[order[p]];
  }

  lemma ServedByRemainder(q: seq<int>, order: seq<nat>, k: nat)
    requires Permitted(q, order) && k <= |q|
    ensures ByRemainder(q, Served(Wholes(q), order, k)) && Sum(Served(Wholes(q), order, k)) == Sum(Wholes(q)) + k
  {
    hide Served, Wholes;
    var f := Wholes(q);
    ServedAt(f, order, k);
    var a := Served(f, order, k);
    hide Permitted;
    forall i, j | 0 <= i < |q| && 0 <= j < |q| && a[i] > q[i] / FULL && a[j] == q[j] / FULL
      ensures q[i] % FULL >= q[j] % FULL
    {
      ServedInOrder(q, order, k, i, j);
    }
  }

  lemma {:induction false} RestsAccount(q: seq<int>)
    ensures Sum(q) == FULL * Sum(Wholes(q)) + Sum(Rests(q))
    ensures 0 <= Sum(Rests(q)) <= (FULL - 1) * |q|
  {
    if q != [] {
      var n := |q| - 1;
      RestsAccount(q[..n]);
      SumAppend(Wholes(q[..n]), q[n] / FULL);
      SumAppend(Rests(q[..n]), q[n] % FULL);
    }
  }

  lemma {:induction false} RestsCovered(rests: seq<int>, a: seq<int>, f: seq<int>)
    requires |rests| == |a| == |f|
    requires forall j :: 0 <= j < |a| ==> rests[j] <= (FULL - 1) * (a[j] - f[j])
    ensures Sum(rests) <= (FULL - 1) * (Sum(a) - Sum(f))
  {
    if a != [] {
      var n := |a| - 1;
      RestsCovered(rests[..n], a[..n], f[..n]);
    }
  }

  /** A share without a remainder gets nothing extra, as long as the remainders account for the
      leftover to within one ten-thousandth. */
  lemma WholeShareGetsNoExtra(q: seq<int>, a: seq<int>, i: nat)
    requires ByRemainder(q, a) && FULL * (Sum(a) - Sum(Wholes(q))) <= Sum(Rests(q)) + 1
    requires i < |q| && q[i] % FULL == 0
    ensures a[i] == q[i] / FULL
  {
    hide ByRemainder, Sum, Wholes, Rests;
    Bounds(q, a);
    var f := Wholes(q);
    SumMonotone(f, a);
    if a[i] != f[i] {
      var b := a[i := f[i]];
      forall j | 0 <= j < |q| ensures Rests(q)[j] <= (FULL - 1) * (b[j] - f[j]) {
        Covered(q, a, i, j);
      }
      SumUpdate(a, i, f[i]);
      RestsCovered(Rests(q), b, f);
    }
  }

  lemma Covered(q: seq<int>, a: seq<int>, i: nat, j: nat)
    requires ByRemainder(q, a) && i < |q| && j < |q| && q[i] % FULL == 0 && a[i] > q[i] / FULL
    ensures q[j] % FULL <= (FULL - 1) * ((if j == i then q[i] / FULL else a[j]) - q[j] / FULL)
  {
    assert a[j] == q[j] / FULL ==> q[i] % FULL >= q[j] % FULL;
  }

  /** A larger share never receives less. */
  lemma LargerShareNeverLess(q: seq<int>, a: seq<int>, i: nat, j: nat)
    requires ByRemainder(q, a) && i < |q| && j < |q| && q[i] > q[j]
    ensures a[i] >= a[j]
  {
    assert q[i] / FULL > q[j] / FULL || (q[i] / FULL == q[j] / FULL && q[i] % FULL > q[j] % FULL);
  }

  // ------------------------------------------------------------------ when ties matter

  function AsReals(s: seq<int>): (r: seq<real>)
    ensures |r| == |s| && forall i :: 0 <= i < |s| ==> r[i] == s[i] as real
  {
    if s == [] then [] else AsReals(s[..|s| - 1]) + [s[|s| - 1] as real]
  }

  /** The permitted order that breaks ties by the lower index. */
  function LowerFirst(q: seq<int>): (order: seq<nat>)
    ensures Permitted(q, order) && Indices(order, |q|) && |order| == |q|
  {
    var order := Order(AsReals(Rests(q)), |q|);
    assert forall k, l :: 0 <= k < l < |order| ==> Before(AsReals(Rests(q)), order[k], order[l]);
    order
  }

  /** The last share served and the first one not served have the same remainder. */
  predicate TieStraddles(q: seq<int>, leftover: int) {
    0 < leftover < |q| && Rests(q)[LowerFirst(q)[leftover - 1]] == Rests(q)[LowerFirst(q)[leftover]]
  }

  /** Without such a tie, whatever keeps larger remainders first serves all that the lower-index order serves,
      as soon as it serves anything else. */
  lemma NoTieDominates(q: seq<int>, a: seq<int>, leftover: nat, i: nat, j: nat)
    requires ByRemainder(q, a) && leftover <= |q| && !TieStraddles(q, leftover) && i < |q| && j < |q|
    requires a[i] > q[i] / FULL && i !in LowerFirst(q)[..leftover] && j in LowerFirst(q)[..leftover]
    ensures a[j] > q[j] / FULL
  {
    var low, rests := LowerFirst(q), Rests(q);
    var m := PlaceOf(low, |q|, leftover, i);
    var p := PlaceOf(low, |q|, leftover, j);
    assert rests[low[leftover - 1]] >= rests[low[leftover]];
    assert p < leftover - 1 ==> rests[low[p]] >= rests[low[leftover - 1]];
    assert leftover < m ==> rests[low[leftover]] >= rests[low[m]];
  }

  /** Unless a tie straddles the last place served, the amounts are determined by their sum and by larger
      remainders coming first. */
  lemma UniqueWithoutTie(q: seq<int>, a: seq<int>, leftover: nat)
    requires ByRemainder(q, a) && Sum(a) == Sum(Wholes(q)) + leftover
    requires leftover <= |q| && !TieStraddles(q, leftover)
    ensures a == Served(Wholes(q), LowerFirst(q), leftover)
  {
    var low := LowerFirst(q);
    ServedAt(Wholes(q), low, leftover);
    var b := Served(Wholes(q), low, leftover);
    hide Served, LowerFirst, ByRemainder, TieStraddles;
    assert forall i :: 0 <= i < |q| ==> q[i] / FULL <= a[i] <= q[i] / FULL + 1 by { Bounds(q, a); }
    forall i | 0 <= i < |q| ensures a[i] <= b[i] {
      if a[i] > b[i] {
        forall j | 0 <= j < |q| ensures b[j] <= a[j] {
          if j in low[..leftover] { NoTieDominates(q, a, leftover, i, j); }
        }
        SumStrict(b, a, i);
      }
    }
    if a != b {
      var i :| 0 <= i < |q| && a[i] != b[i];
      SumStrict(a, b, i);
    }
  }

  lemma Bounds(q: seq<int>, a: seq<int>)
    requires ByRemainder(q, a)
    ensures |a| == |q| && forall i :: 0 <= i < |q| ==> q[i] / FULL <= a[i] <= q[i] / FULL + 1
  {
  }

  lemma NoTieSameAnswer(q: seq<int>, order: seq<nat>, leftover: nat)
    requires Permitted(q, order) && leftover <= |q| && !TieStraddles(q, leftover)
    ensures Served(Wholes(q), order, leftover) == Served(Wholes(q), LowerFirst(q), leftover)
  {
    hide Served, LowerFirst, ByRemainder, TieStraddles;
    ServedByRemainder(q, order, leftover);
    UniqueWithoutTie(q, Served(Wholes(q), order, leftover), leftover);
  }

  /** Where the tie straddles, swapping the tied pair is permitted and changes the answer. */
  lemma TieChangesAnswer(q: seq<int>, leftover: nat) returns (order: seq<nat>)
    requires TieStraddles(q, leftover)
    ensures Permitted(q, order)
    ensures Served(Wholes(q), order, leftover) != Served(Wholes(q), LowerFirst(q), leftover)
  {
    order := SwapPermitted(q, LowerFirst(q), leftover);
    hide Permitted, Served, TieStraddles, Wholes, LowerFirst, Rests;
    var low := LowerFirst(q);
    ServedAt(Wholes(q), order, leftover);
    ServedAt(Wholes(q), low, leftover);
    assert order[..leftover][leftover - 1] == low[leftover] && low[leftover] !in low[..leftover];
  }

  lemma SwapPermitted(q: seq<int>, order: seq<nat>, k: nat) returns (swapped: seq<nat>)
    requires Permitted(q, order) && 0 < k < |q| && Rests(q)[order[k - 1]] == Rests(q)[order[k]]
    ensures swapped == order[k - 1 := order[k]][k := order[k - 1]] && Permitted(q, swapped)
  {
    swapped := order[k - 1 := order[k]][k := order[k - 1]];
    SwapComplete(order, k, |q|);
    var rests := Rests(q);
    forall l | 0 <= l < |q| ensures rests[swapped[l]] == rests[order[l]] {}
    forall l, m | 0 <= l < m < |q| ensures rests[swapped[l]] >= rests[swapped[m]] {
      assert rests[order[l]] >= rests[order[m]];
    }
  }

  lemma SwapComplete(order: seq<nat>, k: nat, n: nat)
    requires Complete(order, n) && 0 < k < n
    ensures Complete(order[k - 1 := order[k]][k := order[k - 1]], n)
  {
    var swapped := order[k - 1 := order[k]][k := order[k - 1]];
    forall x: nat ensures x in swapped <==> x < n {
      if x < n {
        assert x in order;
        var m :| 0 <= m < n && order[m] == x;
        var at := if m == k then k - 1 else if m == k - 1 then k else m;
        assert swapped[at] == x;
      }
    }
  }

  /** Every permitted order gives the lower-index answer. */
  ghost predicate OneAnswer(q: seq<int>, leftover: nat)
    requires leftover <= |q|
  {
    forall order :: Permitted(q, order) ==>
      Served(Wholes(q), order, leftover) == Served(Wholes(q), LowerFirst(q), leftover)
  }

  /** There is one answer if and only if no tie straddles the last place served. */
  lemma TiesMatterExactly(q: seq<int>, leftover: nat)
    requires leftover <= |q|
    ensures OneAnswer(q, leftover) <==> !TieStraddles(q, leftover)
  {
    if TieStraddles(q, leftover) {
      var order := TieChangesAnswer(q, leftover);
    } else {
      forall order | Permitted(q, order)
        ensures Served(Wholes(q), order, leftover) == Served(Wholes(q), LowerFirst(q), leftover)
      {
        NoTieSameAnswer(q, order, leftover);
      }
    }
  }

  // ------------------------------------------------------------------ who is at the edge

  /** Share `i` is one of those tied across the last place served. */
  predicate AtTheEdge(q: seq<int>, leftover: int, i: nat) {
    i < |q| && TieStraddles(q, leftover) && Rests(q)[i] == Rests(q)[LowerFirst(q)[leftover]]
  }

  /** What one order serves and another does not is made up for elsewhere. */
  lemma SomeoneElse(q: seq<int>, order: seq<nat>, other: seq<nat>, k: nat, x: nat) returns (y: nat)
    requires Permitted(q, order) && Permitted(q, other) && k <= |q| && x < |q|
    requires x in order[..k] && x !in other[..k]
    ensures y < |q| && y in other[..k] && y !in order[..k]
  {
    assert Complete(order, |q|) && Complete(other, |q|);
    hide Permitted, Served;
    var f := Wholes(q);
    ServedAt(f, order, k);
    ServedAt(f, other, k);
    var a, b := Served(f, order, k), Served(f, other, k);
    if forall y :: 0 <= y < |q| && y in other[..k] ==> y in order[..k] {
      SumStrict(b, a, x);
      assert false;
    }
    y :| 0 <= y < |q| && y in other[..k] && y !in order[..k];
  }

  /** Equal remainders on both sides of the last place in the lower-index order are a tie at the edge. */
  lemma LowTie(q: seq<int>, leftover: nat, i: nat, j: nat)
    requires leftover <= |q| && i < |q| && j < |q| && q[i] % FULL == q[j] % FULL
    requires i in LowerFirst(q)[..leftover] && j !in LowerFirst(q)[..leftover]
    ensures AtTheEdge(q, leftover, i) && AtTheEdge(q, leftover, j)
  {
    var low, rests := LowerFirst(q), Rests(q);
    var m := PlaceOf(low, |q|, leftover, i);
    var p := PlaceOf(low, |q|, leftover, j);
    hide LowerFirst;
    assert m < leftover - 1 ==> rests[low[m]] >= rests[low[leftover - 1]];
    assert leftover < p ==> rests[low[leftover]] >= rests[low[p]];
    assert rests[low[leftover - 1]] >= rests[low[leftover]];
  }

  /** Equal remainders on both sides of the last place in any permitted order are one, too. */
  lemma TieInAnyOrder(q: seq<int>, order: seq<nat>, leftover: nat, i: nat, j: nat)
    requires Permitted(q, order) && leftover <= |q| && i < |q| && j < |q| && q[i] % FULL == q[j] % FULL
    requires i in order[..leftover] && j !in order[..leftover]
    ensures AtTheEdge(q, leftover, i) && AtTheEdge(q, leftover, j)
  {
    hide AtTheEdge, LowerFirst, Permitted;
    var low := LowerFirst(q);
    if i in low[..leftover] && j in low[..leftover] {
      var k := SomeoneElse(q, low, order, leftover, j);
      ServedInOrder(q, order, leftover, k, j);
      ServedInOrder(q, low, leftover, j, k);
      LowTie(q, leftover, j, k);
      LowTie(q, leftover, i, k);
    } else if i !in low[..leftover] && j !in low[..leftover] {
      var k := SomeoneElse(q, order, low, leftover, i);
      ServedInOrder(q, order, leftover, i, k);
      ServedInOrder(q, low, leftover, k, i);
      LowTie(q, leftover, k, i);
      LowTie(q, leftover, k, j);
    } else if i in low[..leftover] {
      LowTie(q, leftover, i, j);
    } else {
      LowTie(q, leftover, j, i);
    }
  }

  /** Whatever two permitted orders serve differently is tied at the edge. */
  lemma SwappedAreTied(q: seq<int>, order: seq<nat>, leftover: nat, i: nat, j: nat)
    requires Permitted(q, order) && leftover <= |q| && i < |q| && j < |q|
    requires i in order[..leftover] && j !in order[..leftover]
    requires i !in LowerFirst(q)[..leftover] && j in LowerFirst(q)[..leftover]
    ensures AtTheEdge(q, leftover, i) && AtTheEdge(q, leftover, j)
  {
    hide AtTheEdge, LowerFirst, Permitted;
    ServedInOrder(q, order, leftover, i, j);
    ServedInOrder(q, LowerFirst(q), leftover, j, i);
    LowTie(q, leftover, j, i);
  }

  /** A tie at the edge splits in every permitted order: one of the tied is served and another is not. */
  lemma EdgeIsSplit(q: seq<int>, order: seq<nat>, leftover: nat) returns (i: nat, j: nat)
    requires Permitted(q, order) && TieStraddles(q, leftover)
    ensures AtTheEdge(q, leftover, i) && i in order[..leftover]
    ensures AtTheEdge(q, leftover, j) && j !in order[..leftover]
  {
    var low := LowerFirst(q);
    i, j := low[leftover - 1], low[leftover];
    assert AtTheEdge(q, leftover, i) && AtTheEdge(q, leftover, j);
    assert low[..leftover][leftover - 1] == i && j !in low[..leftover];
    hide AtTheEdge, LowerFirst, Permitted, TieStraddles;
    if j in order[..leftover] && i !in order[..leftover] {
      i, j := j, i;
    } else if i in order[..leftover] && j in order[..leftover] {
      var k := SomeoneElse(q, order, low, leftover, j);
      SwappedAreTied(q, order, leftover, j, k);
      j := k;
    } else if i !in order[..leftover] && j !in order[..leftover] {
      var k := SomeoneElse(q, low, order, leftover, i);
      SwappedAreTied(q, order, leftover, k, i);
      i := k;
    }
  }

  /** A share without a remainder is never tied at the edge. */
  lemma EdgeIsPositive(q: seq<int>, leftover: nat, i: nat)
    requires AtTheEdge(q, leftover, i) && FULL * leftover <= Sum(Rests(q)) + 1
    ensures q[i] % FULL > 0
  {
    hide AtTheEdge, LowerFirst, Permitted, TieStraddles, Served, ByRemainder, Sum, Wholes;
    var x, y := TiedPair(q, leftover, i);
    var low, f := LowerFirst(q), Wholes(q);
    ServedByRemainder(q, low, leftover);
    ServedAt(f, low, leftover);
    if q[x] % FULL == 0 { WholeShareGetsNoExtra(q, Served(f, low, leftover), x); }
  }

  /** Those tied at the edge have one remainder, and the lower-index order serves one of them and not another. */
  lemma TiedPair(q: seq<int>, leftover: nat, i: nat) returns (x: nat, y: nat)
    requires AtTheEdge(q, leftover, i)
    ensures 0 < leftover < |q|
    ensures AtTheEdge(q, leftover, x) && x in LowerFirst(q)[..leftover] && q[x] % FULL == q[i] % FULL
    ensures AtTheEdge(q, leftover, y) && y !in LowerFirst(q)[..leftover] && q[y] % FULL == q[i] % FULL
  {
    x, y := EdgeIsSplit(q, LowerFirst(q), leftover);
  }

  /** The first places of the sort are those of the largest keys. */
  lemma ServedByKey(keys: seq<real>, k: nat, i: nat, j: nat)
    requires k <= |keys| && i < |keys| && j < |keys| && i in Order(keys, |keys|)[..k] && Before(keys, j, i)
    ensures j in Order(keys, |keys|)[..k]
  {
    var order := Order(keys, |keys|);
    hide Order;
    var m := PlaceOf(order, |keys|, k, i);
    var p := PlaceOf(order, |keys|, k, j);
  }

  /** Of equal remainders the lower-index order serves the lower index first. */
  lemma LowByIndex(q: seq<int>, k: nat, i: nat, j: nat)
    requires k <= |q| && j <= i < |q| && i in LowerFirst(q)[..k] && q[i] % FULL == q[j] % FULL
    ensures j in LowerFirst(q)[..k]
  {
    hide Order;
    if j < i { ServedByKey(AsReals(Rests(q)), k, i, j); }
  }
}
