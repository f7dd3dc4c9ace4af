/** The settlement pallet: balanced revenue policies and non-moving previews of their split. */
module Settlement {
  import opened Prelude
  import opened Sums
  import Apportion

  datatype Leg = Leg(legId: Id32, beneficiary: Id32, role: Id32, basisPoints: U16, conditionsHash: Id32)

  datatype Policy = Policy(
    basis: Id32, currency: Id32, taxReview: Id32, moneyMovement: bool, legs: seq<Leg>, recordHash: Id32)

  datatype Preview = Preview(
    policyId: Id32, source: Id32, gross: U128, currency: Id32, allocationRoot: Id32, moneyMoved: bool, recordHash: Id32)

  datatype Request = Request(policyId: Id32, source: Id32, gross: U128, currency: Id32, recordHash: Id32)

  datatype SettlementError =
    | InvalidIdentifier | PolicyAlreadyExists | PreviewAlreadyExists | EmptyPolicy | UnbalancedPolicy
    | MoneyMovementForbidden | PolicyMissing | CurrencyMismatch | ArithmeticFailure

  datatype State = State(policies: map<Id32, Policy>, previews: map<Id32, Preview>)

  /** The digest of (policy, source, gross, currency, allocations): an arbitrary function. */
  type Root = (Id32, Id32, U128, Id32, seq<int>) -> Id32

  function Basis(legs: seq<Leg>): (r: seq<U16>)
    ensures |r| == |legs| && forall i :: 0 <= i < |r| ==> r[i] == legs[i].basisPoints
  {
    if legs == [] then [] else Basis(legs[..|legs| - 1]) + [legs[|legs| - 1].basisPoints]
  }

  predicate LegNamed(l: Leg) { l.legId != ZERO_ID && l.beneficiary != ZERO_ID && l.role != ZERO_ID }

  predicate LegsNamed(legs: seq<Leg>) { forall i :: 0 <= i < |legs| ==> LegNamed(legs[i]) }

  /** The running total of the source, which saturates at the largest u32. */
  function SaturatedTotal(legs: seq<Leg>): U32 {
    if legs == [] then 0 else SaturatingAdd32(SaturatedTotal(legs[..|legs| - 1]), legs[|legs| - 1].basisPoints)
  }

  function RecordPolicy(s: State, id: Id32, p: Policy): Result<State, SettlementError> {
    if id == ZERO_ID || p.basis == ZERO_ID || p.currency == ZERO_ID || p.taxReview == ZERO_ID || p.recordHash == ZERO_ID then
      Err(InvalidIdentifier)
    else if id in s.policies then Err(PolicyAlreadyExists)
    else if p.legs == [] then Err(EmptyPolicy)
    else if p.moneyMovement then Err(MoneyMovementForbidden)
    else if !LegsNamed(p.legs) then Err(InvalidIdentifier)
    else if SaturatedTotal(p.legs) != FULL then Err(UnbalancedPolicy)
    else Ok(s.(policies := s.policies[id := p]))
  }

  function PreviewSettlement(root: Root, s: State, id: Id32, r: Request): Result<State, SettlementError> {
    if id == ZERO_ID || r.policyId == ZERO_ID || r.source == ZERO_ID || r.currency == ZERO_ID || r.recordHash == ZERO_ID then
      Err(InvalidIdentifier)
    else if id in s.previews then Err(PreviewAlreadyExists)
    else if r.policyId !in s.policies then Err(PolicyMissing)
    else
      var p := s.policies[r.policyId];
      if p.currency != r.currency then Err(CurrencyMismatch)
      else if p.moneyMovement then Err(MoneyMovementForbidden)
      else
        match Apportion.Split(r.gross, Basis(p.legs))
        case None => Err(ArithmeticFailure)
        case Some(allocations) =>
          Ok(s.(previews := s.previews[id := Preview(r.policyId, r.source, r.gross, r.currency,
            root(r.policyId, r.source, r.gross, r.currency, allocations), false, r.recordHash)]))
  }

  // ------------------------------------------------------------------ what every run keeps

  ghost predicate PolicySound(p: Policy) {
    p.legs != [] && Sum(Basis(p.legs)) == FULL && !p.moneyMovement && LegsNamed(p.legs)
  }

  /** A preview moved no money, and its root commits to amounts that sum to its gross. */
  ghost predicate PreviewSound(root: Root, s: State, v: Preview) {
    && !v.moneyMoved && v.policyId in s.policies && s.policies[v.policyId].currency == v.currency
    && s.policies[v.policyId].legs != []
    && v.allocationRoot
       == root(v.policyId, v.source, v.gross, v.currency, Apportion.Shares(v.gross, Basis(s.policies[v.policyId].legs)))
    && Sum(Apportion.Shares(v.gross, Basis(s.policies[v.policyId].legs))) == v.gross
  }

  ghost predicate Valid(root: Root, s: State) {
    && (forall id :: id in s.policies ==> PolicySound(s.policies[id]))
    && (forall id :: id in s.previews ==> PreviewSound(root, s, s.previews[id]))
  }

  /** Saturation never hides an imbalance: the saturated total is 10000 exactly when the true one is. */
  lemma {:induction false} SaturationIsHarmless(legs: seq<Leg>)
    ensures Sum(Basis(legs)) >= 0
    ensures SaturatedTotal(legs) == if Sum(Basis(legs)) <= U32_MAX then Sum(Basis(legs)) else U32_MAX
  {
    if legs != [] {
      SaturationIsHarmless(legs[..|legs| - 1]);
      SumAppend(Basis(legs[..|legs| - 1]), legs[|legs| - 1].basisPoints);
    }
  }

  /** Previewing a recorded policy never fails in the arithmetic, whatever the amount, nor on money movement. */
  lemma PreviewNeverFailsInArithmetic(root: Root, s: State, id: Id32, r: Request)
    requires Valid(root, s)
    ensures PreviewSettlement(root, s, id, r) != Err(ArithmeticFailure)
    ensures PreviewSettlement(root, s, id, r) != Err(MoneyMovementForbidden)
  {
    hide PolicySound, PreviewSound, Apportion.Split, Basis;
    if r.policyId in s.policies { SplitsAlways(r.gross, s.policies[r.policyId]); }
  }

  lemma SplitsAlways(gross: U128, p: Policy)
    requires PolicySound(p)
    ensures Apportion.Split(gross, Basis(p.legs)).Some? && !p.moneyMovement
  {
  }

  lemma AcceptedIsSound(s: State, id: Id32, p: Policy)
    requires RecordPolicy(s, id, p).Ok?
    ensures PolicySound(p)
  {
    SaturationIsHarmless(p.legs);
  }

  lemma PreviewStays(root: Root, s: State, t: State, v: Preview)
    requires PreviewSound(root, s, v)
    requires v.policyId in t.policies && t.policies[v.policyId] == s.policies[v.policyId]
    ensures PreviewSound(root, t, v)
  {
  }

  lemma RecordKeeps(root: Root, s: State, id: Id32, p: Policy)
    requires Valid(root, s) && RecordPolicy(s, id, p).Ok?
    ensures Valid(root, RecordPolicy(s, id, p).value)
  {
    hide PolicySound;
    var t := RecordPolicy(s, id, p).value;
    AcceptedIsSound(s, id, p);
    forall i | i in t.previews ensures PreviewSound(root, t, t.previews[i]) {
      PreviewStays(root, s, t, s.previews[i]);
    }
  }

  lemma PreviewKeeps(root: Root, s: State, id: Id32, r: Request)
    requires Valid(root, s) && PreviewSettlement(root, s, id, r).Ok?
    ensures Valid(root, PreviewSettlement(root, s, id, r).value)
  {
    var t := PreviewSettlement(root, s, id, r).value;
    assert PolicySound(s.policies[r.policyId]);
    Apportion.SharesExact(r.gross, Basis(s.policies[r.policyId].legs));
    forall i | i in t.previews ensures PreviewSound(root, t, t.previews[i]) {
      if i != id { assert PreviewSound(root, s, s.previews[i]); }
    }
  }

  datatype Call = PolicyCall(id: Id32, policy: Policy) | PreviewCall(id: Id32, request: Request)

  function Apply(root: Root, s: State, c: Call): State {
    match c
    case PolicyCall(id, p) => Settled(RecordPolicy(s, id, p), s)
    case PreviewCall(id, q) => Settled(PreviewSettlement(root, s, id, q), s)
  }

  function Run(root: Root, s: State, calls: seq<Call>): State {
    if calls == [] then s else Apply(root, Run(root, s, calls[..|calls| - 1]), calls[|calls| - 1])
  }

  /** Over any run, recorded policies and previews stay as they are and stay sound. */
  lemma {:induction false} RunKeeps(root: Root, s: State, calls: seq<Call>)
    requires Valid(root, s)
    ensures Valid(root, Run(root, s, calls))
    ensures forall id :: id in s.policies ==> id in Run(root, s, calls).policies && Run(root, s, calls).policies[id] == s.policies[id]
    ensures forall id :: id in s.previews ==> id in Run(root, s, calls).previews && Run(root, s, calls).previews[id] == s.previews[id]
  {
    hide Valid;
    if calls != [] {
      var before := Run(root, s, calls[..|calls| - 1]);
      RunKeeps(root, s, calls[..|calls| - 1]);
      match calls[|calls| - 1] {
        case PolicyCall(id, p) => if RecordPolicy(before, id, p).Ok? { RecordKeeps(root, before, id, p); }
        case PreviewCall(id, q) => if PreviewSettlement(root, before, id, q).Ok? { PreviewKeeps(root, before, id, q); }
      }
    }
  }

  // ------------------------------------------------------------------ what a call does

  /** A policy: refused with the first check that fails, otherwise stored as given. The total is the true sum. */
  lemma PolicyOutcome(s: State, id: Id32, p: Policy)
    ensures var named := id != ZERO_ID && p.basis != ZERO_ID && p.currency != ZERO_ID && p.taxReview != ZERO_ID
        && p.recordHash != ZERO_ID;
      var unused := id !in s.policies;
      var legsNamed := forall i :: 0 <= i < |p.legs| ==>
        p.legs[i].legId != ZERO_ID && p.legs[i].beneficiary != ZERO_ID && p.legs[i].role != ZERO_ID;
      match RecordPolicy(s, id, p)
      case Err(InvalidIdentifier) => !named || (unused && p.legs != [] && !p.moneyMovement && !legsNamed)
      case Err(PolicyAlreadyExists) => named && !unused
      case Err(EmptyPolicy) => named && unused && p.legs == []
      case Err(MoneyMovementForbidden) => named && unused && p.legs != [] && p.moneyMovement
      case Err(UnbalancedPolicy) =>
        named && unused && p.legs != [] && !p.moneyMovement && legsNamed && Sum(Basis(p.legs)) != 10_000
      case Err(_) => false
      case Ok(t) =>
        && named && unused && p.legs != [] && !p.moneyMovement && legsNamed && Sum(Basis(p.legs)) == 10_000
        && t.policies == s.policies[id := p] && t.previews == s.previews
  {
    SaturationIsHarmless(p.legs);
    hide Sum, Basis, SaturatedTotal;
  }

  /** A preview in any state a run can reach: refused with the first check that fails, otherwise stored with the
      request's policy, source, gross, currency and record hash. Its root commits to amounts that sum to the gross,
      each the exact share rounded down except the last. */
  lemma PreviewOutcome(root: Root, s: State, id: Id32, r: Request)
    requires Valid(root, s)
    ensures var named := id != ZERO_ID && r.policyId != ZERO_ID && r.source != ZERO_ID && r.currency != ZERO_ID
        && r.recordHash != ZERO_ID;
      var unused := id !in s.previews;
      var known := r.policyId in s.policies;
      match PreviewSettlement(root, s, id, r)
      case Err(InvalidIdentifier) => !named
      case Err(PreviewAlreadyExists) => named && !unused
      case Err(PolicyMissing) => named && unused && !known
      case Err(CurrencyMismatch) => named && unused && known && s.policies[r.policyId].currency != r.currency
      case Err(_) => false
      case Ok(t) =>
        && named && unused && known && s.policies[r.policyId].currency == r.currency
        && t.policies == s.policies && id in t.previews && t.previews == s.previews[id := t.previews[id]]
        && (var v := t.previews[id];
            v.policyId == r.policyId && v.source == r.source && v.gross == r.gross && v.currency == r.currency
            && !v.moneyMoved && v.recordHash == r.recordHash)
    ensures PreviewSettlement(root, s, id, r).Ok? ==>
      exists amounts: seq<int> ::
        && PreviewSettlement(root, s, id, r).value.previews[id].allocationRoot
           == root(r.policyId, r.source, r.gross, r.currency, amounts)
        && Divides(r.gross, s.policies[r.policyId].legs, amounts)
  {
    hide PolicySound, PreviewSound, Apportion.Split, Basis;
    if r.policyId in s.policies {
      var legs := s.policies[r.policyId].legs;
      SplitsAlways(r.gross, s.policies[r.policyId]);
      PolicySplits(root, s, r);
      assert PreviewSettlement(root, s, id, r).Ok? ==>
        PreviewSettlement(root, s, id, r).value.previews[id].allocationRoot
        == root(r.policyId, r.source, r.gross, r.currency, Apportion.Shares(r.gross, Basis(legs)));
    }
  }

  /** The amounts of a division among the legs. */
  ghost predicate Divides(gross: int, legs: seq<Leg>, amounts: seq<int>) {
    && |amounts| == |legs| && Sum(amounts) == gross
    && forall i :: 0 <= i < |legs| - 1 ==> amounts[i] == gross * legs[i].basisPoints / 10_000
  }

  lemma PolicySplits(root: Root, s: State, r: Request)
    requires Valid(root, s) && r.policyId in s.policies
    ensures var legs := s.policies[r.policyId].legs;
      legs != [] && Apportion.Split(r.gross, Basis(legs)) == Some(Apportion.Shares(r.gross, Basis(legs)))
      && Divides(r.gross, legs, Apportion.Shares(r.gross, Basis(legs)))
  {
    var legs := s.policies[r.policyId].legs;
    assert PolicySound(s.policies[r.policyId]);
    Apportion.SharesExact(r.gross, Basis(legs));
  }

  class SettlementPallet {
    const root: Root
    var policies: map<Id32, Policy>
    var previews: map<Id32, Preview>

    ghost function Storage(): State
      reads this
    {
      State(policies, previews)
    }

    constructor (root: Root)
      ensures this.root == root && Storage() == State(map[], map[]) && Valid(root, Storage())
    {
      this.root := root;
      policies, previews := map[], map[];
    }

    method RecordRevenuePolicy(id: Id32, p: Policy) returns (outcome: Result<(), SettlementError>)
      requires Valid(root, Storage())
      modifies this
      ensures Valid(root, Storage())
      ensures match RecordPolicy(old(Storage()), id, p)
        case Ok(after) => outcome == Ok(()) && Storage() == after
        case Err(e) => outcome == Err(e) && Storage() == old(Storage())
    {
      hide Valid;
      if RecordPolicy(Storage(), id, p).Ok? { RecordKeeps(root, Storage(), id, p); }
      if id == ZERO_ID || p.basis == ZERO_ID || p.currency == ZERO_ID || p.taxReview == ZERO_ID || p.recordHash == ZERO_ID {
        return Err(InvalidIdentifier);
      }
      if id in policies { return Err(PolicyAlreadyExists); }
      if p.legs == [] { return Err(EmptyPolicy); }
      if p.moneyMovement { return Err(MoneyMovementForbidden); }
      var total: U32 := 0;
      for i := 0 to |p.legs|
        invariant total == SaturatedTotal(p.legs[..i]) && LegsNamed(p.legs[..i])
      {
        var leg := p.legs[i];
        assert p.legs[..i + 1] == p.legs[..i] + [leg] && p.legs[..i + 1][..i] == p.legs[..i];
        if leg.legId == ZERO_ID || leg.beneficiary == ZERO_ID || leg.role == ZERO_ID { return Err(InvalidIdentifier); }
        total := SaturatingAdd32(total, leg.basisPoints);
      }
      assert p.legs[..|p.legs|] == p.legs;
      if total != FULL { return Err(UnbalancedPolicy); }
      policies := policies[id := p];
      return Ok(());
    }

    method Calculate(id: Id32, r: Request) returns (outcome: Result<(), SettlementError>)
      requires Valid(root, Storage())
      modifies this
      ensures Valid(root, Storage()) && outcome != Err(ArithmeticFailure)
      ensures match PreviewSettlement(root, old(Storage()), id, r)
        case Ok(after) => outcome == Ok(()) && Storage() == after
        case Err(e) => outcome == Err(e) && Storage() == old(Storage())
    {
      hide Valid;
      PreviewNeverFailsInArithmetic(root, Storage(), id, r);
      if PreviewSettlement(root, Storage(), id, r).Ok? { PreviewKeeps(root, Storage(), id, r); }
      if id == ZERO_ID || r.policyId == ZERO_ID || r.source == ZERO_ID || r.currency == ZERO_ID || r.recordHash == ZERO_ID {
        return Err(InvalidIdentifier);
      }
      if id in previews { return Err(PreviewAlreadyExists); }
      if r.policyId !in policies { return Err(PolicyMissing); }
      var p := policies[r.policyId];
      if p.currency != r.currency { return Err(CurrencyMismatch); }
      if p.moneyMovement { return Err(MoneyMovementForbidden); }
      var allocations := Apportion.SplitByBasisPoints(r.gross, Basis(p.legs));
      if allocations.None? { return Err(ArithmeticFailure); }
      previews := previews[id := Preview(r.policyId, r.source, r.gross, r.currency,
        root(r.policyId, r.source, r.gross, r.currency, allocations.value), false, r.recordHash)];
      return Ok(());
    }
  }
}
