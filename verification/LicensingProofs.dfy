/** What every run of the licensing and rights pallets keeps, and what an active licence or entitlement means. */
module LicensingProofs {
  import opened Prelude
  import opened Primitives
  import opened Versions
  import opened Licensing
  import Rights

  // ------------------------------------------------------------------ the invariant

  predicate SameAsset(a: Dla, b: Dla) { a.assetId == b.assetId }

  predicate LicenseStep(a: License, b: License) {
    ValidTransition(a.status, b.status) && SameLicense(a, b) && TransferAllowed(a, b)
  }

  /** The registry holds the DLA's instrument with the very asset, version and state the DLA copied. */
  predicate Bound(rights: Rights.State, d: Dla) {
    && d.instrumentId in rights.instruments
    && rights.instruments[d.instrumentId].assetId == d.assetId
    && rights.instruments[d.instrumentId].assetVersionHash == d.assetVersionHash
    && rights.instruments[d.instrumentId].state == d.rightsState
    && (d.offerability.EligiblePublic? ==> d.rightsState.Contractual())
    && (d.offerability.EligibleInternal? ==> Workable(d.rightsState))
  }

  ghost predicate BoundAt(w: World, id: Id32, k: U32) {
    (id, k) in w.dlas.versions ==> Bound(w.rights, w.dlas.versions[(id, k)].body)
  }

  ghost predicate LicenseAt(w: World, id: Id32, k: U32) {
    (id, k) in w.licenses.versions ==> w.licenses.versions[(id, k)].body.dlaId in w.dlas.heads
  }

  ghost predicate OfferAt(w: World, id: Id32, k: U32) {
    (id, k) in w.offers.versions ==> w.offers.versions[(id, k)].body.dlaId in w.dlas.heads
  }

  ghost predicate EntitlementAt(w: World, id: Id32, k: U32) {
    (id, k) in w.entitlements.versions ==> w.entitlements.versions[(id, k)].body.licenseId in w.licenses.heads
  }

  ghost predicate Lines(w: World) {
    && Dense(w.dlas) && Steps(w.dlas, SameAsset)
    && Dense(w.licenses) && Steps(w.licenses, LicenseStep)
    && Dense(w.offers) && Steps(w.offers, SameOffer)
    && Dense(w.entitlements) && Steps(w.entitlements, SameEntitlement)
  }

  ghost predicate References(w: World) {
    && (forall id, k: U32 :: BoundAt(w, id, k))
    && (forall id, k: U32 :: LicenseAt(w, id, k))
    && (forall id, k: U32 :: OfferAt(w, id, k))
    && (forall id, k: U32 :: EntitlementAt(w, id, k))
  }

  ghost predicate Valid(w: World) {
    Rights.Valid(w.rights) && Lines(w) && References(w)
  }

  /** Time goes on, the registry and every family only grow, and no stored record changes. */
  ghost predicate Extends(w: World, u: World) {
    && w.now <= u.now && Rights.Extends(w.rights, u.rights)
    && Grows(w.dlas, u.dlas) && Grows(w.licenses, u.licenses)
    && Grows(w.offers, u.offers) && Grows(w.entitlements, u.entitlements)
  }

  lemma GenesisValid()
    ensures Valid(Genesis())
  {
    Rights.EmptyValid();
  }

  lemma RightsStep(w: World, c: Rights.Call)
    requires Valid(w)
    ensures Valid(Apply(w, RightsCall(c))) && Extends(w, Apply(w, RightsCall(c)))
  {
    hide Rights.Valid, Dense, Steps, Rights.Apply;
    Rights.ApplyKeeps(w.rights, c);
    var u := Apply(w, RightsCall(c));
    forall id, k: U32 ensures BoundAt(u, id, k) { assert BoundAt(w, id, k); }
    forall id, k: U32 ensures LicenseAt(u, id, k) { assert LicenseAt(w, id, k); }
    forall id, k: U32 ensures OfferAt(u, id, k) { assert OfferAt(w, id, k); }
    forall id, k: U32 ensures EntitlementAt(u, id, k) { assert EntitlementAt(w, id, k); }
  }

  lemma DlaStep(w: World, id: Id32, v: Versioned<Dla>)
    requires Valid(w)
    ensures Valid(RecordDla(w, id, v)) && Extends(w, RecordDla(w, id, v))
  {
    hide Rights.Valid, Dense, Steps;
    if DlaError(w, id, v).None? {
      var u := RecordDla(w, id, v);
      PutKeepsDense(w.dlas, id, v);
      PutKeepsSteps(w.dlas, id, v, SameAsset);
      forall i, k: U32 ensures BoundAt(u, i, k) { assert BoundAt(w, i, k); }
      forall i, k: U32 ensures LicenseAt(u, i, k) { assert LicenseAt(w, i, k); }
      forall i, k: U32 ensures OfferAt(u, i, k) { assert OfferAt(w, i, k); }
      forall i, k: U32 ensures EntitlementAt(u, i, k) { assert EntitlementAt(w, i, k); }
    }
  }

  lemma LicenseStepKeeps(w: World, id: Id32, v: Versioned<License>)
    requires Valid(w)
    ensures Valid(RecordLicense(w, id, v)) && Extends(w, RecordLicense(w, id, v))
  {
    hide Rights.Valid, Dense, Steps, DlaEligible;
    if LicenseError(w, id, v).None? {
      var u := RecordLicense(w, id, v);
      PutKeepsDense(w.licenses, id, v);
      PutKeepsSteps(w.licenses, id, v, LicenseStep);
      forall i, k: U32 ensures BoundAt(u, i, k) { assert BoundAt(w, i, k); }
      forall i, k: U32 ensures LicenseAt(u, i, k) { assert LicenseAt(w, i, k); }
      forall i, k: U32 ensures OfferAt(u, i, k) { assert OfferAt(w, i, k); }
      forall i, k: U32 ensures EntitlementAt(u, i, k) { assert EntitlementAt(w, i, k); }
    }
  }

  lemma OfferStep(w: World, id: Id32, v: Versioned<Offer>)
    requires Valid(w)
    ensures Valid(RecordOffer(w, id, v)) && Extends(w, RecordOffer(w, id, v))
  {
    hide Rights.Valid, Dense, Steps, DlaEligible;
    if OfferError(w, id, v).None? {
      var u := RecordOffer(w, id, v);
      PutKeepsDense(w.offers, id, v);
      PutKeepsSteps(w.offers, id, v, SameOffer);
      forall i, k: U32 ensures BoundAt(u, i, k) { assert BoundAt(w, i, k); }
      forall i, k: U32 ensures LicenseAt(u, i, k) { assert LicenseAt(w, i, k); }
      forall i, k: U32 ensures OfferAt(u, i, k) { assert OfferAt(w, i, k); }
      forall i, k: U32 ensures EntitlementAt(u, i, k) { assert EntitlementAt(w, i, k); }
    }
  }

  lemma EntitlementStep(w: World, id: Id32, v: Versioned<Entitlement>)
    requires Valid(w)
    ensures Valid(RecordEntitlement(w, id, v)) && Extends(w, RecordEntitlement(w, id, v))
  {
    hide Rights.Valid, Dense, Steps, LicenseActive;
    if EntitlementError(w, id, v).None? {
      var u := RecordEntitlement(w, id, v);
      PutKeepsDense(w.entitlements, id, v);
      PutKeepsSteps(w.entitlements, id, v, SameEntitlement);
      forall i, k: U32 ensures BoundAt(u, i, k) { assert BoundAt(w, i, k); }
      forall i, k: U32 ensures LicenseAt(u, i, k) { assert LicenseAt(w, i, k); }
      forall i, k: U32 ensures OfferAt(u, i, k) { assert OfferAt(w, i, k); }
      forall i, k: U32 ensures EntitlementAt(u, i, k) { assert EntitlementAt(w, i, k); }
    }
  }

  lemma BlocksStep(w: World, n: nat)
    requires Valid(w)
    ensures Valid(Apply(w, Blocks(n))) && Extends(w, Apply(w, Blocks(n)))
  {
    hide Rights.Valid, Dense, Steps;
    var u := Apply(w, Blocks(n));
    forall i, k: U32 ensures BoundAt(u, i, k) { assert BoundAt(w, i, k); }
    forall i, k: U32 ensures LicenseAt(u, i, k) { assert LicenseAt(w, i, k); }
    forall i, k: U32 ensures OfferAt(u, i, k) { assert OfferAt(w, i, k); }
    forall i, k: U32 ensures EntitlementAt(u, i, k) { assert EntitlementAt(w, i, k); }
  }

  lemma StepKeeps(w: World, c: Call)
    requires Valid(w)
    ensures Valid(Apply(w, c)) && Extends(w, Apply(w, c))
  {
    hide Valid, Extends, RecordDla, RecordLicense, RecordOffer, RecordEntitlement;
    match c
    case RightsCall(call) => RightsStep(w, call);
    case DlaCall(id, v) => DlaStep(w, id, v);
    case LicenseCall(id, v) => LicenseStepKeeps(w, id, v);
    case OfferCall(id, v) => OfferStep(w, id, v);
    case EntitlementCall(id, v) => EntitlementStep(w, id, v);
    case Blocks(n) => BlocksStep(w, n);
  }

  /** Over any run the invariant holds and nothing recorded is ever changed. */
  lemma {:induction false} RunKeeps(w: World, calls: seq<Call>)
    requires Valid(w)
    ensures Valid(Run(w, calls)) && Extends(w, Run(w, calls))
  {
    hide Valid, Apply;
    if calls != [] {
      RunKeeps(w, calls[..|calls| - 1]);
      StepKeeps(Run(w, calls[..|calls| - 1]), calls[|calls| - 1]);
    }
  }

  lemma {:induction false} ReachableIsValid(calls: seq<Call>)
    ensures Valid(Run(Genesis(), calls))
  {
    hide Valid, Run;
    GenesisValid();
    RunKeeps(Genesis(), calls);
  }

  // ------------------------------------------------------------------ what eligible and active mean

  /** The instrument of a DLA is recorded, unsuperseded and inside its validity window. */
  predicate InForce(rights: Rights.State, now: Block, id: Id32) {
    && id in rights.instruments && id !in rights.instrumentBy
    && (rights.instruments[id].validFrom.Some? ==> rights.instruments[id].validFrom.value <= now)
    && (rights.instruments[id].validUntil.Some? ==> now <= rights.instruments[id].validUntil.value)
  }

  /** The copied rights never diverge from the registry, so a stored DLA version is eligible
      exactly when it says so and its instrument is in force. */
  lemma EligibleExactly(w: World, id: Id32, k: U32, publicly: bool)
    requires Valid(w) && (id, k) in w.dlas.versions
    ensures var d := w.dlas.versions[(id, k)].body;
      DlaEligible(w.rights, w.now, d, publicly)
      <==> ((d.offerability.EligiblePublic? || (d.offerability.EligibleInternal? && !publicly))
            && InForce(w.rights, w.now, d.instrumentId))
  {
    hide Rights.Valid, Lines;
    assert BoundAt(w, id, k);
  }

  /** The runtime's reference to an instrument exists exactly when the registry holds it, carries its asset,
      version, state and window, and says superseded exactly when another record names it as its predecessor. */
  lemma ReferenceIsExact(rights: Rights.State, id: Id32)
    requires Rights.Valid(rights)
    ensures Instrument(rights, id).Some? <==> id in rights.instruments
    ensures Instrument(rights, id).Some? ==>
      var r := Instrument(rights, id).value; var i := rights.instruments[id];
      && r.assetId == i.assetId && r.assetVersionHash == i.assetVersionHash && r.state == i.state
      && r.validFrom == i.validFrom && r.validUntil == i.validUntil
      && (r.superseded <==> exists b :: b in rights.instruments && rights.instruments[b].supersedes == Some(id))
  {
    var g := Rights.InstrumentGraph(rights);
    assert forall b :: b in rights.instruments ==> g.nodes[b].supersedes == rights.instruments[b].supersedes;
    if id in rights.instrumentBy { assert g.nodes[g.successor[id]].supersedes == Some(id); }
  }

  /** A publicly eligible DLA rests on an instrument recorded with D3 authority and a governing hash. */
  lemma PublicIsAuthorised(w: World, id: Id32, k: U32)
    requires Valid(w) && (id, k) in w.dlas.versions && w.dlas.versions[(id, k)].body.offerability.EligiblePublic?
    ensures var i := w.dlas.versions[(id, k)].body.instrumentId;
      i in w.rights.instruments
      && w.rights.instruments[i].authority == D3 && NonZero(w.rights.instruments[i].governingHash)
  {
    hide Lines;
    assert BoundAt(w, id, k);
    assert Rights.InstrumentSound(w.rights.instruments[w.dlas.versions[(id, k)].body.instrumentId]);
  }

  /** Everything an active entitlement stands on, from the entitlement to the registry. */
  ghost predicate Grounded(w: World, id: Id32) {
    var e := Current(w.entitlements, id);
    e.Some? && (e.value.body.validUntil.Some? ==> w.now <= e.value.body.validUntil.value)
    && var l := Current(w.licenses, e.value.body.licenseId);
    l.Some? && l.value.body.holder == e.value.body.holder && l.value.body.status.Active?
    && (l.value.body.expiresAt.Some? ==> w.now <= l.value.body.expiresAt.value)
    && var d := Current(w.dlas, l.value.body.dlaId);
    d.Some?
    && InForce(w.rights, w.now, d.value.body.instrumentId)
    && var r := w.rights.instruments[d.value.body.instrumentId];
    r.assetId == d.value.body.assetId && r.assetVersionHash == d.value.body.assetVersionHash
    && Workable(r.state)
    && (d.value.body.offerability.EligiblePublic? ==> r.authority == D3 && NonZero(r.governingHash))
  }

  lemma ActiveEntitlementIsGrounded(w: World, id: Id32)
    requires Valid(w) && EntitlementActive(w, id)
    ensures Grounded(w, id)
  {
    hide Rights.Valid, Lines;
    var l := Current(w.licenses, Current(w.entitlements, id).value.body.licenseId).value.body;
    var k := w.dlas.heads[l.dlaId];
    EligibleExactly(w, l.dlaId, k, false);
    assert BoundAt(w, l.dlaId, k);
    if w.dlas.versions[(l.dlaId, k)].body.offerability.EligiblePublic? { PublicIsAuthorised(w, l.dlaId, k); }
  }

  /** In every reachable state. */
  lemma {:induction false} AlwaysGrounded(calls: seq<Call>, id: Id32)
    requires EntitlementActive(Run(Genesis(), calls), id)
    ensures Grounded(Run(Genesis(), calls), id)
  {
    hide Valid, Run, Grounded, EntitlementActive;
    ReachableIsValid(calls);
    ActiveEntitlementIsGrounded(Run(Genesis(), calls), id);
  }

  /** A licence accepted as active, and an entitlement accepted as contractual, are active at once. */
  lemma AcceptedLicenseIsActive(w: World, id: Id32, v: Versioned<License>)
    requires LicenseError(w, id, v).None? && v.body.status.Active?
    ensures LicenseActive(RecordLicense(w, id, v), id)
  {
  }

  lemma AcceptedEntitlementIsActive(w: World, id: Id32, v: Versioned<Entitlement>)
    requires EntitlementError(w, id, v).None? && v.body.state.Contractual()
    ensures EntitlementActive(RecordEntitlement(w, id, v), id)
  {
  }

  /** A contractual entitlement is granted to the licence's holder, for no longer than the licence runs. */
  lemma AcceptedEntitlementIsWithinLicense(w: World, id: Id32, v: Versioned<Entitlement>)
    requires EntitlementError(w, id, v).None? && v.body.state.Contractual()
    ensures LicenseActive(w, v.body.licenseId)
    ensures var l := Current(w.licenses, v.body.licenseId).value.body;
      l.holder == v.body.holder
      && (v.body.validUntil.Some? ==> w.now <= v.body.validUntil.value)
      && (l.expiresAt.Some? ==> v.body.validUntil.Some? && v.body.validUntil.value <= l.expiresAt.value)
  {
  }

  /** A published offer was verified by the provider and rests on a publicly eligible DLA whose
      instrument is in force and carries D3 authority; a staged one on an eligible DLA. */
  lemma AcceptedOfferIsGrounded(w: World, id: Id32, v: Versioned<Offer>)
    requires Valid(w) && OfferError(w, id, v).None?
    requires v.body.state.Published? || v.body.state.StagedInternal?
    ensures Current(w.dlas, v.body.dlaId).Some?
    ensures var d := Current(w.dlas, v.body.dlaId).value.body;
      && InForce(w.rights, w.now, d.instrumentId)
      && (v.body.validUntil.Some? ==> w.now <= v.body.validUntil.value)
      && (v.body.state.Published? ==>
            v.body.providerVerified && d.offerability.EligiblePublic?
            && w.rights.instruments[d.instrumentId].authority == D3
            && NonZero(w.rights.instruments[d.instrumentId].governingHash))
  {
    hide Rights.Valid, Lines;
    var k := w.dlas.heads[v.body.dlaId];
    EligibleExactly(w, v.body.dlaId, k, v.body.state.Published?);
    if v.body.state.Published? { PublicIsAuthorised(w, v.body.dlaId, k); }
  }

  // ------------------------------------------------------------------ what can never come back

  lemma HeadIsStored<T>(f: Family<T>, id: Id32)
    requires Dense(f) && id in f.heads
    ensures (id, f.heads[id]) in f.versions && Current(f, id) == Some(f.versions[(id, f.heads[id])])
  {
    assert LinkedAt(f, id, f.heads[id]);
  }

  lemma StoredIsBelowHead<T>(f: Family<T>, id: Id32, k: U32)
    requires Dense(f) && (id, k) in f.versions
    ensures id in f.heads && 1 <= k <= f.heads[id]
  {
    assert LinkedAt(f, id, k);
  }

  /** An instrument once superseded or expired never makes that DLA version eligible again. */
  lemma {:induction false} LostEligibilityIsFinal(w: World, calls: seq<Call>, id: Id32, k: U32, publicly: bool)
    requires Valid(w) && (id, k) in w.dlas.versions
    requires var i := w.dlas.versions[(id, k)].body.instrumentId;
      i in w.rights.instrumentBy || (i in w.rights.instruments && Past(w.rights.instruments[i].validUntil, w.now))
    ensures var u := Run(w, calls);
      (id, k) in u.dlas.versions && !DlaEligible(u.rights, u.now, u.dlas.versions[(id, k)].body, publicly)
  {
    hide Rights.Valid, Lines, Run;
    RunKeeps(w, calls);
    EligibleExactly(Run(w, calls), id, k, publicly);
  }

  predicate ClosedLicense(l: License) { l.status.Closed() }

  /** A property licence steps pass on, once true of a version, is true of the head of every later state. */
  lemma {:induction false} CarriedToHead(w: World, calls: seq<Call>, id: Id32, j: U32, p: License -> bool)
    requires Valid(w) && (id, j) in w.licenses.versions && p(w.licenses.versions[(id, j)].body)
    requires forall a, b :: p(a) && LicenseStep(a, b) ==> p(b)
    ensures var u := Run(w, calls);
      Current(u.licenses, id).Some? && p(Current(u.licenses, id).value.body)
      && forall k: U32 :: j <= k && (id, k) in u.licenses.versions ==> p(u.licenses.versions[(id, k)].body)
  {
    hide Rights.Valid, References, Run, Dense, Steps, LicenseStep;
    RunKeeps(w, calls);
    var u := Run(w, calls);
    StoredIsBelowHead(u.licenses, id, j);
    HeadIsStored(u.licenses, id);
    forall k: U32 | j <= k && (id, k) in u.licenses.versions ensures p(u.licenses.versions[(id, k)].body) {
      Carried(u.licenses, LicenseStep, p, id, j, k);
    }
  }

  /** Once the head of a licence is revoked, expired or superseded, neither the licence nor any
      entitlement naming it is active in any later state. */
  lemma {:induction false} ClosedForever(w: World, calls: seq<Call>, id: Id32)
    requires Valid(w) && Current(w.licenses, id).Some? && Current(w.licenses, id).value.body.status.Closed()
    ensures var u := Run(w, calls);
      && Current(u.licenses, id).Some? && Current(u.licenses, id).value.body.status.Closed()
      && !LicenseActive(u, id)
      && forall e :: Current(u.entitlements, e).Some? && Current(u.entitlements, e).value.body.licenseId == id
           ==> !EntitlementActive(u, e)
  {
    hide Valid, Run, DlaEligible;
    CarriedToHead(w, calls, id, w.licenses.heads[id], ClosedLicense);
  }

  /** Once any version is not transferable, every later version keeps its holder and stays so, and
      an active entitlement on the licence can only belong to that holder. */
  lemma {:induction false} NonTransferableForever(w: World, calls: seq<Call>, id: Id32, j: U32)
    requires Valid(w) && (id, j) in w.licenses.versions && !w.licenses.versions[(id, j)].body.transferable
    ensures var u := Run(w, calls); var holder := w.licenses.versions[(id, j)].body.holder;
      && (forall k: U32 :: j <= k && (id, k) in u.licenses.versions
            ==> u.licenses.versions[(id, k)].body.holder == holder && !u.licenses.versions[(id, k)].body.transferable)
      && forall e :: EntitlementActive(u, e) && Current(u.entitlements, e).value.body.licenseId == id
           ==> Current(u.entitlements, e).value.body.holder == holder
  {
    hide Valid, Run, DlaEligible;
    var holder := w.licenses.versions[(id, j)].body.holder;
    var bound := (l: License) => l.holder == holder && !l.transferable;
    CarriedToHead(w, calls, id, j, bound);
    var u := Run(w, calls);
    forall k: U32 | j <= k && (id, k) in u.licenses.versions
      ensures u.licenses.versions[(id, k)].body.holder == holder && !u.licenses.versions[(id, k)].body.transferable
    {
      assert bound(u.licenses.versions[(id, k)].body);
    }
  }
}
