/**
 What each call and each reader of the licensing pallet does, in terms of the stored maps alone:
 when it is refused and why, what an accepted call stores, and when a record counts as active.
 */
module LicensingOutcomes {
  import opened Prelude
  import opened Primitives
  import opened Versions
  import opened Licensing
  import opened LicensingProofs
  import Rights

  // ------------------------------------------------------------------ versions

  /** The number of the latest version, 0 when there is none. */
  function Head<T>(f: Family<T>, id: Id32): int {
    if id in f.heads then f.heads[id] else 0
  }

  /** The successor of the latest version; a first one names no predecessor. */
  predicate IsNext<T>(f: Family<T>, id: Id32, v: Versioned<T>) {
    v.version == Head(f, id) + 1 && (id !in f.heads ==> v.previous == None)
  }

  /** It names the hash of the latest version. */
  predicate NamesLatest<T>(f: Family<T>, id: Id32, v: Versioned<T>) {
    id in f.heads ==> (id, f.heads[id]) in f.versions && v.previous == Some(f.versions[(id, f.heads[id])].hash)
  }

  /** On a line of versions 1..head a new record is accepted exactly as number head + 1, naming the head's hash. */
  lemma NextExactly<T>(f: Family<T>, id: Id32, v: Versioned<T>)
    requires Dense(f)
    ensures (id, v.version) in f.versions <==> 1 <= v.version <= Head(f, id)
    ensures id in f.heads ==> 1 <= f.heads[id] && (id, f.heads[id]) in f.versions
    ensures (id, v.version) !in f.versions ==>
      match ValidateVersion(f, id, v.version, v.previous)
      case Some(InvalidVersion) => !IsNext(f, id, v)
      case Some(PreviousHashMismatch) => IsNext(f, id, v) && !NamesLatest(f, id, v)
      case None => IsNext(f, id, v) && NamesLatest(f, id, v)
  {
    assert LinkedAt(f, id, v.version);
    if id in f.heads { assert LinkedAt(f, id, f.heads[id]); }
  }

  /** Exactly one record and one head are written. */
  predicate Wrote<T(==)>(f: Family<T>, g: Family<T>, id: Id32, v: Versioned<T>) {
    g.heads == f.heads[id := v.version] && g.versions == f.versions[(id, v.version) := v]
  }

  // ------------------------------------------------------------------ readers

  /** The instrument is recorded, no record supersedes it, and the block is inside its term. */
  ghost predicate Usable(w: World, i: Id32) {
    && i in w.rights.instruments
    && (forall b :: b in w.rights.instruments ==> w.rights.instruments[b].supersedes != Some(i))
    && (w.rights.instruments[i].validFrom.Some? ==> w.rights.instruments[i].validFrom.value <= w.now)
    && (w.rights.instruments[i].validUntil.Some? ==> w.now <= w.rights.instruments[i].validUntil.value)
  }

  lemma UsableExactly(w: World, i: Id32)
    requires Valid(w)
    ensures Usable(w, i) <==> InForce(w.rights, w.now, i)
    ensures Usable(w, i) <==> Instrument(w.rights, i).Some? && RightsCurrent(Instrument(w.rights, i).value, w.now)
  {
    hide Rights.Valid, Lines, References;
    ReferenceIsExact(w.rights, i);
  }

  /** The latest DLA version is offered, publicly if so asked, and its instrument is usable. */
  ghost predicate Offerable(w: World, dla: Id32, publicly: bool) {
    && dla in w.dlas.heads && (dla, w.dlas.heads[dla]) in w.dlas.versions
    && var d := w.dlas.versions[(dla, w.dlas.heads[dla])].body;
       && (d.offerability == EligiblePublic || (d.offerability == EligibleInternal && !publicly))
       && Usable(w, d.instrumentId)
  }

  lemma OfferableExactly(w: World, dla: Id32, publicly: bool)
    requires Valid(w)
    ensures dla in w.dlas.heads <==> Current(w.dlas, dla).Some?
    ensures Offerable(w, dla, publicly) <==>
      Current(w.dlas, dla).Some? && DlaEligible(w.rights, w.now, Current(w.dlas, dla).value.body, publicly)
  {
    hide Rights.Valid, DlaEligible, Usable, InForce;
    if dla in w.dlas.heads {
      HeadIsStored(w.dlas, dla);
      EligibleExactly(w, dla, w.dlas.heads[dla], publicly);
      UsableExactly(w, w.dlas.versions[(dla, w.dlas.heads[dla])].body.instrumentId);
    }
  }

  /** The latest version of the licence is active, its end has not passed, and its DLA can be offered. */
  ghost predicate Licensed(w: World, id: Id32) {
    && id in w.licenses.heads && (id, w.licenses.heads[id]) in w.licenses.versions
    && var l := w.licenses.versions[(id, w.licenses.heads[id])].body;
       && l.status == LicenseStatus.Active
       && (l.expiresAt.Some? ==> w.now <= l.expiresAt.value)
       && Offerable(w, l.dlaId, false)
  }

  /** In every state a run can reach the reader answers exactly that. */
  lemma LicenseActiveExactly(w: World, id: Id32)
    requires Valid(w)
    ensures LicenseActive(w, id) <==> Licensed(w, id)
  {
    hide Rights.Valid, DlaEligible, Offerable;
    if id in w.licenses.heads {
      HeadIsStored(w.licenses, id);
      OfferableExactly(w, w.licenses.versions[(id, w.licenses.heads[id])].body.dlaId, false);
    }
  }

  /** The latest version of the entitlement is contractual, its end has not passed, and its licence is in effect
      for the same holder. */
  ghost predicate Entitled(w: World, id: Id32) {
    && id in w.entitlements.heads && (id, w.entitlements.heads[id]) in w.entitlements.versions
    && var e := w.entitlements.versions[(id, w.entitlements.heads[id])].body;
       && (e.state == ContractuallyRecorded || e.state == Operative)
       && (e.validUntil.Some? ==> w.now <= e.validUntil.value)
       && Licensed(w, e.licenseId)
       && w.licenses.versions[(e.licenseId, w.licenses.heads[e.licenseId])].body.holder == e.holder
  }

  lemma EntitlementActiveExactly(w: World, id: Id32)
    requires Valid(w)
    ensures EntitlementActive(w, id) <==> Entitled(w, id)
  {
    hide Rights.Valid, LicenseActive, Licensed;
    if id in w.entitlements.heads {
      HeadIsStored(w.entitlements, id);
      var license := w.entitlements.versions[(id, w.entitlements.heads[id])].body.licenseId;
      LicenseActiveExactly(w, license);
      if license in w.licenses.heads { HeadIsStored(w.licenses, license); }
      NotLicensed(w, license);
    }
  }

  lemma NotLicensed(w: World, id: Id32)
    ensures Licensed(w, id) ==> id in w.licenses.heads
  {
  }

  /** In every reachable state. */
  lemma {:induction false} ReadersExactly(calls: seq<Call>, id: Id32)
    ensures LicenseActive(Run(Genesis(), calls), id) <==> Licensed(Run(Genesis(), calls), id)
    ensures EntitlementActive(Run(Genesis(), calls), id) <==> Entitled(Run(Genesis(), calls), id)
  {
    hide Valid, Run, LicenseActive, Licensed, EntitlementActive, Entitled;
    ReachableIsValid(calls);
    LicenseActiveExactly(Run(Genesis(), calls), id);
    EntitlementActiveExactly(Run(Genesis(), calls), id);
  }

  // ------------------------------------------------------------------ the extrinsics

  /** What a DLA version claims about its instrument holds: an offered one needs a usable instrument, a publicly
      offered one a binding state, an internally offered one at least a verified state. */
  ghost predicate Ready(w: World, d: Dla) {
    && (d.offerability == EligibleInternal || d.offerability == EligiblePublic ==> Usable(w, d.instrumentId))
    && (d.offerability == EligiblePublic ==> d.rightsState == ContractuallyRecorded || d.rightsState == Operative)
    && (d.offerability == EligibleInternal ==>
          d.rightsState == VerifiedForWorkflow || d.rightsState == ContractuallyRecorded || d.rightsState == Operative)
  }

  lemma DlaOutcome(w: World, id: Id32, v: Versioned<Dla>)
    requires Valid(w)
    ensures var d := v.body;
      var named := id != ZERO_ID && d.assetId != ZERO_ID && d.assetVersionHash != ZERO_ID && d.instrumentId != ZERO_ID
        && d.readinessHash != ZERO_ID && d.policyHash != ZERO_ID && v.hash != ZERO_ID;
      var unused := !(1 <= v.version <= Head(w.dlas, id));
      var found := d.instrumentId in w.rights.instruments;
      var bound := found ==>
        && w.rights.instruments[d.instrumentId].assetId == d.assetId
        && w.rights.instruments[d.instrumentId].assetVersionHash == d.assetVersionHash
        && w.rights.instruments[d.instrumentId].state == d.rightsState;
      var sameAsset := id in w.dlas.heads && (id, w.dlas.heads[id]) in w.dlas.versions ==>
        w.dlas.versions[(id, w.dlas.heads[id])].body.assetId == d.assetId;
      var checked := named && unused && found && bound && sameAsset && Ready(w, d);
      match DlaError(w, id, v)
      case Some(InvalidIdentifier) => !named
      case Some(VersionAlreadyExists) => named && !unused
      case Some(RightsInstrumentMissing) => named && unused && !found
      case Some(RightsBindingMismatch) => named && unused && found && !bound
      case Some(RecordBindingMismatch) => named && unused && found && bound && !sameAsset
      case Some(RightsNotReady) => named && unused && found && bound && sameAsset && !Ready(w, d)
      case Some(BadVersion) => checked && !IsNext(w.dlas, id, v)
      case Some(BadPreviousHash) => checked && IsNext(w.dlas, id, v) && !NamesLatest(w.dlas, id, v)
      case Some(_) => false
      case None => checked && IsNext(w.dlas, id, v) && NamesLatest(w.dlas, id, v)
    ensures var u := RecordDla(w, id, v);
      && u.now == w.now && u.rights == w.rights && u.licenses == w.licenses && u.offers == w.offers
      && u.entitlements == w.entitlements && if DlaError(w, id, v).None? then Wrote(w.dlas, u.dlas, id, v) else u.dlas == w.dlas
  {
    hide Rights.Valid, Steps, References, Dense, LinkedAt, ValidateVersion, IsNext, NamesLatest, RightsCurrent, Usable, InForce;
    NextExactly(w.dlas, id, v);
    UsableExactly(w, v.body.instrumentId);
    hide Valid;
    InstrumentFields(w.rights, v.body.instrumentId);
  }

  lemma InstrumentFields(rights: Rights.State, id: Id32)
    ensures Instrument(rights, id).Some? <==> id in rights.instruments
    ensures id in rights.instruments ==>
      var r := Instrument(rights, id).value; var i := rights.instruments[id];
      r.assetId == i.assetId && r.assetVersionHash == i.assetVersionHash && r.state == i.state
  {
  }

  /** A revoked, expired or superseded licence stays one of the three, and none becomes pending again. */
  predicate MayBecome(from: LicenseStatus, to: LicenseStatus) {
    && (from == LicenseRevoked || from == LicenseExpired || from == LicenseSuperseded ==>
          to == LicenseRevoked || to == LicenseExpired || to == LicenseSuperseded)
    && (to == Pending ==> from == Pending)
  }

  lemma TransitionsExactly(from: LicenseStatus, to: LicenseStatus)
    ensures ValidTransition(from, to) <==> MayBecome(from, to)
  {
  }

  lemma LicenseOutcome(w: World, id: Id32, v: Versioned<License>)
    requires Valid(w)
    ensures var l := v.body;
      var named := id != ZERO_ID && l.dlaId != ZERO_ID && l.licenseType != ZERO_ID && l.issuer != ZERO_ID
        && l.holder != ZERO_ID && l.jurisdiction != ZERO_ID && l.termsHash != ZERO_ID && v.hash != ZERO_ID;
      var found := l.dlaId in w.dlas.heads;
      var active := l.status == LicenseStatus.Active;
      var offerable := active ==> Offerable(w, l.dlaId, false);
      var term := active && l.expiresAt.Some? ==> w.now <= l.expiresAt.value;
      var unused := !(1 <= v.version <= Head(w.licenses, id));
      var has := id in w.licenses.heads && (id, w.licenses.heads[id]) in w.licenses.versions;
      var moves := has ==> MayBecome(w.licenses.versions[(id, w.licenses.heads[id])].body.status, l.status);
      var same := has ==>
        (var p := w.licenses.versions[(id, w.licenses.heads[id])].body;
         p.dlaId == l.dlaId && p.licenseType == l.licenseType && p.issuer == l.issuer);
      var transfer := has ==>
        (var p := w.licenses.versions[(id, w.licenses.heads[id])].body;
         !p.transferable ==> l.holder == p.holder && !l.transferable);
      var checked := named && found && offerable && term && unused;
      var kept := checked && moves && same && transfer;
      match LicenseError(w, id, v)
      case Some(InvalidIdentifier) => !named
      case Some(DlaMissing) => named && !found
      case Some(DlaNotEligible) => named && found && !offerable
      case Some(InvalidTerm) => named && found && offerable && !term
      case Some(VersionAlreadyExists) => named && found && offerable && term && !unused
      case Some(InvalidStatusTransition) => checked && !moves
      case Some(RecordBindingMismatch) => checked && moves && !same
      case Some(TransferForbidden) => checked && moves && same && !transfer
      case Some(BadVersion) => kept && !IsNext(w.licenses, id, v)
      case Some(BadPreviousHash) => kept && IsNext(w.licenses, id, v) && !NamesLatest(w.licenses, id, v)
      case Some(_) => false
      case None => kept && IsNext(w.licenses, id, v) && NamesLatest(w.licenses, id, v)
    ensures var u := RecordLicense(w, id, v);
      && u.now == w.now && u.rights == w.rights && u.dlas == w.dlas && u.offers == w.offers && u.entitlements == w.entitlements
      && if LicenseError(w, id, v).None? then Wrote(w.licenses, u.licenses, id, v) else u.licenses == w.licenses
  {
    hide Rights.Valid, Steps, References, Dense, LinkedAt, ValidateVersion, IsNext, NamesLatest, DlaEligible, Offerable,
      ValidTransition, MayBecome;
    NextExactly(w.licenses, id, v);
    OfferableExactly(w, v.body.dlaId, false);
    if id in w.licenses.heads {
      TransitionsExactly(w.licenses.versions[(id, w.licenses.heads[id])].body.status, v.body.status);
    }
  }

  lemma OfferOutcome(w: World, id: Id32, v: Versioned<Offer>)
    requires Valid(w)
    ensures var o := v.body;
      var named := id != ZERO_ID && o.dlaId != ZERO_ID && o.template != ZERO_ID && o.licensor != ZERO_ID
        && o.offeredScope != ZERO_ID && o.currency != ZERO_ID && v.hash != ZERO_ID;
      var found := o.dlaId in w.dlas.heads;
      var publicly := o.state == Published ==> Offerable(w, o.dlaId, true);
      var readback := o.state == Published ==> o.providerVerified;
      var staged := o.state == StagedInternal ==> Offerable(w, o.dlaId, false);
      var term := o.validUntil.Some? ==> w.now <= o.validUntil.value;
      var unused := !(1 <= v.version <= Head(w.offers, id));
      var same := id in w.offers.heads && (id, w.offers.heads[id]) in w.offers.versions ==>
        (var p := w.offers.versions[(id, w.offers.heads[id])].body; p.dlaId == o.dlaId && p.licensor == o.licensor);
      var eligible := named && found && publicly && readback && staged;
      var checked := eligible && term && unused && same;
      match OfferError(w, id, v)
      case Some(InvalidIdentifier) => !named
      case Some(DlaMissing) => named && !found
      case Some(OfferNotEligible) => named && found && (!publicly || !staged)
      case Some(PublicOfferRequiresProviderReadback) => named && found && publicly && !readback
      case Some(InvalidTerm) => eligible && !term
      case Some(VersionAlreadyExists) => eligible && term && !unused
      case Some(RecordBindingMismatch) => eligible && term && unused && !same
      case Some(BadVersion) => checked && !IsNext(w.offers, id, v)
      case Some(BadPreviousHash) => checked && IsNext(w.offers, id, v) && !NamesLatest(w.offers, id, v)
      case Some(_) => false
      case None => checked && IsNext(w.offers, id, v) && NamesLatest(w.offers, id, v)
    ensures var u := RecordOffer(w, id, v);
      && u.now == w.now && u.rights == w.rights && u.dlas == w.dlas && u.licenses == w.licenses && u.entitlements == w.entitlements
      && if OfferError(w, id, v).None? then Wrote(w.offers, u.offers, id, v) else u.offers == w.offers
  {
    hide Rights.Valid, Steps, References, Dense, LinkedAt, ValidateVersion, IsNext, NamesLatest, DlaEligible, Offerable;
    NextExactly(w.offers, id, v);
    OfferableExactly(w, v.body.dlaId, false);
    OfferableExactly(w, v.body.dlaId, true);
  }

  lemma EntitlementOutcome(w: World, id: Id32, v: Versioned<Entitlement>)
    requires Valid(w)
    ensures var e := v.body;
      var named := id != ZERO_ID && e.licenseId != ZERO_ID && e.holder != ZERO_ID && e.scope != ZERO_ID
        && e.obligations != ZERO_ID && v.hash != ZERO_ID;
      var found := e.licenseId in w.licenses.heads && (e.licenseId, w.licenses.heads[e.licenseId]) in w.licenses.versions;
      var held := found ==> w.licenses.versions[(e.licenseId, w.licenses.heads[e.licenseId])].body.holder == e.holder;
      var binding := e.state == ContractuallyRecorded || e.state == Operative;
      var licensed := binding ==> Licensed(w, e.licenseId);
      var term := binding && e.validUntil.Some? ==> w.now <= e.validUntil.value;
      var within := binding && found ==>
        (var end := w.licenses.versions[(e.licenseId, w.licenses.heads[e.licenseId])].body.expiresAt;
         end.Some? ==> e.validUntil.Some? && e.validUntil.value <= end.value);
      var unused := !(1 <= v.version <= Head(w.entitlements, id));
      var same := id in w.entitlements.heads && (id, w.entitlements.heads[id]) in w.entitlements.versions ==>
        (var p := w.entitlements.versions[(id, w.entitlements.heads[id])].body; p.licenseId == e.licenseId && p.holder == e.holder);
      var granted := named && found && held && licensed;
      var checked := granted && term && within && unused && same;
      match EntitlementError(w, id, v)
      case Some(InvalidIdentifier) => !named
      case Some(LicenseMissing) => named && !found
      case Some(EntitlementHolderMismatch) => named && found && !held
      case Some(LicenseNotActive) => named && found && held && !licensed
      case Some(InvalidTerm) => granted && !(term && within)
      case Some(VersionAlreadyExists) => granted && term && within && !unused
      case Some(RecordBindingMismatch) => granted && term && within && unused && !same
      case Some(BadVersion) => checked && !IsNext(w.entitlements, id, v)
      case Some(BadPreviousHash) => checked && IsNext(w.entitlements, id, v) && !NamesLatest(w.entitlements, id, v)
      case Some(_) => false
      case None => checked && IsNext(w.entitlements, id, v) && NamesLatest(w.entitlements, id, v)
    ensures var u := RecordEntitlement(w, id, v);
      && u.now == w.now && u.rights == w.rights && u.dlas == w.dlas && u.licenses == w.licenses && u.offers == w.offers
      && if EntitlementError(w, id, v).None? then Wrote(w.entitlements, u.entitlements, id, v)
         else u.entitlements == w.entitlements
  {
    hide Rights.Valid, Steps, References, LinkedAt, ValidateVersion, IsNext, NamesLatest, LicenseActive, Licensed;
    NextExactly(w.entitlements, id, v);
    LicenseActiveExactly(w, v.body.licenseId);
    if v.body.licenseId in w.licenses.heads { HeadIsStored(w.licenses, v.body.licenseId); }
  }
}
