/** The licensing pallet as it runs: eight storage maps updated in place, one method per extrinsic. */
module LicensingPallet {
  import opened Prelude
  import opened Primitives
  import opened Versions
  import opened Licensing
  import Rights
  import Proofs = LicensingProofs

  class LicensingPallet {
    const rights: Rights.RightsPallet
    var dlas: Family<Dla>
    var licenses: Family<License>
    var offers: Family<Offer>
    var entitlements: Family<Entitlement>

    /** The storage of both pallets at block `now`. */
    ghost function Storage(now: Block): World
      reads this, rights
    {
      World(now, rights.Storage(), dlas, licenses, offers, entitlements)
    }

    constructor (rights: Rights.RightsPallet)
      requires rights.Storage() == Rights.EMPTY
      ensures this.rights == rights
      ensures Storage(0) == Genesis() && Proofs.Valid(Storage(0))
    {
      this.rights := rights;
      dlas, licenses, offers, entitlements := Empty(), Empty(), Empty(), Empty();
      new;
      Proofs.GenesisValid();
    }

    /** `RuntimeRightsVerifier::instrument` over the registry's storage. */
    function Instrument(id: Id32): Option<Reference>
      reads rights
    {
      Licensing.Instrument(rights.Storage(), id)
    }

    predicate Eligible(now: Block, dla: Dla, publicly: bool)
      reads rights
    {
      DlaEligible(rights.Storage(), now, dla, publicly)
    }

    /** Proofs.EligibleExactly, ActiveEntitlementIsGrounded and ClosedForever say what this answer means. */
    method IsLicenseActive(now: Block, id: Id32) returns (active: bool)
      ensures active == LicenseActive(Storage(now), id)
    {
      var license := Current(licenses, id);
      if license.None? || !license.value.body.status.Active? || Past(license.value.body.expiresAt, now) { return false; }
      var dla := Current(dlas, license.value.body.dlaId);
      return dla.Some? && Eligible(now, dla.value.body, false);
    }

    method IsEntitlementActive(now: Block, id: Id32) returns (active: bool)
      ensures active == EntitlementActive(Storage(now), id)
    {
      var entitlement := Current(entitlements, id);
      if entitlement.None? { return false; }
      var e := entitlement.value.body;
      if !e.state.Contractual() || Past(e.validUntil, now) { return false; }
      var licensed := IsLicenseActive(now, e.licenseId);
      var license := Current(licenses, e.licenseId);
      return licensed && license.Some? && license.value.body.holder == e.holder;
    }

    method RecordDlaVersion(now: Block, id: Id32, v: Versioned<Dla>) returns (outcome: Result<(), LicensingError>)
      requires Proofs.Valid(Storage(now))
      modifies this
      ensures outcome == Outcome(DlaError(old(Storage(now)), id, v))
      ensures Storage(now) == RecordDla(old(Storage(now)), id, v) && Proofs.Valid(Storage(now))
    {
      hide Proofs.Valid, DlaEligible;
      Proofs.DlaStep(Storage(now), id, v);
      var d := v.body;
      if id == ZERO_ID || d.assetId == ZERO_ID || d.assetVersionHash == ZERO_ID || d.instrumentId == ZERO_ID
         || d.readinessHash == ZERO_ID || d.policyHash == ZERO_ID || v.hash == ZERO_ID {
        return Err(InvalidIdentifier);
      }
      if (id, v.version) in dlas.versions { return Err(VersionAlreadyExists); }
      var found := Instrument(d.instrumentId);
      if found.None? { return Err(RightsInstrumentMissing); }
      var r := found.value;
      if r.assetId != d.assetId || r.assetVersionHash != d.assetVersionHash || r.state != d.rightsState {
        return Err(RightsBindingMismatch);
      }
      var prior := Current(dlas, id);
      if prior.Some? && prior.value.body.assetId != d.assetId { return Err(RecordBindingMismatch); }
      if d.offerability.EligibleInternal? || d.offerability.EligiblePublic? {
        if !RightsCurrent(r, now) { return Err(RightsNotReady); }
      }
      match d.offerability {
        case EligiblePublic => if !d.rightsState.Contractual() { return Err(RightsNotReady); }
        case EligibleInternal => if !Workable(d.rightsState) { return Err(RightsNotReady); }
        case _ =>
      }
      var bad := VersionProblem(dlas, id, v);
      if bad.Some? { return Err(bad.value); }
      dlas := dlas.(versions := dlas.versions[(id, v.version) := v]);
      dlas := dlas.(heads := dlas.heads[id := v.version]);
      return Ok(());
    }

    method RecordLicenseVersion(now: Block, id: Id32, v: Versioned<License>) returns (outcome: Result<(), LicensingError>)
      requires Proofs.Valid(Storage(now))
      modifies this
      ensures outcome == Outcome(LicenseError(old(Storage(now)), id, v))
      ensures Storage(now) == RecordLicense(old(Storage(now)), id, v) && Proofs.Valid(Storage(now))
    {
      hide Proofs.Valid, DlaEligible;
      Proofs.LicenseStepKeeps(Storage(now), id, v);
      var l := v.body;
      if id == ZERO_ID || l.dlaId == ZERO_ID || l.licenseType == ZERO_ID || l.issuer == ZERO_ID || l.holder == ZERO_ID
         || l.jurisdiction == ZERO_ID || l.termsHash == ZERO_ID || v.hash == ZERO_ID {
        return Err(InvalidIdentifier);
      }
      var dla := Current(dlas, l.dlaId);
      if dla.None? { return Err(DlaMissing); }
      if l.status.Active? {
        if !Eligible(now, dla.value.body, false) { return Err(DlaNotEligible); }
        if Past(l.expiresAt, now) { return Err(InvalidTerm); }
      }
      if (id, v.version) in licenses.versions { return Err(VersionAlreadyExists); }
      var prior := Current(licenses, id);
      if prior.Some? {
        var p := prior.value.body;
        if !ValidTransition(p.status, l.status) { return Err(InvalidStatusTransition); }
        if p.dlaId != l.dlaId || p.licenseType != l.licenseType || p.issuer != l.issuer {
          return Err(RecordBindingMismatch);
        }
        if !(p.transferable || (p.holder == l.holder && !l.transferable)) { return Err(TransferForbidden); }
      }
      var bad := VersionProblem(licenses, id, v);
      if bad.Some? { return Err(bad.value); }
      licenses := licenses.(versions := licenses.versions[(id, v.version) := v]);
      licenses := licenses.(heads := licenses.heads[id := v.version]);
      return Ok(());
    }

    method RecordLexOfferVersion(now: Block, id: Id32, v: Versioned<Offer>) returns (outcome: Result<(), LicensingError>)
      requires Proofs.Valid(Storage(now))
      modifies this
      ensures outcome == Outcome(OfferError(old(Storage(now)), id, v))
      ensures Storage(now) == RecordOffer(old(Storage(now)), id, v) && Proofs.Valid(Storage(now))
    {
      hide Proofs.Valid, DlaEligible;
      Proofs.OfferStep(Storage(now), id, v);
      var o := v.body;
      if id == ZERO_ID || o.dlaId == ZERO_ID || o.template == ZERO_ID || o.licensor == ZERO_ID
         || o.offeredScope == ZERO_ID || o.currency == ZERO_ID || v.hash == ZERO_ID {
        return Err(InvalidIdentifier);
      }
      var dla := Current(dlas, o.dlaId);
      if dla.None? { return Err(DlaMissing); }
      match o.state {
        case Published =>
          if !Eligible(now, dla.value.body, true) { return Err(OfferNotEligible); }
          if !o.providerVerified { return Err(PublicOfferRequiresProviderReadback); }
        case StagedInternal =>
          if !Eligible(now, dla.value.body, false) { return Err(OfferNotEligible); }
        case _ =>
      }
      if Past(o.validUntil, now) { return Err(InvalidTerm); }
      if (id, v.version) in offers.versions { return Err(VersionAlreadyExists); }
      var prior := Current(offers, id);
      if prior.Some? && !(prior.value.body.dlaId == o.dlaId && prior.value.body.licensor == o.licensor) {
        return Err(RecordBindingMismatch);
      }
      var bad := VersionProblem(offers, id, v);
      if bad.Some? { return Err(bad.value); }
      offers := offers.(versions := offers.versions[(id, v.version) := v]);
      offers := offers.(heads := offers.heads[id := v.version]);
      return Ok(());
    }

    method RecordEntitlementVersion(now: Block, id: Id32, v: Versioned<Entitlement>)
      returns (outcome: Result<(), LicensingError>)
      requires Proofs.Valid(Storage(now))
      modifies this
      ensures outcome == Outcome(EntitlementError(old(Storage(now)), id, v))
      ensures Storage(now) == RecordEntitlement(old(Storage(now)), id, v) && Proofs.Valid(Storage(now))
    {
      hide Proofs.Valid, LicenseActive;
      Proofs.EntitlementStep(Storage(now), id, v);
      var e := v.body;
      if id == ZERO_ID || e.licenseId == ZERO_ID || e.holder == ZERO_ID || e.scope == ZERO_ID
         || e.obligations == ZERO_ID || v.hash == ZERO_ID {
        return Err(InvalidIdentifier);
      }
      var license := Current(licenses, e.licenseId);
      if license.None? { return Err(LicenseMissing); }
      if license.value.body.holder != e.holder { return Err(EntitlementHolderMismatch); }
      if e.state.Contractual() {
        var active := IsLicenseActive(now, e.licenseId);
        if !active { return Err(LicenseNotActive); }
        if Past(e.validUntil, now) { return Err(InvalidTerm); }
        if !Within(e.validUntil, license.value.body.expiresAt) { return Err(InvalidTerm); }
      }
      if (id, v.version) in entitlements.versions { return Err(VersionAlreadyExists); }
      var prior := Current(entitlements, id);
      if prior.Some? && !(prior.value.body.licenseId == e.licenseId && prior.value.body.holder == e.holder) {
        return Err(RecordBindingMismatch);
      }
      var bad := VersionProblem(entitlements, id, v);
      if bad.Some? { return Err(bad.value); }
      entitlements := entitlements.(versions := entitlements.versions[(id, v.version) := v]);
      entitlements := entitlements.(heads := entitlements.heads[id := v.version]);
      return Ok(());
    }
  }
}
