/**
 The licensing pallet over the rights registry: four families of versioned records, the checks
 of each extrinsic in the order they are made, and the readers that decide what is active.
 */
module Licensing {
  import opened Prelude
  import opened Primitives
  import opened Versions
  import Rights

  datatype Dla = Dla(
    assetId: Id32, assetVersionHash: Id32, instrumentId: Id32, rightsState: RecordState,
    readinessHash: Id32, policyHash: Id32, offerability: DlaState, tokenization: RecordState)

  datatype License = License(
    dlaId: Id32, licenseType: Id32, issuer: Id32, holder: Id32, jurisdiction: Id32, termsHash: Id32,
    expiresAt: Option<Block>, status: LicenseStatus, transferable: bool)

  datatype Offer = Offer(
    dlaId: Id32, template: Id32, licensor: Id32, offeredScope: Id32, excludedScope: Id32, price: U128,
    currency: Id32, state: OfferState, providerVerified: bool, validUntil: Option<Block>)

  datatype Entitlement = Entitlement(
    licenseId: Id32, holder: Id32, scope: Id32, obligations: Id32, state: RecordState, validUntil: Option<Block>)

  datatype LicensingError =
    | InvalidIdentifier | BadVersion | BadPreviousHash | VersionAlreadyExists | DlaMissing | DlaNotEligible
    | RightsNotReady | LicenseMissing | LicenseNotActive | InvalidStatusTransition | OfferNotEligible
    | PublicOfferRequiresProviderReadback | InvalidTerm | RightsInstrumentMissing | RightsBindingMismatch
    | RecordBindingMismatch | TransferForbidden | EntitlementHolderMismatch

  datatype World = World(
    now: Block, rights: Rights.State,
    dlas: Family<Dla>, licenses: Family<License>, offers: Family<Offer>, entitlements: Family<Entitlement>)

  function Genesis(): World { World(0, Rights.EMPTY, Empty(), Empty(), Empty(), Empty()) }

  // ------------------------------------------------------------------ readers

  datatype Reference = Reference(
    assetId: Id32, assetVersionHash: Id32, state: RecordState,
    validFrom: Option<Block>, validUntil: Option<Block>, superseded: bool)

  /** The runtime's view of a registry instrument. */
  function Instrument(rights: Rights.State, id: Id32): Option<Reference> {
    if id !in rights.instruments then None
    else
      var r := rights.instruments[id];
      Some(Reference(r.assetId, r.assetVersionHash, r.state, r.validFrom, r.validUntil, id in rights.instrumentBy))
  }

  predicate RightsCurrent(r: Reference, now: Block) {
    && !r.superseded
    && !(r.validFrom.Some? && now < r.validFrom.value)
    && !(r.validUntil.Some? && now > r.validUntil.value)
  }

  predicate Workable(s: RecordState) { s.VerifiedForWorkflow? || s.Contractual() }

  predicate Past(end: Option<Block>, now: Block) { end.Some? && end.value < now }

  predicate DlaEligible(rights: Rights.State, now: Block, dla: Dla, publicly: bool) {
    if publicly && !dla.offerability.EligiblePublic? then false
    else if !dla.offerability.EligibleInternal? && !dla.offerability.EligiblePublic? then false
    else match Instrument(rights, dla.instrumentId)
      case None => false
      case Some(r) =>
        && r.assetId == dla.assetId && r.assetVersionHash == dla.assetVersionHash && r.state == dla.rightsState
        && RightsCurrent(r, now)
        && (if publicly || dla.offerability.EligiblePublic? then r.state.Contractual() else Workable(r.state))
  }

  predicate LicenseActive(w: World, id: Id32) {
    match Current(w.licenses, id)
    case None => false
    case Some(l) =>
      && l.body.status.Active?
      && !Past(l.body.expiresAt, w.now)
      && match Current(w.dlas, l.body.dlaId)
         case None => false
         case Some(d) => DlaEligible(w.rights, w.now, d.body, false)
  }

  predicate EntitlementActive(w: World, id: Id32) {
    match Current(w.entitlements, id)
    case None => false
    case Some(e) =>
      && e.body.state.Contractual()
      && !Past(e.body.validUntil, w.now)
      && LicenseActive(w, e.body.licenseId)
      && Current(w.licenses, e.body.licenseId).Some?
      && Current(w.licenses, e.body.licenseId).value.body.holder == e.body.holder
  }

  predicate ValidTransition(from: LicenseStatus, to: LicenseStatus) {
    match from
    case LicenseRevoked | LicenseExpired | LicenseSuperseded => to.Closed()
    case LicenseSuspended => to.LicenseSuspended? || to.Active? || to.Closed()
    case Pending => true
    case Active => to.Active? || to.LicenseSuspended? || to.Closed()
  }

  // ------------------------------------------------------------------ the extrinsics

  function VersionProblem<T>(f: Family<T>, id: Id32, v: Versioned<T>): Option<LicensingError> {
    match ValidateVersion(f, id, v.version, v.previous)
    case None => None
    case Some(InvalidVersion) => Some(BadVersion)
    case Some(PreviousHashMismatch) => Some(BadPreviousHash)
  }

  function DlaError(w: World, id: Id32, v: Versioned<Dla>): Option<LicensingError> {
    var d := v.body;
    var prior := Current(w.dlas, id);
    var found := Instrument(w.rights, d.instrumentId);
    if id == ZERO_ID || d.assetId == ZERO_ID || d.assetVersionHash == ZERO_ID || d.instrumentId == ZERO_ID
       || d.readinessHash == ZERO_ID || d.policyHash == ZERO_ID || v.hash == ZERO_ID then Some(InvalidIdentifier)
    else if (id, v.version) in w.dlas.versions then Some(VersionAlreadyExists)
    else if found.None? then Some(RightsInstrumentMissing)
    else if found.value.assetId != d.assetId || found.value.assetVersionHash != d.assetVersionHash
            || found.value.state != d.rightsState then Some(RightsBindingMismatch)
    else if prior.Some? && prior.value.body.assetId != d.assetId then Some(RecordBindingMismatch)
    else if (d.offerability.EligibleInternal? || d.offerability.EligiblePublic?) && !RightsCurrent(found.value, w.now) then
      Some(RightsNotReady)
    else if d.offerability.EligiblePublic? && !d.rightsState.Contractual() then Some(RightsNotReady)
    else if d.offerability.EligibleInternal? && !Workable(d.rightsState) then Some(RightsNotReady)
    else VersionProblem(w.dlas, id, v)
  }

  function LicenseError(w: World, id: Id32, v: Versioned<License>): Option<LicensingError> {
    var l := v.body;
    var dla := Current(w.dlas, l.dlaId);
    var prior := Current(w.licenses, id);
    if id == ZERO_ID || l.dlaId == ZERO_ID || l.licenseType == ZERO_ID || l.issuer == ZERO_ID || l.holder == ZERO_ID
       || l.jurisdiction == ZERO_ID || l.termsHash == ZERO_ID || v.hash == ZERO_ID then Some(InvalidIdentifier)
    else if dla.None? then Some(DlaMissing)
    else if l.status.Active? && !DlaEligible(w.rights, w.now, dla.value.body, false) then Some(DlaNotEligible)
    else if l.status.Active? && Past(l.expiresAt, w.now) then Some(InvalidTerm)
    else if (id, v.version) in w.licenses.versions then Some(VersionAlreadyExists)
    else if prior.Some? && !ValidTransition(prior.value.body.status, l.status) then Some(InvalidStatusTransition)
    else if prior.Some? && !SameLicense(prior.value.body, l) then Some(RecordBindingMismatch)
    else if prior.Some? && !TransferAllowed(prior.value.body, l) then Some(TransferForbidden)
    else VersionProblem(w.licenses, id, v)
  }

  predicate SameLicense(a: License, b: License) {
    a.dlaId == b.dlaId && a.licenseType == b.licenseType && a.issuer == b.issuer
  }

  predicate TransferAllowed(a: License, b: License) {
    a.transferable || (a.holder == b.holder && !b.transferable)
  }

  function OfferError(w: World, id: Id32, v: Versioned<Offer>): Option<LicensingError> {
    var o := v.body;
    var dla := Current(w.dlas, o.dlaId);
    var prior := Current(w.offers, id);
    if id == ZERO_ID || o.dlaId == ZERO_ID || o.template == ZERO_ID || o.licensor == ZERO_ID
       || o.offeredScope == ZERO_ID || o.currency == ZERO_ID || v.hash == ZERO_ID then Some(InvalidIdentifier)
    else if dla.None? then Some(DlaMissing)
    else if o.state.Published? && !DlaEligible(w.rights, w.now, dla.value.body, true) then Some(OfferNotEligible)
    else if o.state.Published? && !o.providerVerified then Some(PublicOfferRequiresProviderReadback)
    else if o.state.StagedInternal? && !DlaEligible(w.rights, w.now, dla.value.body, false) then Some(OfferNotEligible)
    else if Past(o.validUntil, w.now) then Some(InvalidTerm)
    else if (id, v.version) in w.offers.versions then Some(VersionAlreadyExists)
    else if prior.Some? && !SameOffer(prior.value.body, o) then Some(RecordBindingMismatch)
    else VersionProblem(w.offers, id, v)
  }

  predicate SameOffer(a: Offer, b: Offer) { a.dlaId == b.dlaId && a.licensor == b.licensor }

  function EntitlementError(w: World, id: Id32, v: Versioned<Entitlement>): Option<LicensingError> {
    var e := v.body;
    var license := Current(w.licenses, e.licenseId);
    var prior := Current(w.entitlements, id);
    if id == ZERO_ID || e.licenseId == ZERO_ID || e.holder == ZERO_ID || e.scope == ZERO_ID
       || e.obligations == ZERO_ID || v.hash == ZERO_ID then Some(InvalidIdentifier)
    else if license.None? then Some(LicenseMissing)
    else if license.value.body.holder != e.holder then Some(EntitlementHolderMismatch)
    else if e.state.Contractual() && !LicenseActive(w, e.licenseId) then Some(LicenseNotActive)
    else if e.state.Contractual() && Past(e.validUntil, w.now) then Some(InvalidTerm)
    else if e.state.Contractual() && !Within(e.validUntil, license.value.body.expiresAt) then Some(InvalidTerm)
    else if (id, v.version) in w.entitlements.versions then Some(VersionAlreadyExists)
    else if prior.Some? && !SameEntitlement(prior.value.body, e) then Some(RecordBindingMismatch)
    else VersionProblem(w.entitlements, id, v)
  }

  predicate Within(until: Option<Block>, expires: Option<Block>) {
    expires.Some? ==> until.Some? && until.value <= expires.value
  }

  predicate SameEntitlement(a: Entitlement, b: Entitlement) { a.licenseId == b.licenseId && a.holder == b.holder }

  datatype Call =
    | RightsCall(call: Rights.Call)
    | DlaCall(id: Id32, dla: Versioned<Dla>)
    | LicenseCall(id: Id32, license: Versioned<License>)
    | OfferCall(id: Id32, offer: Versioned<Offer>)
    | EntitlementCall(id: Id32, entitlement: Versioned<Entitlement>)
    | Blocks(n: nat)

  function RecordDla(w: World, id: Id32, v: Versioned<Dla>): World {
    if DlaError(w, id, v).Some? then w else w.(dlas := Put(w.dlas, id, v))
  }

  function RecordLicense(w: World, id: Id32, v: Versioned<License>): World {
    if LicenseError(w, id, v).Some? then w else w.(licenses := Put(w.licenses, id, v))
  }

  function RecordOffer(w: World, id: Id32, v: Versioned<Offer>): World {
    if OfferError(w, id, v).Some? then w else w.(offers := Put(w.offers, id, v))
  }

  function RecordEntitlement(w: World, id: Id32, v: Versioned<Entitlement>): World {
    if EntitlementError(w, id, v).Some? then w else w.(entitlements := Put(w.entitlements, id, v))
  }

  function Apply(w: World, c: Call): World {
    match c
    case RightsCall(call) => w.(rights := Rights.Apply(w.rights, call))
    case DlaCall(id, v) => RecordDla(w, id, v)
    case LicenseCall(id, v) => RecordLicense(w, id, v)
    case OfferCall(id, v) => RecordOffer(w, id, v)
    case EntitlementCall(id, v) => RecordEntitlement(w, id, v)
    case Blocks(n) => w.(now := w.now + n)
  }

  function Run(w: World, calls: seq<Call>): World {
    if calls == [] then w else Apply(Run(w, calls[..|calls| - 1]), calls[|calls| - 1])
  }
}
