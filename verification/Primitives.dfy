/** Enumerations shared by the pallets (primitives/src/lib.rs). */
module Primitives {
  import opened Prelude

  datatype AuthorityClass = D0 | D1 | D2 | D3 {
    function Rank(): nat {
      match this
      case D0 => 0
      case D1 => 1
      case D2 => 2
      case D3 => 3
    }

    predicate Permits(required: AuthorityClass) {
      Rank() >= required.Rank()
    }
  }

  datatype RecordState =
    | Draft | Asserted | UnderReview | VerifiedForWorkflow | ContractuallyRecorded | Operative
    | Suspended | Revoked | Expired | Superseded | Disputed | Retired
  {
    predicate Contractual() { ContractuallyRecorded? || Operative? }
  }

  datatype DlaState = Hold | EligibleInternal | EligiblePublic | Paused | DlaRetired

  datatype LicenseStatus = Pending | Active | LicenseSuspended | LicenseRevoked | LicenseExpired | LicenseSuperseded {
    predicate Closed() { LicenseRevoked? || LicenseExpired? || LicenseSuperseded? }
  }

  datatype OfferState =
    | OfferDraft | StagedInternal | Published | OfferPaused | OfferClosed | OfferRevoked | OfferSuperseded

  type Block = nat

  predicate NonZero(id: Option<Id32>) {
    id.Some? && id.value != ZERO_ID
  }
}
