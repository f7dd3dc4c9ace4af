/** The oracle pallet as it runs: four storage maps and the shared append of a revision. */
module OraclePallet {
  import opened Prelude
  import opened Primitives
  import opened OracleModel
  import Proofs = OracleProofs

  class OraclePallet {
    ghost const legacy: map<Id32, Case>
    var signals: map<Id32, Signal>
    var cases: map<Id32, Case>
    var heads: map<Id32, U32>
    var versions: map<(Id32, U32), Revision>

    ghost function Storage(): State
      reads this
    {
      State(signals, cases, heads, versions)
    }

    ghost predicate Valid(now: Block)
      reads this
    {
      Proofs.Valid(legacy, Chain(now, Storage()))
    }

    /** The storage found at the upgrade: signals, and cases without revisions (none on a fresh chain). */
    constructor (now: Block, reported: map<Id32, Signal>, stored: map<Id32, Case>)
      requires Proofs.SignalsSound(reported)
      ensures legacy == stored && Chain(now, Storage()) == Upgraded(now, reported, stored) && Valid(now)
    {
      legacy := stored;
      signals, cases, heads, versions := reported, stored, map[], map[];
      new;
      Proofs.UpgradedIsValid(now, reported, stored);
    }

    method AppendCaseRevision(now: Block, id: Id32, version: U32, previous: Option<Id32>, c: Case)
      modifies this
      ensures Storage() == Append(old(Storage()), now, id, version, previous, c)
    {
      versions := versions[(id, version) := Revision(c, previous, now)];
      heads := heads[id := version];
      cases := cases[id := c];
    }

    method ReportSignal(now: Block, id: Id32, r: Report) returns (outcome: Result<(), OracleError>)
      requires Valid(now)
      modifies this
      ensures Valid(now)
      ensures match OracleModel.ReportSignal(old(Storage()), now, id, r)
        case Ok(after) => outcome == Ok(()) && Storage() == after
        case Err(e) => outcome == Err(e) && Storage() == old(Storage())
    {
      hide Proofs.Valid;
      Proofs.ReportKeeps(legacy, Chain(now, Storage()), id, r);
      if id == ZERO_ID || r.oracle == ZERO_ID || r.targetType == ZERO_ID || r.targetId == ZERO_ID
         || r.signalType == ZERO_ID || r.evidenceHash == ZERO_ID || r.recordHash == ZERO_ID {
        return Err(InvalidIdentifier);
      }
      if r.risk > 10_000 || r.confidence > 10_000 { return Err(InvalidScore); }
      if id in signals { return Err(RecordAlreadyExists); }
      if r.opens.Some? {
        var caseId := r.opens.value.0;
        if caseId == ZERO_ID { return Err(InvalidIdentifier); }
        if caseId in cases || caseId in heads { return Err(RecordAlreadyExists); }
      }
      signals := signals[id := Signal(r.oracle, r.targetType, r.targetId, r.signalType, r.risk, r.confidence, r.action,
        Reported, false, r.evidenceHash, r.recordHash)];
      if r.opens.Some? {
        var (caseId, authority) := r.opens.value;
        AppendCaseRevision(now, caseId, 1, None,
          Case(id, r.targetType, r.targetId, Open, authority, false, None, r.recordHash));
      }
      return Ok(());
    }

    method RecordReviewDecision(now: Block, d: Decision) returns (outcome: Result<(), OracleError>)
      requires Valid(now)
      modifies this
      ensures Valid(now)
      ensures match RecordDecision(old(Storage()), now, d)
        case Ok(after) => outcome == Ok(()) && Storage() == after
        case Err(e) => outcome == Err(e) && Storage() == old(Storage())
    {
      hide Proofs.Valid;
      Proofs.DecisionKeeps(legacy, Chain(now, Storage()), d);
      var id := d.caseId;
      if id == ZERO_ID || d.decisionHash == ZERO_ID || d.recordHash == ZERO_ID { return Err(InvalidIdentifier); }
      if id !in cases { return Err(CaseMissing); }
      var prior := cases[id];
      if !d.reviewer.Permits(prior.authority) { return Err(InsufficientReviewAuthority); }
      if !d.state.Decision() { return Err(DecisionRequired); }
      if d.recordHash == prior.recordHash { return Err(InvalidRevision); }
      var priorVersion: U32 := if id in heads then heads[id] else 1;
      if priorVersion == U32_MAX { return Err(InvalidRevision); }
      var next: U32 := priorVersion + 1;
      if (id, next) in versions { return Err(InvalidRevision); }
      if id !in heads {
        if (id, 1) in versions { return Err(InvalidRevision); }
        AppendCaseRevision(now, id, 1, None, prior);
      } else {
        if (id, priorVersion) !in versions { return Err(InvalidRevision); }
        if versions[(id, priorVersion)].body.recordHash != prior.recordHash { return Err(InvalidRevision); }
      }
      AppendCaseRevision(now, id, next, Some(prior.recordHash),
        Case(prior.signalId, prior.targetType, prior.targetId, d.state, prior.authority, d.actionTaken,
             Some(d.decisionHash), d.recordHash));
      return Ok(());
    }
  }
}
