/** The oracle pallet: reported signals, and review cases kept as hash-linked revisions beside a head projection. */
module OracleModel {
  import opened Prelude
  import opened Primitives

  datatype Action = Observe | Review | QuarantineRecommended | SuspensionReviewRecommended | NoAction

  datatype SignalState = Reported | Acknowledged | SignalUnderReview | SignalDismissed | Confirmed | SignalSuperseded

  datatype CaseState = Open | Triage | EvidenceHold | InReview | Resolved | Dismissed | Appealed | CaseSuperseded {
    predicate Decision() { Resolved? || Dismissed? || Appealed? || EvidenceHold? || InReview? }
  }

  datatype Signal = Signal(
    oracle: Id32, targetType: Id32, targetId: Id32, signalType: Id32, risk: U16, confidence: U16, action: Action,
    state: SignalState, autonomousEffect: bool, evidenceHash: Id32, recordHash: Id32)

  datatype Case = Case(
    signalId: Id32, targetType: Id32, targetId: Id32, state: CaseState, authority: AuthorityClass,
    actionTaken: bool, decision: Option<Id32>, recordHash: Id32)

  datatype Revision = Revision(body: Case, previous: Option<Id32>, recordedAt: Block)

  datatype OracleError =
    | InvalidIdentifier | InvalidScore | RecordAlreadyExists | CaseMissing | DecisionRequired
    | InsufficientReviewAuthority | InvalidRevision

  datatype State = State(
    signals: map<Id32, Signal>, cases: map<Id32, Case>, heads: map<Id32, U32>, versions: map<(Id32, U32), Revision>)

  /** A report: the signal's own fields and, optionally, the case to open with the authority it requires. */
  datatype Report = Report(
    oracle: Id32, targetType: Id32, targetId: Id32, signalType: Id32, risk: U16, confidence: U16, action: Action,
    evidenceHash: Id32, recordHash: Id32, opens: Option<(Id32, AuthorityClass)>)

  datatype Decision = Decision(
    caseId: Id32, reviewer: AuthorityClass, state: CaseState, decisionHash: Id32, actionTaken: bool, recordHash: Id32)

  function Append(s: State, now: Block, id: Id32, version: U32, previous: Option<Id32>, c: Case): State {
    s.(versions := s.versions[(id, version) := Revision(c, previous, now)],
       heads := s.heads[id := version], cases := s.cases[id := c])
  }

  function ReportedSignal(r: Report): Signal {
    Signal(r.oracle, r.targetType, r.targetId, r.signalType, r.risk, r.confidence, r.action, Reported, false,
           r.evidenceHash, r.recordHash)
  }

  function OpenedCase(id: Id32, r: Report, authority: AuthorityClass): Case {
    Case(id, r.targetType, r.targetId, Open, authority, false, None, r.recordHash)
  }

  function ReportSignal(s: State, now: Block, id: Id32, r: Report): Result<State, OracleError> {
    if id == ZERO_ID || r.oracle == ZERO_ID || r.targetType == ZERO_ID || r.targetId == ZERO_ID
       || r.signalType == ZERO_ID || r.evidenceHash == ZERO_ID || r.recordHash == ZERO_ID then Err(InvalidIdentifier)
    else if r.risk > 10_000 || r.confidence > 10_000 then Err(InvalidScore)
    else if id in s.signals then Err(RecordAlreadyExists)
    else if r.opens.Some? && r.opens.value.0 == ZERO_ID then Err(InvalidIdentifier)
    else if r.opens.Some? && (r.opens.value.0 in s.cases || r.opens.value.0 in s.heads) then Err(RecordAlreadyExists)
    else
      var t := s.(signals := s.signals[id := ReportedSignal(r)]);
      if r.opens.None? then Ok(t)
      else Ok(Append(t, now, r.opens.value.0, 1, None, OpenedCase(id, r, r.opens.value.1)))
  }

  function Decided(prior: Case, d: Decision): Case {
    Case(prior.signalId, prior.targetType, prior.targetId, d.state, prior.authority, d.actionTaken,
         Some(d.decisionHash), d.recordHash)
  }

  function RecordDecision(s: State, now: Block, d: Decision): Result<State, OracleError> {
    if d.caseId == ZERO_ID || d.decisionHash == ZERO_ID || d.recordHash == ZERO_ID then Err(InvalidIdentifier)
    else if d.caseId !in s.cases then Err(CaseMissing)
    else
      var id := d.caseId;
      var prior := s.cases[id];
      var version: U32 := if id in s.heads then s.heads[id] else 1;
      if !d.reviewer.Permits(prior.authority) then Err(InsufficientReviewAuthority)
      else if !d.state.Decision() then Err(DecisionRequired)
      else if d.recordHash == prior.recordHash then Err(InvalidRevision)
      else if version == U32_MAX then Err(InvalidRevision)
      else if (id, version + 1) in s.versions then Err(InvalidRevision)
      else if id !in s.heads && (id, 1) in s.versions then Err(InvalidRevision)
      else if id in s.heads && (id, version) !in s.versions then Err(InvalidRevision)
      else if id in s.heads && s.versions[(id, version)].body.recordHash != prior.recordHash then Err(InvalidRevision)
      else
        var t := if id in s.heads then s else Append(s, now, id, 1, None, prior);
        Ok(Append(t, now, id, version + 1, Some(prior.recordHash), Decided(prior, d)))
  }

  // ------------------------------------------------------------------ runs

  datatype Call = ReportCall(id: Id32, report: Report) | DecisionCall(decision: Decision) | Blocks(n: nat)

  datatype Chain = Chain(now: Block, state: State)

  function Apply(c: Chain, call: Call): Chain {
    match call
    case ReportCall(id, r) => c.(state := Settled(ReportSignal(c.state, c.now, id, r), c.state))
    case DecisionCall(d) => c.(state := Settled(RecordDecision(c.state, c.now, d), c.state))
    case Blocks(n) => c.(now := c.now + n)
  }

  function Run(c: Chain, calls: seq<Call>): Chain {
    if calls == [] then c else Apply(Run(c, calls[..|calls| - 1]), calls[|calls| - 1])
  }

  /** A chain at the upgrade: signals, and cases stored without any revision. Empty maps are a fresh chain. */
  function Upgraded(now: Block, signals: map<Id32, Signal>, legacy: map<Id32, Case>): Chain {
    Chain(now, State(signals, legacy, map[], map[]))
  }
}
