/** Over every run the case projection is the head of a dense, hash-linked line of revisions. */
module OracleProofs {
  import opened Prelude
  import opened Primitives
  import opened OracleModel

  predicate SameSubject(a: Case, b: Case) {
    a.signalId == b.signalId && a.targetType == b.targetType && a.targetId == b.targetId && a.authority == b.authority
  }

  /** The projection is the head revision; without a head there is only an untouched legacy case. */
  ghost predicate CaseAt(legacy: map<Id32, Case>, s: State, id: Id32) {
    && (id in legacy ==> id in s.cases)
    && (id in s.heads ==>
          && s.heads[id] >= 1 && id in s.cases && (id, s.heads[id]) in s.versions
          && s.versions[(id, s.heads[id])].body == s.cases[id])
    && (id in s.cases && id !in s.heads ==> id in legacy && s.cases[id] == legacy[id])
  }

  /** Revision `k` exists exactly when it is in 1..head; it repeats the subject of revision 1, and a later
      one is a decision that names its predecessor's hash and carries another. */
  ghost predicate RevisionAt(legacy: map<Id32, Case>, c: Chain, id: Id32, k: U32) {
    var s := c.state;
    && ((id, k) in s.versions <==> id in s.heads && 1 <= k <= s.heads[id])
    && ((id, k) in s.versions ==>
          && s.versions[(id, k)].recordedAt <= c.now
          && (k == 1 ==> s.versions[(id, k)].previous.None? && Origin(legacy, s, id, s.versions[(id, k)].body))
          && (k > 1 ==> Follows(s, id, k)))
  }

  /** The first revision is the legacy case as it was, or the case its signal opened. */
  ghost predicate Origin(legacy: map<Id32, Case>, s: State, id: Id32, c: Case) {
    if id in legacy then c == legacy[id]
    else
      && c.signalId in s.signals && c.state.Open? && c.decision.None? && !c.actionTaken
      && s.signals[c.signalId].targetType == c.targetType && s.signals[c.signalId].targetId == c.targetId
      && s.signals[c.signalId].recordHash == c.recordHash
  }

  ghost predicate Follows(s: State, id: Id32, k: U32)
    requires k > 1 && (id, k) in s.versions
  {
    && (id, k - 1) in s.versions && (id, 1) in s.versions
    && s.versions[(id, k)].previous == Some(s.versions[(id, k - 1)].body.recordHash)
    && s.versions[(id, k)].body.recordHash != s.versions[(id, k - 1)].body.recordHash
    && s.versions[(id, k - 1)].recordedAt <= s.versions[(id, k)].recordedAt
    && SameSubject(s.versions[(id, k)].body, s.versions[(id, 1)].body)
    && s.versions[(id, k)].body.state.Decision() && NonZero(s.versions[(id, k)].body.decision)
  }

  ghost predicate SignalSound(v: Signal) {
    v.risk <= 10_000 && v.confidence <= 10_000 && v.state.Reported? && !v.autonomousEffect
  }

  ghost predicate Valid(legacy: map<Id32, Case>, c: Chain) {
    && (forall id :: CaseAt(legacy, c.state, id))
    && (forall id, k: U32 :: RevisionAt(legacy, c, id, k))
    && SignalsSound(c.state.signals)
  }

  ghost predicate Extends(c: Chain, d: Chain) {
    && c.now <= d.now
    && (forall id :: id in c.state.signals ==> id in d.state.signals && d.state.signals[id] == c.state.signals[id])
    && (forall id, k: U32 :: (id, k) in c.state.versions ==>
          (id, k) in d.state.versions && d.state.versions[(id, k)] == c.state.versions[(id, k)])
    && (forall id :: id in c.state.heads ==> id in d.state.heads && c.state.heads[id] <= d.state.heads[id])
  }

  /** What `report_signal` always stored. */
  ghost predicate SignalsSound(signals: map<Id32, Signal>) {
    forall id :: id in signals ==> SignalSound(signals[id])
  }

  lemma UpgradedIsValid(now: Block, signals: map<Id32, Signal>, legacy: map<Id32, Case>)
    requires SignalsSound(signals)
    ensures Valid(legacy, Upgraded(now, signals, legacy))
  {
  }

  // ------------------------------------------------------------------ one step

  /** Opening a case that was never stored. */
  lemma OpenKeeps(legacy: map<Id32, Case>, c: Chain, id: Id32, first: Case)
    requires Valid(legacy, c) && id !in c.state.cases && id !in c.state.heads
    requires Origin(legacy, c.state, id, first)
    ensures var d := c.(state := Append(c.state, c.now, id, 1, None, first)); Valid(legacy, d) && Extends(c, d)
  {
    var d := c.(state := Append(c.state, c.now, id, 1, None, first));
    assert RevisionAt(legacy, c, id, 1);
    forall i ensures CaseAt(legacy, d.state, i) {
      assert CaseAt(legacy, c.state, i);
      if i != id && i in c.state.heads { assert RevisionAt(legacy, c, i, c.state.heads[i]); }
    }
    forall i, k: U32 ensures RevisionAt(legacy, d, i, k) { assert RevisionAt(legacy, c, i, k); }
  }

  /** The first revision of a case stored before the upgrade. */
  lemma AdoptKeeps(legacy: map<Id32, Case>, c: Chain, id: Id32)
    requires Valid(legacy, c) && id in c.state.cases && id !in c.state.heads
    ensures var d := c.(state := Append(c.state, c.now, id, 1, None, c.state.cases[id])); Valid(legacy, d) && Extends(c, d)
  {
    var d := c.(state := Append(c.state, c.now, id, 1, None, c.state.cases[id]));
    assert CaseAt(legacy, c.state, id) && RevisionAt(legacy, c, id, 1);
    forall i ensures CaseAt(legacy, d.state, i) { assert CaseAt(legacy, c.state, i); }
    forall i, k: U32 ensures RevisionAt(legacy, d, i, k) { assert RevisionAt(legacy, c, i, k); }
  }

  /** A decision on a case that has a head. */
  lemma NextKeeps(legacy: map<Id32, Case>, c: Chain, v: Decision)
    requires Valid(legacy, c) && v.caseId in c.state.heads && c.state.heads[v.caseId] < U32_MAX
    requires v.caseId in c.state.cases && v.recordHash != c.state.cases[v.caseId].recordHash
    requires v.state.Decision() && v.decisionHash != ZERO_ID
    ensures var id := v.caseId; var prior := c.state.cases[id];
      var d := c.(state := Append(c.state, c.now, id, c.state.heads[id] + 1, Some(prior.recordHash), Decided(prior, v)));
      Valid(legacy, d) && Extends(c, d)
  {
    var id := v.caseId;
    var prior, head := c.state.cases[id], c.state.heads[id];
    var d := c.(state := Append(c.state, c.now, id, head + 1, Some(prior.recordHash), Decided(prior, v)));
    assert CaseAt(legacy, c.state, id) && RevisionAt(legacy, c, id, head) && RevisionAt(legacy, c, id, 1);
    assert RevisionAt(legacy, c, id, head + 1);
    forall i ensures CaseAt(legacy, d.state, i) { assert CaseAt(legacy, c.state, i); }
    forall i, k: U32 ensures RevisionAt(legacy, d, i, k) {
      assert RevisionAt(legacy, c, i, k);
    }
  }

  lemma ReportKeeps(legacy: map<Id32, Case>, c: Chain, id: Id32, r: Report)
    requires Valid(legacy, c)
    ensures Valid(legacy, Apply(c, ReportCall(id, r))) && Extends(c, Apply(c, ReportCall(id, r)))
  {
    if ReportSignal(c.state, c.now, id, r).Ok? {
      var t := c.(state := c.state.(signals := c.state.signals[id := ReportedSignal(r)]));
      SignalKeeps(legacy, c, id, r);
      if r.opens.Some? {
        hide Valid, Extends;
        NotLegacy(legacy, c, r.opens.value.0);
        OpenKeeps(legacy, t, r.opens.value.0, OpenedCase(id, r, r.opens.value.1));
        ExtendsTransitive(c, t, Apply(c, ReportCall(id, r)));
      }
    }
  }

  lemma NotLegacy(legacy: map<Id32, Case>, c: Chain, id: Id32)
    requires Valid(legacy, c) && id !in c.state.cases
    ensures id !in legacy
  {
    assert CaseAt(legacy, c.state, id);
  }

  lemma SignalKeeps(legacy: map<Id32, Case>, c: Chain, id: Id32, r: Report)
    requires Valid(legacy, c) && id !in c.state.signals && r.risk <= 10_000 && r.confidence <= 10_000
    ensures var d := c.(state := c.state.(signals := c.state.signals[id := ReportedSignal(r)])); Valid(legacy, d) && Extends(c, d)
  {
    var d := c.(state := c.state.(signals := c.state.signals[id := ReportedSignal(r)]));
    forall i ensures CaseAt(legacy, d.state, i) { assert CaseAt(legacy, c.state, i); }
    forall i, k: U32 ensures RevisionAt(legacy, d, i, k) { assert RevisionAt(legacy, c, i, k); }
  }

  lemma ExtendsTransitive(c: Chain, d: Chain, e: Chain)
    requires Extends(c, d) && Extends(d, e)
    ensures Extends(c, e)
  {
  }

  lemma DecisionKeeps(legacy: map<Id32, Case>, c: Chain, v: Decision)
    requires Valid(legacy, c)
    ensures Valid(legacy, Apply(c, DecisionCall(v))) && Extends(c, Apply(c, DecisionCall(v)))
  {
    if RecordDecision(c.state, c.now, v).Ok? {
      hide Valid, Extends;
      if v.caseId in c.state.heads {
        NextKeeps(legacy, c, v);
      } else {
        AdoptKeeps(legacy, c, v.caseId);
        var d := c.(state := Append(c.state, c.now, v.caseId, 1, None, c.state.cases[v.caseId]));
        NextKeeps(legacy, d, v);
        ExtendsTransitive(c, d, Apply(c, DecisionCall(v)));
      }
    } else {
      assert Extends(c, c);
    }
  }

  lemma BlocksKeep(legacy: map<Id32, Case>, c: Chain, n: nat)
    requires Valid(legacy, c)
    ensures Valid(legacy, Apply(c, Blocks(n))) && Extends(c, Apply(c, Blocks(n)))
  {
    forall i, k: U32 ensures RevisionAt(legacy, Apply(c, Blocks(n)), i, k) { assert RevisionAt(legacy, c, i, k); }
  }

  // ------------------------------------------------------------------ runs

  lemma {:induction false} RunKeeps(legacy: map<Id32, Case>, c: Chain, calls: seq<Call>)
    requires Valid(legacy, c)
    ensures Valid(legacy, Run(c, calls)) && Extends(c, Run(c, calls))
  {
    if calls == [] {
      assert Extends(c, c);
    } else {
      hide Valid, Extends, Apply;
      var d := Run(c, calls[..|calls| - 1]);
      RunKeeps(legacy, c, calls[..|calls| - 1]);
      match calls[|calls| - 1] {
        case ReportCall(id, r) => ReportKeeps(legacy, d, id, r);
        case DecisionCall(v) => DecisionKeeps(legacy, d, v);
        case Blocks(n) => BlocksKeep(legacy, d, n);
      }
      ExtendsTransitive(c, d, Apply(d, calls[|calls| - 1]));
    }
  }

  /** From a fresh chain or one with legacy cases, every run keeps the history sound. */
  lemma {:induction false} HistoryIsSound(
      now: Block, signals: map<Id32, Signal>, legacy: map<Id32, Case>, calls: seq<Call>)
    requires SignalsSound(signals)
    ensures Valid(legacy, Run(Upgraded(now, signals, legacy), calls))
    ensures Extends(Upgraded(now, signals, legacy), Run(Upgraded(now, signals, legacy), calls))
  {
    hide Valid, Run, Extends;
    UpgradedIsValid(now, signals, legacy);
    RunKeeps(legacy, Upgraded(now, signals, legacy), calls);
  }

  /** A case keeps its signal, target and required authority for ever, from whatever first revision it had. */
  lemma {:induction false} SubjectNeverChanges(legacy: map<Id32, Case>, c: Chain, calls: seq<Call>, id: Id32)
    requires Valid(legacy, c) && id in c.state.cases
    ensures var d := Run(c, calls);
      id in d.state.cases && SameSubject(d.state.cases[id], c.state.cases[id])
  {
    hide Run;
    var d := Run(c, calls);
    RunKeeps(legacy, c, calls);
    assert CaseAt(legacy, c.state, id) && CaseAt(legacy, d.state, id);
    if id in c.state.heads {
      assert RevisionAt(legacy, c, id, c.state.heads[id]) && RevisionAt(legacy, c, id, 1);
    }
    if id in d.state.heads {
      assert RevisionAt(legacy, d, id, d.state.heads[id]) && RevisionAt(legacy, d, id, 1);
    }
  }

  /** A legacy case is untouched until its first decision, and then revision 1 for ever. */
  lemma {:induction false} LegacyIsPreserved(
      now: Block, signals: map<Id32, Signal>, legacy: map<Id32, Case>, calls: seq<Call>, id: Id32)
    requires SignalsSound(signals) && id in legacy
    ensures var s := Run(Upgraded(now, signals, legacy), calls).state;
      if id in s.heads then (id, 1) in s.versions && s.versions[(id, 1)].body == legacy[id] && s.heads[id] >= 1
      else id in s.cases && s.cases[id] == legacy[id]
  {
    hide Run;
    HistoryIsSound(now, signals, legacy, calls);
    var d := Run(Upgraded(now, signals, legacy), calls);
    assert CaseAt(legacy, d.state, id) && RevisionAt(legacy, d, id, 1);
  }

  /** The consistency checks on stored revisions never fire: an otherwise admissible decision is refused
      as an invalid revision exactly when it repeats the current hash or the counter is exhausted. */
  lemma InvalidRevisionExactly(legacy: map<Id32, Case>, c: Chain, v: Decision)
    requires Valid(legacy, c) && v.caseId in c.state.cases
    requires v.caseId != ZERO_ID && v.decisionHash != ZERO_ID && v.recordHash != ZERO_ID
    requires v.reviewer.Permits(c.state.cases[v.caseId].authority) && v.state.Decision()
    ensures RecordDecision(c.state, c.now, v) == Err(InvalidRevision)
            <==> (v.recordHash == c.state.cases[v.caseId].recordHash
                  || (v.caseId in c.state.heads && c.state.heads[v.caseId] == U32_MAX))
    ensures RecordDecision(c.state, c.now, v).Err? ==> RecordDecision(c.state, c.now, v) == Err(InvalidRevision)
  {
    var id, s := v.caseId, c.state;
    var version: U32 := if id in s.heads then s.heads[id] else 1;
    assert CaseAt(legacy, s, id) && RevisionAt(legacy, c, id, version) && RevisionAt(legacy, c, id, 1);
    if version < U32_MAX { assert RevisionAt(legacy, c, id, version + 1); }
  }

  // ------------------------------------------------------------------ what a call does

  /** A report: which one is refused and why, and what an accepted one stores. */
  lemma ReportOutcome(s: State, now: Block, id: Id32, r: Report)
    ensures var named := id != ZERO_ID && r.oracle != ZERO_ID && r.targetType != ZERO_ID && r.targetId != ZERO_ID
        && r.signalType != ZERO_ID && r.evidenceHash != ZERO_ID && r.recordHash != ZERO_ID;
      var scored := r.risk <= 10_000 && r.confidence <= 10_000;
      var unused := id !in s.signals;
      var caseNamed := r.opens.Some? ==> r.opens.value.0 != ZERO_ID;
      var caseFresh := r.opens.Some? ==> r.opens.value.0 !in s.cases && r.opens.value.0 !in s.heads;
      match ReportSignal(s, now, id, r)
      case Err(InvalidIdentifier) => !named || (scored && unused && !caseNamed)
      case Err(InvalidScore) => named && !scored
      case Err(RecordAlreadyExists) => named && scored && (!unused || (caseNamed && !caseFresh))
      case Err(_) => false
      case Ok(t) => named && scored && unused && caseNamed && caseFresh && Reported(s, now, id, r, t)
  {
  }

  /** The signal holds the report's fields, has no effect of its own and leaves every other signal alone; the case it
      opens is revision 1, open and undecided, about the signal's target. */
  ghost predicate Reported(s: State, now: Block, id: Id32, r: Report, t: State) {
    && id in t.signals
    && (var v := t.signals[id];
        && v.oracle == r.oracle && v.targetType == r.targetType && v.targetId == r.targetId && v.signalType == r.signalType
        && v.risk == r.risk && v.confidence == r.confidence && v.action == r.action && v.state == SignalState.Reported
        && !v.autonomousEffect && v.evidenceHash == r.evidenceHash && v.recordHash == r.recordHash)
    && t.signals == s.signals[id := t.signals[id]]
    && (if r.opens.None? then t.cases == s.cases && t.heads == s.heads && t.versions == s.versions
        else
          var k := r.opens.value.0;
          && k in t.cases
          && (var c := t.cases[k];
              && c.signalId == id && c.targetType == r.targetType && c.targetId == r.targetId && c.state == Open
              && c.authority == r.opens.value.1 && !c.actionTaken && c.decision == None && c.recordHash == r.recordHash)
          && t.cases == s.cases[k := t.cases[k]] && t.heads == s.heads[k := 1]
          && t.versions == s.versions[(k, 1) := Revision(t.cases[k], None, now)])
  }

  /** A decision in any state a run can reach: accepted exactly when the identifiers are non-zero, the case is stored,
      the reviewer's class is at least the required one, the state is one of the five, the record hash is new and the
      counter is not exhausted; otherwise the error names the first of these that fails. */
  lemma DecisionOutcome(legacy: map<Id32, Case>, c: Chain, d: Decision)
    requires Valid(legacy, c)
    ensures var s := c.state; var id := d.caseId;
      var named := id != ZERO_ID && d.decisionHash != ZERO_ID && d.recordHash != ZERO_ID;
      var stored := id in s.cases;
      var permitted := stored ==>
        (match s.cases[id].authority
         case D0 => true
         case D1 => d.reviewer == D1 || d.reviewer == D2 || d.reviewer == D3
         case D2 => d.reviewer == D2 || d.reviewer == D3
         case D3 => d.reviewer == D3);
      var decides := d.state == Resolved || d.state == Dismissed || d.state == Appealed || d.state == EvidenceHold
        || d.state == InReview;
      var news := stored ==> d.recordHash != s.cases[id].recordHash && (id in s.heads ==> s.heads[id] < 0xFFFF_FFFF);
      match RecordDecision(s, c.now, d)
      case Err(InvalidIdentifier) => !named
      case Err(CaseMissing) => named && !stored
      case Err(InsufficientReviewAuthority) => named && stored && !permitted
      case Err(DecisionRequired) => named && stored && permitted && !decides
      case Err(InvalidRevision) => named && stored && permitted && decides && !news
      case Err(_) => false
      case Ok(t) => named && stored && permitted && decides && news && Decides(s, c.now, d, t)
  {
    var id, s := d.caseId, c.state;
    var version: U32 := if id in s.heads then s.heads[id] else 1;
    assert CaseAt(legacy, s, id) && RevisionAt(legacy, c, id, version) && RevisionAt(legacy, c, id, 1);
    if version < U32_MAX { assert RevisionAt(legacy, c, id, version + 1); }
  }

  /** The case keeps its subject and takes state, decision hash, action flag and record hash of the call, as the next
      revision (the second after a case stored without any), which names the hash before it. */
  ghost predicate Decides(s: State, now: Block, d: Decision, t: State)
    requires d.caseId in s.cases
  {
    var id, prior := d.caseId, s.cases[d.caseId];
    var after := prior.(state := d.state, decision := Some(d.decisionHash), actionTaken := d.actionTaken, recordHash := d.recordHash);
    var head := if id in s.heads then s.heads[id] else 1;
    && t.signals == s.signals && t.cases == s.cases[id := after]
    && head < U32_MAX && t.heads == s.heads[id := head + 1]
    && t.versions == (if id in s.heads then s.versions else s.versions[(id, 1) := Revision(prior, None, now)])
         [(id, head + 1) := Revision(after, Some(prior.recordHash), now)]
  }
}
