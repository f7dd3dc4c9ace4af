/** The rights pallet: two append-only registries, each with a superseded-by map. */
module Rights {
  import opened Prelude
  import opened Primitives
  import S = Supersession

  datatype Interest = Interest(
    assetId: Id32, assetVersionHash: Id32, holder: Id32, interestType: Id32, shareBasisPoints: U16,
    state: RecordState, authority: AuthorityClass, basisInstrumentHash: Option<Id32>,
    supersedes: Option<Id32>, evidenceHash: Id32, recordHash: Id32)

  datatype Instrument = Instrument(
    assetId: Id32, assetVersionHash: Id32, grantor: Id32, grantee: Id32, instrumentType: Id32,
    rightsScope: Id32, excludedScope: Id32, territoryScope: Id32, channelScope: Id32,
    exclusive: bool, transferable: bool, sublicensable: bool, commercialUse: bool,
    validFrom: Option<Block>, validUntil: Option<Block>, royaltyPolicyId: Option<Id32>,
    state: RecordState, authority: AuthorityClass, governingHash: Option<Id32>,
    supersedes: Option<Id32>, evidenceHash: Id32, termsHash: Id32, recordHash: Id32)

  datatype RightsError =
    | InvalidIdentifier | InvalidShare | RecordAlreadyExists | SupersededRecordMissing | SupersededRecordMismatch
    | RecordAlreadySuperseded | ContractualStateRequiresD3 | ContractualStateRequiresGoverningInstrument | InvalidTerm

  datatype State = State(
    interests: map<Id32, Interest>, interestBy: map<Id32, Id32>,
    instruments: map<Id32, Instrument>, instrumentBy: map<Id32, Id32>)

  const EMPTY: State := State(map[], map[], map[], map[])

  // ------------------------------------------------------------------ the extrinsics

  /** The checks on a contractual state, in order. */
  function ContractualError(state: RecordState, authority: AuthorityClass, basis: Option<Id32>): Option<RightsError> {
    if !state.Contractual() then None
    else if !authority.Permits(D3) then Some(ContractualStateRequiresD3)
    else if !NonZero(basis) then Some(ContractualStateRequiresGoverningInstrument)
    else None
  }

  function InterestError(s: State, id: Id32, r: Interest): Option<RightsError> {
    if id == ZERO_ID || r.assetId == ZERO_ID || r.assetVersionHash == ZERO_ID || r.holder == ZERO_ID
       || r.interestType == ZERO_ID || r.evidenceHash == ZERO_ID || r.recordHash == ZERO_ID then Some(InvalidIdentifier)
    else if r.shareBasisPoints == 0 || r.shareBasisPoints > 10_000 then Some(InvalidShare)
    else if id in s.interests then Some(RecordAlreadyExists)
    else if ContractualError(r.state, r.authority, r.basisInstrumentHash).Some? then
      ContractualError(r.state, r.authority, r.basisInstrumentHash)
    else if r.supersedes.None? then None
    else if r.supersedes.value !in s.interests then Some(SupersededRecordMissing)
    else if s.interests[r.supersedes.value].assetId != r.assetId then Some(SupersededRecordMismatch)
    else if r.supersedes.value in s.interestBy then Some(RecordAlreadySuperseded)
    else None
  }

  function RecordInterest(s: State, id: Id32, r: Interest): State {
    if InterestError(s, id, r).Some? then s
    else s.(interests := s.interests[id := r],
            interestBy := if r.supersedes.Some? then s.interestBy[r.supersedes.value := id] else s.interestBy)
  }

  function InstrumentError(s: State, id: Id32, r: Instrument): Option<RightsError> {
    if id == ZERO_ID || r.assetId == ZERO_ID || r.assetVersionHash == ZERO_ID || r.grantor == ZERO_ID
       || r.grantee == ZERO_ID || r.instrumentType == ZERO_ID || r.rightsScope == ZERO_ID
       || r.evidenceHash == ZERO_ID || r.termsHash == ZERO_ID || r.recordHash == ZERO_ID then Some(InvalidIdentifier)
    else if id in s.instruments then Some(RecordAlreadyExists)
    else if r.validFrom.Some? && r.validUntil.Some? && r.validUntil.value < r.validFrom.value then Some(InvalidTerm)
    else if ContractualError(r.state, r.authority, r.governingHash).Some? then
      ContractualError(r.state, r.authority, r.governingHash)
    else if r.supersedes.None? then None
    else if r.supersedes.value !in s.instruments then Some(SupersededRecordMissing)
    else if s.instruments[r.supersedes.value].assetId != r.assetId then Some(SupersededRecordMismatch)
    else if r.supersedes.value in s.instrumentBy then Some(RecordAlreadySuperseded)
    else None
  }

  function RecordInstrument(s: State, id: Id32, r: Instrument): State {
    if InstrumentError(s, id, r).Some? then s
    else s.(instruments := s.instruments[id := r],
            instrumentBy := if r.supersedes.Some? then s.instrumentBy[r.supersedes.value := id] else s.instrumentBy)
  }

  // ------------------------------------------------------------------ the invariant

  function InterestGraph(s: State): S.Graph {
    S.Graph(map id | id in s.interests :: S.Node(s.interests[id].assetId, s.interests[id].supersedes), s.interestBy)
  }

  function InstrumentGraph(s: State): S.Graph {
    S.Graph(map id | id in s.instruments :: S.Node(s.instruments[id].assetId, s.instruments[id].supersedes), s.instrumentBy)
  }

  /** A contractual record carries D3 authority and a non-zero governing hash. */
  predicate Authorised(state: RecordState, authority: AuthorityClass, basis: Option<Id32>) {
    state.Contractual() ==> authority == D3 && NonZero(basis)
  }

  predicate InterestSound(r: Interest) {
    && r.assetId != ZERO_ID && r.assetVersionHash != ZERO_ID && r.holder != ZERO_ID && r.interestType != ZERO_ID
    && r.evidenceHash != ZERO_ID && r.recordHash != ZERO_ID
    && Authorised(r.state, r.authority, r.basisInstrumentHash) && 0 < r.shareBasisPoints <= 10_000
  }

  predicate InstrumentSound(r: Instrument) {
    && r.assetId != ZERO_ID && r.assetVersionHash != ZERO_ID && r.grantor != ZERO_ID && r.grantee != ZERO_ID
    && r.instrumentType != ZERO_ID && r.rightsScope != ZERO_ID
    && r.evidenceHash != ZERO_ID && r.termsHash != ZERO_ID && r.recordHash != ZERO_ID
    && Authorised(r.state, r.authority, r.governingHash)
    && (r.validFrom.Some? && r.validUntil.Some? ==> r.validFrom.value <= r.validUntil.value)
  }

  ghost predicate Valid(s: State) {
    && S.Sound(InterestGraph(s)) && S.Sound(InstrumentGraph(s))
    && (forall id :: id in s.interests ==> InterestSound(s.interests[id]))
    && (forall id :: id in s.instruments ==> InstrumentSound(s.instruments[id]))
  }

  /** Records and supersessions are only ever added. */
  ghost predicate Extends(s: State, t: State) {
    && (forall id :: id in s.interests ==> id in t.interests && t.interests[id] == s.interests[id])
    && (forall id :: id in s.interestBy ==> id in t.interestBy && t.interestBy[id] == s.interestBy[id])
    && (forall id :: id in s.instruments ==> id in t.instruments && t.instruments[id] == s.instruments[id])
    && (forall id :: id in s.instrumentBy ==> id in t.instrumentBy && t.instrumentBy[id] == s.instrumentBy[id])
  }

  lemma InterestAdmitted(s: State, id: Id32, r: Interest)
    requires InterestError(s, id, r).None?
    ensures id !in s.interests && InterestSound(r)
    ensures r.supersedes.Some? ==> r.supersedes.value !in s.interestBy
    ensures S.CanInsert(InterestGraph(s), id, S.Node(r.assetId, r.supersedes))
  {
  }

  lemma InterestGraphGrows(s: State, id: Id32, r: Interest)
    requires InterestError(s, id, r).None?
    ensures InterestGraph(RecordInterest(s, id, r)) == S.Insert(InterestGraph(s), id, S.Node(r.assetId, r.supersedes))
  {
    hide InterestError;
    var nodes := InterestGraph(RecordInterest(s, id, r)).nodes;
    assert nodes == InterestGraph(s).nodes[id := S.Node(r.assetId, r.supersedes)];
  }

  lemma InterestKeeps(s: State, id: Id32, r: Interest)
    requires Valid(s)
    ensures Valid(RecordInterest(s, id, r)) && Extends(s, RecordInterest(s, id, r))
  {
    hide S.Sound, S.Insert, S.CanInsert, InterestError, InterestGraph, InterestSound;
    if InterestError(s, id, r).None? {
      InterestAdmitted(s, id, r);
      InterestGraphGrows(s, id, r);
      S.InsertSound(InterestGraph(s), id, S.Node(r.assetId, r.supersedes));
    }
  }

  lemma InstrumentAdmitted(s: State, id: Id32, r: Instrument)
    requires InstrumentError(s, id, r).None?
    ensures id !in s.instruments && InstrumentSound(r)
    ensures r.supersedes.Some? ==> r.supersedes.value !in s.instrumentBy
    ensures S.CanInsert(InstrumentGraph(s), id, S.Node(r.assetId, r.supersedes))
  {
  }

  lemma InstrumentGraphGrows(s: State, id: Id32, r: Instrument)
    requires InstrumentError(s, id, r).None?
    ensures InstrumentGraph(RecordInstrument(s, id, r)) == S.Insert(InstrumentGraph(s), id, S.Node(r.assetId, r.supersedes))
  {
    hide InstrumentError;
    var nodes := InstrumentGraph(RecordInstrument(s, id, r)).nodes;
    assert nodes == InstrumentGraph(s).nodes[id := S.Node(r.assetId, r.supersedes)];
  }

  lemma InstrumentKeeps(s: State, id: Id32, r: Instrument)
    requires Valid(s)
    ensures Valid(RecordInstrument(s, id, r)) && Extends(s, RecordInstrument(s, id, r))
  {
    hide S.Sound, S.Insert, S.CanInsert, InstrumentError, InstrumentGraph, InstrumentSound;
    if InstrumentError(s, id, r).None? {
      InstrumentAdmitted(s, id, r);
      InstrumentGraphGrows(s, id, r);
      S.InsertSound(InstrumentGraph(s), id, S.Node(r.assetId, r.supersedes));
    }
  }

  // ------------------------------------------------------------------ runs

  datatype Call = InterestCall(id: Id32, interest: Interest) | InstrumentCall(id: Id32, instrument: Instrument)

  function Apply(s: State, c: Call): State {
    match c
    case InterestCall(id, r) => RecordInterest(s, id, r)
    case InstrumentCall(id, r) => RecordInstrument(s, id, r)
  }

  function Run(s: State, calls: seq<Call>): State {
    if calls == [] then s else Apply(Run(s, calls[..|calls| - 1]), calls[|calls| - 1])
  }

  lemma EmptyValid()
    ensures Valid(EMPTY)
  {
    S.EmptySound();
    assert InterestGraph(EMPTY) == S.Graph(map[], map[]) == InstrumentGraph(EMPTY);
  }

  lemma ApplyKeeps(s: State, c: Call)
    requires Valid(s)
    ensures Valid(Apply(s, c)) && Extends(s, Apply(s, c))
  {
    hide Valid, RecordInterest, RecordInstrument;
    match c
    case InterestCall(id, r) => InterestKeeps(s, id, r);
    case InstrumentCall(id, r) => InstrumentKeeps(s, id, r);
  }

  lemma {:induction false} RunKeeps(s: State, calls: seq<Call>)
    requires Valid(s)
    ensures Valid(Run(s, calls)) && Extends(s, Run(s, calls))
  {
    hide Valid, Apply;
    if calls != [] {
      RunKeeps(s, calls[..|calls| - 1]);
      ApplyKeeps(Run(s, calls[..|calls| - 1]), calls[|calls| - 1]);
    }
  }

  /** In every reachable state each instrument leads to exactly one unsuperseded instrument of its asset,
      no line of supersession is a cycle, and the map is the inverse of what the records store. */
  lemma InstrumentsSupersedeSoundly(calls: seq<Call>, id: Id32)
    requires id in Run(EMPTY, calls).instruments
    ensures var s := Run(EMPTY, calls); var g := InstrumentGraph(s);
      && S.Inverse(g)
      && (exists n, tip :: S.Tip(g, id, n, tip) && tip in s.instruments
            && s.instruments[tip].assetId == s.instruments[id].assetId)
      && (forall m, x, n, y :: S.Tip(g, id, m, x) && S.Tip(g, id, n, y) ==> m == n && x == y)
      && (forall n: nat :: n > 0 ==> S.Walk(g, id, n) != Some(id))
  {
    EmptyValid();
    RunKeeps(EMPTY, calls);
    GraphFacts(InstrumentGraph(Run(EMPTY, calls)), id);
  }

  lemma InterestsSupersedeSoundly(calls: seq<Call>, id: Id32)
    requires id in Run(EMPTY, calls).interests
    ensures var s := Run(EMPTY, calls); var g := InterestGraph(s);
      && S.Inverse(g)
      && (exists n, tip :: S.Tip(g, id, n, tip) && tip in s.interests
            && s.interests[tip].assetId == s.interests[id].assetId)
      && (forall m, x, n, y :: S.Tip(g, id, m, x) && S.Tip(g, id, n, y) ==> m == n && x == y)
      && (forall n: nat :: n > 0 ==> S.Walk(g, id, n) != Some(id))
  {
    EmptyValid();
    RunKeeps(EMPTY, calls);
    GraphFacts(InterestGraph(Run(EMPTY, calls)), id);
  }

  lemma GraphFacts(g: S.Graph, id: Id32)
    requires S.Sound(g) && id in g.nodes
    ensures exists n, tip :: S.Tip(g, id, n, tip) && tip in g.nodes && g.nodes[tip].asset == g.nodes[id].asset
    ensures forall m, x, n, y :: S.Tip(g, id, m, x) && S.Tip(g, id, n, y) ==> m == n && x == y
    ensures forall n: nat :: n > 0 ==> S.Walk(g, id, n) != Some(id)
  {
    S.WalkTerminates(g, id);
    forall m, x, n, y | S.Tip(g, id, m, x) && S.Tip(g, id, n, y) ensures m == n && x == y {
      S.TipUnique(g, id, m, x, n, y);
    }
    forall n: nat | n > 0 ensures S.Walk(g, id, n) != Some(id) {
      S.Acyclic(g, id, n);
    }
  }

  // ------------------------------------------------------------------ what a call does

  /** An ownership interest: refused with the first check that fails, otherwise stored as given, and its predecessor
      marked superseded by it. */
  lemma InterestOutcome(s: State, id: Id32, r: Interest)
    ensures var named := id != ZERO_ID && r.assetId != ZERO_ID && r.assetVersionHash != ZERO_ID && r.holder != ZERO_ID
        && r.interestType != ZERO_ID && r.evidenceHash != ZERO_ID && r.recordHash != ZERO_ID;
      var shared := 1 <= r.shareBasisPoints <= 10_000;
      var unused := id !in s.interests;
      var binding := r.state == ContractuallyRecorded || r.state == Operative;
      var approved := binding ==> r.authority == D3;
      var based := binding ==> r.basisInstrumentHash.Some? && r.basisInstrumentHash.value != ZERO_ID;
      var checked := named && shared && unused && approved && based;
      var found := r.supersedes.Some? ==> r.supersedes.value in s.interests;
      var same := r.supersedes.Some? && found ==> s.interests[r.supersedes.value].assetId == r.assetId;
      var last := r.supersedes.Some? ==> r.supersedes.value !in s.interestBy;
      match InterestError(s, id, r)
      case Some(InvalidIdentifier) => !named
      case Some(InvalidShare) => named && !shared
      case Some(RecordAlreadyExists) => named && shared && !unused
      case Some(ContractualStateRequiresD3) => named && shared && unused && !approved
      case Some(ContractualStateRequiresGoverningInstrument) => named && shared && unused && approved && !based
      case Some(SupersededRecordMissing) => checked && !found
      case Some(SupersededRecordMismatch) => checked && found && !same
      case Some(RecordAlreadySuperseded) => checked && found && same && !last
      case Some(_) => false
      case None => checked && found && same && last
    ensures var t := RecordInterest(s, id, r);
      && t.instruments == s.instruments && t.instrumentBy == s.instrumentBy
      && if InterestError(s, id, r).Some? then t == s
         else
           && t.interests == s.interests[id := r]
           && t.interestBy == if r.supersedes.Some? then s.interestBy[r.supersedes.value := id] else s.interestBy
  {
  }

  /** A rights instrument: the same, with its own checks. */
  lemma InstrumentOutcome(s: State, id: Id32, r: Instrument)
    ensures var named := id != ZERO_ID && r.assetId != ZERO_ID && r.assetVersionHash != ZERO_ID && r.grantor != ZERO_ID
        && r.grantee != ZERO_ID && r.instrumentType != ZERO_ID && r.rightsScope != ZERO_ID && r.evidenceHash != ZERO_ID
        && r.termsHash != ZERO_ID && r.recordHash != ZERO_ID;
      var unused := id !in s.instruments;
      var term := r.validFrom.Some? && r.validUntil.Some? ==> r.validFrom.value <= r.validUntil.value;
      var binding := r.state == ContractuallyRecorded || r.state == Operative;
      var approved := binding ==> r.authority == D3;
      var governed := binding ==> r.governingHash.Some? && r.governingHash.value != ZERO_ID;
      var checked := named && unused && term && approved && governed;
      var found := r.supersedes.Some? ==> r.supersedes.value in s.instruments;
      var same := r.supersedes.Some? && found ==> s.instruments[r.supersedes.value].assetId == r.assetId;
      var last := r.supersedes.Some? ==> r.supersedes.value !in s.instrumentBy;
      match InstrumentError(s, id, r)
      case Some(InvalidIdentifier) => !named
      case Some(RecordAlreadyExists) => named && !unused
      case Some(InvalidTerm) => named && unused && !term
      case Some(ContractualStateRequiresD3) => named && unused && term && !approved
      case Some(ContractualStateRequiresGoverningInstrument) => named && unused && term && approved && !governed
      case Some(SupersededRecordMissing) => checked && !found
      case Some(SupersededRecordMismatch) => checked && found && !same
      case Some(RecordAlreadySuperseded) => checked && found && same && !last
      case Some(_) => false
      case None => checked && found && same && last
    ensures var t := RecordInstrument(s, id, r);
      && t.interests == s.interests && t.interestBy == s.interestBy
      && if InstrumentError(s, id, r).Some? then t == s
         else
           && t.instruments == s.instruments[id := r]
           && t.instrumentBy == if r.supersedes.Some? then s.instrumentBy[r.supersedes.value := id] else s.instrumentBy
  {
  }

  // ------------------------------------------------------------------ the pallet

  class RightsPallet {
    var interests: map<Id32, Interest>
    var interestBy: map<Id32, Id32>
    var instruments: map<Id32, Instrument>
    var instrumentBy: map<Id32, Id32>

    function Storage(): State
      reads this
    {
      State(interests, interestBy, instruments, instrumentBy)
    }

    constructor ()
      ensures Valid(Storage()) && Storage() == EMPTY
    {
      interests, interestBy, instruments, instrumentBy := map[], map[], map[], map[];
      new;
      EmptyValid();
    }

    method RecordOwnershipInterest(id: Id32, r: Interest) returns (outcome: Result<(), RightsError>)
      requires Valid(Storage())
      modifies this
      ensures Valid(Storage()) && Storage() == RecordInterest(old(Storage()), id, r)
      ensures outcome == Outcome(InterestError(old(Storage()), id, r))
    {
      hide Valid;
      InterestKeeps(Storage(), id, r);
      if id == ZERO_ID || r.assetId == ZERO_ID || r.assetVersionHash == ZERO_ID || r.holder == ZERO_ID
         || r.interestType == ZERO_ID || r.evidenceHash == ZERO_ID || r.recordHash == ZERO_ID {
        return Err(InvalidIdentifier);
      }
      if r.shareBasisPoints == 0 || r.shareBasisPoints > 10_000 { return Err(InvalidShare); }
      if id in interests { return Err(RecordAlreadyExists); }
      if r.state.Contractual() {
        if !r.authority.Permits(D3) { return Err(ContractualStateRequiresD3); }
        if !NonZero(r.basisInstrumentHash) { return Err(ContractualStateRequiresGoverningInstrument); }
      }
      if r.supersedes.Some? {
        var prior := r.supersedes.value;
        if prior !in interests { return Err(SupersededRecordMissing); }
        if interests[prior].assetId != r.assetId { return Err(SupersededRecordMismatch); }
        if prior in interestBy { return Err(RecordAlreadySuperseded); }
        interestBy := interestBy[prior := id];
      }
      interests := interests[id := r];
      return Ok(());
    }

    method RecordRightsInstrument(id: Id32, r: Instrument) returns (outcome: Result<(), RightsError>)
      requires Valid(Storage())
      modifies this
      ensures Valid(Storage()) && Storage() == RecordInstrument(old(Storage()), id, r)
      ensures outcome == Outcome(InstrumentError(old(Storage()), id, r))
    {
      hide Valid;
      InstrumentKeeps(Storage(), id, r);
      if id == ZERO_ID || r.assetId == ZERO_ID || r.assetVersionHash == ZERO_ID || r.grantor == ZERO_ID
         || r.grantee == ZERO_ID || r.instrumentType == ZERO_ID || r.rightsScope == ZERO_ID
         || r.evidenceHash == ZERO_ID || r.termsHash == ZERO_ID || r.recordHash == ZERO_ID {
        return Err(InvalidIdentifier);
      }
      if id in instruments { return Err(RecordAlreadyExists); }
      if r.validFrom.Some? && r.validUntil.Some? && r.validUntil.value < r.validFrom.value { return Err(InvalidTerm); }
      if r.state.Contractual() {
        if !r.authority.Permits(D3) { return Err(ContractualStateRequiresD3); }
        if !NonZero(r.governingHash) { return Err(ContractualStateRequiresGoverningInstrument); }
      }
      if r.supersedes.Some? {
        var prior := r.supersedes.value;
        if prior !in instruments { return Err(SupersededRecordMissing); }
        if instruments[prior].assetId != r.assetId { return Err(SupersededRecordMismatch); }
        if prior in instrumentBy { return Err(RecordAlreadySuperseded); }
        instrumentBy := instrumentBy[prior := id];
      }
      instruments := instruments[id := r];
      return Ok(());
    }
  }
}
