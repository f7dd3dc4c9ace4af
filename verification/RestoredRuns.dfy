/**
 A restored ledger over whole runs: it stays what a restore of its rows would build, it stays
 verifiable exactly as long as no call breaks it, and a breaking call exists exactly when some
 stored id or key is not stripped. Then what stripping hides from the head hash.
 */
module RestoredRuns {
  import opened Prelude
  import opened Json
  import opened CanonicalForm
  import opened PythonText
  import opened Records
  import opened LedgerModel
  import opened LedgerRuns
  import opened LedgerIntegrity
  import opened LedgerLimits
  import Cold = ColdExport

  // ------------------------------------------------------------------ a restored ledger stays one

  lemma CommitStaysRestored(env: Env, rows: seq<Row>, p: Prepared, eventId: Option<Text>, uuid: Uuid, at: Text)
    requires IndexInRange(RestoredState(rows))
    ensures var next := Commit(env, RestoredState(rows), p, eventId, uuid, at).0;
      next == RestoredState(next.rows) && IndexInRange(next) && rows <= next.rows
  {
    var st := RestoredState(rows);
    hide Commit, Recordable, IdsOf, EventDigest;
    CommitAppends(env, st, p, eventId, uuid, at);
    var (next, o) := Commit(env, st, p, eventId, uuid, at);
    if o.Appended? {
      SnocIds(rows, o.row);
      SnocPrefix(rows, o.row);
    }
  }

  /** Whatever a call does to a restored ledger, the result is the one a restore of its rows would build. */
  lemma StepStaysRestored(env: Env, rows: seq<Row>, c: Command)
    requires IndexInRange(RestoredState(rows))
    ensures var next := Step(env, RestoredState(rows), c).0;
      next == RestoredState(next.rows) && IndexInRange(next) && rows <= next.rows
  {
    var st := RestoredState(rows);
    hide Commit, Prepare, CorrectionRequest, IndexOf, IdsOf, IndexInRange;
    match c
    case AppendCall(r, uuid) =>
      if Prepare(env, r, false).Some? {
        CommitStaysRestored(env, rows, Prepare(env, r, false).value, r.eventId, uuid, r.occurredAt);
      }
    case CorrectCall(k, uuid) =>
      if CorrectionRequest(st, k).Some? && Prepare(env, CorrectionRequest(st, k).value, true).Some? {
        CommitStaysRestored(env, rows, Prepare(env, CorrectionRequest(st, k).value, true).value, k.eventId, uuid, k.occurredAt);
      }
  }

  lemma {:induction false} RunStaysRestored(env: Env, rows: seq<Row>, calls: seq<Command>)
    requires IndexInRange(RestoredState(rows))
    ensures var last := Run(env, RestoredState(rows), calls);
      last == RestoredState(last.rows) && IndexInRange(last) && rows <= last.rows
    decreases |calls|
  {
    hide Step, IndexOf, IdsOf;
    if calls != [] {
      StepStaysRestored(env, rows, calls[0]);
      RunStaysRestored(env, Step(env, RestoredState(rows), calls[0]).0.rows, calls[1..]);
    }
  }

  // ------------------------------------------------------------------ when a run keeps it verifiable

  /** The call is admitted and its id or key is the stripped form of a stored one, or it is a correction
      that replaces with something other than an object. */
  predicate Breaks(env: Env, st: State, c: Command) {
    Admitted(env, st, c)
    && ((NewId(c).Some? && NewId(c).value in SeenIds(st.rows))
        || (NewKey(c).Some? && NewKey(c).value in SeenKeys(st.rows))
        || (c.CorrectCall? && !c.correction.replacement.Obj?))
  }

  lemma RestoredStepExactly(env: Env, rows: seq<Row>, c: Command)
    requires ClockOk(env) && Verified(env, rows)
    ensures IndexInRange(RestoredState(rows))
    ensures Verified(env, Step(env, RestoredState(rows), c).0.rows) <==> !Breaks(env, RestoredState(rows), c)
  {
    hide Verified, SeenIds, SeenKeys, NewKey, Step, IndexOf, IdsOf, ClockOk;
    match c
    case AppendCall(r, uuid) =>
      RestoredAppendExactly(env, rows, r, uuid);
    case CorrectCall(k, uuid) =>
      RestoredCorrectionExactly(env, rows, k, uuid);
  }

  /** No call of the run breaks the ledger it meets. */
  predicate NeverBreaks(env: Env, st: State, calls: seq<Command>)
    requires IndexInRange(st)
    decreases |calls|
  {
    calls == []
    || (&& !Breaks(env, st, calls[0])
        && var next := Step(env, st, calls[0]).0;
           IndexInRange(next) ==> NeverBreaks(env, next, calls[1..]))
  }

  /** A run leaves a restored ledger verifiable exactly when none of its calls breaks it. */
  lemma {:induction false} RestoredRunExactly(env: Env, rows: seq<Row>, calls: seq<Command>)
    requires ClockOk(env) && Verified(env, rows)
    ensures IndexInRange(RestoredState(rows))
    ensures Verified(env, Run(env, RestoredState(rows), calls).rows) <==> NeverBreaks(env, RestoredState(rows), calls)
    decreases |calls|
  {
    VerifiedInRange(env, rows);
    hide Verified, Breaks, Step, IndexOf, IdsOf, ClockOk, IndexInRange;
    if calls != [] {
      RestoredStepExactly(env, rows, calls[0]);
      StepStaysRestored(env, rows, calls[0]);
      var next := Step(env, RestoredState(rows), calls[0]).0.rows;
      if Verified(env, next) {
        RestoredRunExactly(env, next, calls[1..]);
      } else {
        RunStaysRestored(env, next, calls[1..]);
        if Verified(env, Run(env, RestoredState(next), calls[1..]).rows) {
          VerifiedPrefix(env, next, Run(env, RestoredState(next), calls[1..]).rows);
        }
      }
    }
  }

  lemma VerifiedInRange(env: Env, rows: seq<Row>)
    requires Verified(env, rows)
    ensures IndexInRange(RestoredState(rows))
  {
    RestoredInRange(env, rows);
  }

  lemma VerifiedPrefix(env: Env, a: seq<Row>, b: seq<Row>)
    requires a <= b && Verified(env, b)
    ensures Verified(env, a)
  {
    hide Linked, IsCorrection, ReplacesWithObject;
    AllLinkedPrefix(env, b, |a|);
    assert b[..|a|] == a;
    assert forall i :: 0 <= i < |a| ==> a[i] == b[i];
  }

  // ------------------------------------------------------------------ an untidy ledger can be broken

  /** A text that can be an event id: stripped, short, without the delimiter and encodable. */
  predicate GoodId(id: Text) {
    NormalizeText(id, 128) == Some(id) && NoBar(id) && Encodable(id)
  }

  lemma UuidGood(u: Uuid)
    ensures GoodId(u)
  {
    UuidNormalized(u);
  }

  lemma FieldsEncodable(env: Env, earlier: seq<Row>, e: Row)
    requires Linked(env, earlier, e)
    ensures e.Event? && BoundFields(env, e).Some?
    ensures forall i :: 0 <= i < |BoundFields(env, e).value| ==> Encodable(BoundFields(env, e).value[i])
  {
    LinkedHash(env, earlier, e);
    LinkedDigest(env, earlier, e);
    hide BoundFields, Linked, Encodable, JoinBar;
    JoinEncodable(BoundFields(env, e).value);
  }

  lemma LinkedDigest(env: Env, earlier: seq<Row>, e: Row)
    requires Linked(env, earlier, e) && e.Event? && BoundFields(env, e).Some?
    ensures Encodable(JoinBar(BoundFields(env, e).value))
  {
    hide BoundFields, Encodable, JoinBar, CorrectionShape, CanonicalText, RequestDigest, NormalizeNames, NormalizeText;
  }

  /** Every id `verify` collects is one. */
  lemma SeenGood(env: Env, earlier: seq<Row>, e: Row)
    requires Linked(env, earlier, e)
    ensures IdOf(e).Some? && GoodId(IdOf(e).value)
  {
    LinkedTexts(env, earlier, e);
    FieldsEncodable(env, earlier, e);
    BoundFieldsParts(env, e);
    NormalizeTextIdempotent(e.eventId, 128);
    hide BoundFields, Linked, Encodable, NormalizeText;
  }

  /** The first row of a verified ledger corrects nothing. */
  lemma FirstIsNoCorrection(env: Env, e: Row)
    requires Linked(env, [], e)
    ensures !IsCorrection(e)
  {
    hide SoundAlone, IsCorrection;
    assert SeenIds([]) == {};
  }

  /** The first row's request, under another key, with another id. */
  function Reused(e: Row, key: Text, id: Option<Text>): Request
    requires e.Event?
  {
    Request(e.names.(key := key), e.payload, Some(e.payloadText), id, e.occurredAt)
  }

  lemma ReusedNames(n: Names, key: Text)
    requires NormalizeNames(n).Some? && NormalizeText(key, 256) == Some(key)
    ensures NormalizeNames(n.(key := key)) == Some(NormalizeNames(n).value.(key := key))
  {
    hide NormalizeText;
  }

  lemma ReusedPrepares(env: Env, e: Row, key: Text, id: Option<Text>)
    requires Linked(env, [], e) && NormalizeText(key, 256) == Some(key)
    ensures e.Event? && NormalizeNames(e.names).Some?
    ensures Prepare(env, Reused(e, key, id), false) == Some(Prepared(
      NormalizeNames(e.names).value.(key := key), e.payload, e.payloadText, e.payloadSha, e.requestSha))
  {
    FirstIsNoCorrection(env, e);
    assert NormalizeNames(e.names).Some?;
    ReusedNames(e.names, key);
    NormalizeNamesType(e.names);
    KeyNotRequested(env, NormalizeNames(e.names).value, key, e.payloadSha);
    hide CanonicalText, NormalizeText, NormalizeNames, RequestDigest, EventDigest, CorrectionShape;
  }

  /** Its names, payload and time can be hashed again under any good id, after any rows. */
  lemma ReusedDigest(env: Env, e: Row, p: Prepared, rows: seq<Row>, id: Text)
    requires ClockOk(env) && Linked(env, [], e) && NormalizeNames(e.names).Some? && GoodId(id)
    requires PreviousHash(rows).Some? ==> IsHash(PreviousHash(rows).value)
    requires p.names == NormalizeNames(e.names).value.(key := p.names.key) && p.payloadSha == e.payloadSha
    ensures env.timestamp(e.occurredAt) == Some(e.occurredAt)
    ensures EventDigest(env, NewEvent(p, rows, id, e.occurredAt)).Some?
  {
    FieldsEncodable(env, [], e);
    LinkedStamp(env, [], e);
    Cold.AsciiEncodable("GENESIS");
    if PreviousHash(rows).Some? { Cold.HashEncodable(PreviousHash(rows).value); }
    hide BoundFields, Linked, JoinBar, NormalizeNames, NormalizeText, ClockOk, NoBar, IsHash;
    var draft := NewEvent(p, rows, id, e.occurredAt);
    ReusedFields(env, e, draft);
    hide Encodable, GoodId, EventDigest;
    var g := BoundFields(env, draft).value;
    assert forall i :: 0 <= i < |g| ==> g[i] in g;
    JoinOfEncodable(g);
    DigestOf(env, draft);
  }

  lemma DigestOf(env: Env, e: Row)
    requires e.Event? && BoundFields(env, e).Some? && Encodable(JoinBar(BoundFields(env, e).value))
    ensures EventDigest(env, e).Some?
  {
    hide BoundFields, Encodable, JoinBar;
  }

  lemma LinkedStamp(env: Env, earlier: seq<Row>, e: Row)
    requires Linked(env, earlier, e)
    ensures e.Event? && env.timestamp(e.occurredAt) == Some(e.occurredAt) && e.schemaVersion == SCHEMA
  {
    hide EventDigest, CanonicalText, RequestDigest, NormalizeNames, NormalizeText, CorrectionShape;
  }

  lemma ReusedFields(env: Env, e: Row, draft: Row)
    requires e.Event? && draft.Event? && BoundFields(env, e).Some? && NormalizeNames(e.names).Some?
    requires draft.names == NormalizeNames(e.names).value.(key := draft.names.key) && draft.payloadSha == e.payloadSha
    requires draft.schemaVersion == e.schemaVersion && draft.occurredAt == e.occurredAt && GoodId(draft.eventId)
    requires draft.previous.Some? ==> IsHash(draft.previous.value)
    ensures BoundFields(env, draft).Some? && PreviousField(draft.previous).Some?
    ensures forall t :: t in BoundFields(env, draft).value ==>
      t in BoundFields(env, e).value || t == draft.eventId || t == PreviousField(draft.previous).value
  {
    SameFields(e.names, draft.names);
    assert HashField(draft.eventId, 128) == Some(draft.eventId);
    hide BoundFields, NormalizeText, NormalizeNames, IsHash, ActorField, OptionalHashField, HashField, Encodable, NoBar, GoodId;
    FieldsOf(env, e);
    FieldsOf(env, draft);
  }

  /** The ten fields are there when each of them is. */
  lemma FieldsOf(env: Env, e: Row)
    requires e.Event?
    ensures BoundFields(env, e).Some? <==>
      && PreviousField(e.previous).Some? && HashField(e.eventId, 128).Some? && HashField(e.schemaVersion, 32).Some?
      && HashField(e.names.eventType, 128).Some? && HashField(e.names.entityType, 128).Some?
      && HashField(e.names.entityId, 512).Some? && OptionalHashField(e.names.entityVersion, 128).Some?
      && ActorField(e.names.actorDid, e.names.actorRef).Some? && IsHash(e.payloadSha) && env.timestamp(e.occurredAt).Some?
    ensures BoundFields(env, e).Some? ==> BoundFields(env, e).value == [
      PreviousField(e.previous).value, HashField(e.eventId, 128).value, HashField(e.schemaVersion, 32).value,
      HashField(e.names.eventType, 128).value, HashField(e.names.entityType, 128).value,
      HashField(e.names.entityId, 512).value, OptionalHashField(e.names.entityVersion, 128).value,
      ActorField(e.names.actorDid, e.names.actorRef).value, e.payloadSha, env.timestamp(e.occurredAt).value]
  {
    hide PreviousField, HashField, OptionalHashField, ActorField, IsHash;
  }

  /** Normalising the names first changes no hashed field. */
  lemma SameFields(n: Names, m: Names)
    requires NormalizeNames(n).Some? && m == NormalizeNames(n).value.(key := m.key)
    ensures HashField(m.eventType, 128) == HashField(n.eventType, 128)
    ensures HashField(m.entityType, 128) == HashField(n.entityType, 128)
    ensures HashField(m.entityId, 512) == HashField(n.entityId, 512)
    ensures OptionalHashField(m.entityVersion, 128) == OptionalHashField(n.entityVersion, 128)
    ensures ActorField(m.actorDid, m.actorRef) == ActorField(n.actorDid, n.actorRef)
  {
    NormalizeNamesIdempotent(n);
    NormalizeTextIdempotent(n.eventType, 128);
    NormalizeTextIdempotent(n.entityType, 128);
    NormalizeTextIdempotent(n.entityId, 512);
    if n.entityVersion.Some? { NormalizeTextIdempotent(n.entityVersion.value, 128); }
    if n.actorDid.Some? { NormalizeTextIdempotent(n.actorDid.value, 512); }
    if n.actorRef.Some? { NormalizeTextIdempotent(n.actorRef.value, 512); }
    hide NormalizeText;
  }

  lemma HeadIsHash(env: Env, rows: seq<Row>)
    requires AllLinked(env, rows)
    ensures PreviousHash(rows).Some? ==> IsHash(PreviousHash(rows).value)
  {
    if rows != [] {
      var n := |rows| - 1;
      hide Linked, IsHash;
      assert Linked(env, rows[..n], rows[n]);
      LinkedHash(env, rows[..n], rows[n]);
    }
  }

  lemma ReusedAdmitted(env: Env, rows: seq<Row>, key: Text, id: Option<Text>, uuid: Uuid)
    requires ClockOk(env) && AllLinked(env, rows) && rows != [] && rows[0].Event?
    requires NormalizeText(key, 256) == Some(key) && key !in IndexOf(rows)
    requires ChosenId(id, uuid).Some? && GoodId(ChosenId(id, uuid).value) && ChosenId(id, uuid).value !in IdsOf(rows)
    ensures Admitted(env, RestoredState(rows), AppendCall(Reused(rows[0], key, id), uuid))
  {
    var e := rows[0];
    assert Linked(env, rows[..0], rows[0]);
    assert rows[..0] == [];
    HeadIsHash(env, rows);
    hide AllLinked, Linked, ChosenId, GoodId, IndexOf, IdsOf, EventDigest, Prepare, NormalizeText, NormalizeNames, IsHash, ClockOk;
    ReusedPrepares(env, e, key, id);
    ReusedDigest(env, e, Prepare(env, Reused(e, key, id), false).value, rows, ChosenId(id, uuid).value);
  }

  /** Every untidy verified ledger has an append that is admitted and breaks it, given one new id and one new key. */
  lemma UntidyCanBreak(env: Env, rows: seq<Row>, uuid: Uuid, key: Text) returns (r: Request)
    requires ClockOk(env) && Verified(env, rows) && !Tidy(rows)
    requires uuid !in IdsOf(rows) && NormalizeText(key, 256) == Some(key) && key !in IndexOf(rows)
    ensures Breaks(env, RestoredState(rows), AppendCall(r, uuid))
  {
    GapExactly(env, rows);
    hide Verified, AllLinked, SeenIds, SeenKeys, IndexOf, IdsOf, Breaks, Tidy, NormalizeText, ClockOk;
    if id :| id in SeenIds(rows) && id !in IdsOf(rows) {
      r := BreakById(env, rows, uuid, key, id);
    } else {
      var k :| k in SeenKeys(rows) && k !in IndexOf(rows);
      r := BreakByKey(env, rows, uuid, k);
    }
  }

  lemma VerifiedLinked(env: Env, rows: seq<Row>)
    requires Verified(env, rows)
    ensures AllLinked(env, rows) && forall i :: 0 <= i < |rows| ==> rows[i].Event?
  {
    LinkedSequence(env, rows);
  }

  lemma BreaksAppend(env: Env, st: State, r: Request, uuid: Uuid)
    requires Admitted(env, st, AppendCall(r, uuid))
    requires (ChosenId(r.eventId, uuid).Some? && ChosenId(r.eventId, uuid).value in SeenIds(st.rows))
      || (NormalizeText(r.names.key, 256).Some? && NormalizeText(r.names.key, 256).value in SeenKeys(st.rows))
    ensures Breaks(env, st, AppendCall(r, uuid))
  {
    hide Admitted, SeenIds, SeenKeys, NormalizeText;
  }

  lemma BreakById(env: Env, rows: seq<Row>, uuid: Uuid, key: Text, id: Text) returns (r: Request)
    requires ClockOk(env) && Verified(env, rows) && NormalizeText(key, 256) == Some(key) && key !in IndexOf(rows)
    requires id in SeenIds(rows) && id !in IdsOf(rows)
    ensures Breaks(env, RestoredState(rows), AppendCall(r, uuid))
  {
    VerifiedLinked(env, rows);
    SeenIdGood(env, rows, id);
    hide Verified, AllLinked, SeenIds, SeenKeys, IndexOf, IdsOf, Admitted, ClockOk, GoodId, Breaks, NormalizeText;
    r := Reused(rows[0], key, Some(id));
    ReusedAdmitted(env, rows, key, Some(id), uuid);
    BreaksAppend(env, RestoredState(rows), r, uuid);
  }

  lemma BreakByKey(env: Env, rows: seq<Row>, uuid: Uuid, key: Text) returns (r: Request)
    requires ClockOk(env) && Verified(env, rows) && uuid !in IdsOf(rows)
    requires key in SeenKeys(rows) && key !in IndexOf(rows)
    ensures Breaks(env, RestoredState(rows), AppendCall(r, uuid))
  {
    VerifiedLinked(env, rows);
    SeenKeyNormal(rows, key);
    UuidGood(uuid);
    hide Verified, AllLinked, SeenIds, SeenKeys, IndexOf, IdsOf, Admitted, ClockOk, GoodId, Breaks, NormalizeText;
    r := Reused(rows[0], key, None);
    ReusedAdmitted(env, rows, key, None, uuid);
    BreaksAppend(env, RestoredState(rows), r, uuid);
  }

  lemma SeenIdGood(env: Env, rows: seq<Row>, id: Text)
    requires AllLinked(env, rows) && id in SeenIds(rows)
    ensures rows != [] && GoodId(id) && NormalizeText(id, 128) == Some(id)
  {
    hide Linked, IdOf;
    var i :| 0 <= i < |rows| && IdOf(rows[i]) == Some(id);
    assert Linked(env, rows[..i], rows[i]);
    SeenGood(env, rows[..i], rows[i]);
  }

  lemma SeenKeyNormal(rows: seq<Row>, k: Text)
    requires k in SeenKeys(rows)
    ensures rows != [] && NormalizeText(k, 256) == Some(k)
  {
    var i :| 0 <= i < |rows| && KeyOf(rows[i]) == Some(k);
    NormalizeTextIdempotent(rows[i].names.key, 256);
  }

  /** Given one new id and one new key, some append leaves a restored ledger unverifiable exactly when
      one of its stored ids or keys is not already stripped. */
  lemma BreakableExactly(env: Env, rows: seq<Row>, uuid: Uuid, key: Text)
    requires ClockOk(env) && Verified(env, rows)
    requires uuid !in IdsOf(rows) && NormalizeText(key, 256) == Some(key) && key !in IndexOf(rows)
    ensures IndexInRange(RestoredState(rows))
    ensures (exists r :: !Verified(env, Step(env, RestoredState(rows), AppendCall(r, uuid)).0.rows)) <==> !Tidy(rows)
  {
    VerifiedInRange(env, rows);
    if Tidy(rows) {
      TidyIsConsistent(env, rows);
      hide Consistent, Verified, Step, IndexOf, IdsOf;
      forall r ensures Verified(env, Step(env, RestoredState(rows), AppendCall(r, uuid)).0.rows) {
        VerifiableExactly(env, RestoredState(rows), AppendCall(r, uuid));
      }
    } else {
      var r := UntidyCanBreak(env, rows, uuid, key);
      hide Verified, Step, IndexOf, IdsOf, Breaks;
      RestoredStepExactly(env, rows, AppendCall(r, uuid));
    }
  }

  // ------------------------------------------------------------------ text that is stripped before it is compared

  /** Two rows that differ only in what stripping removes hash alike and are linked alike. */
  lemma StrippedAlike(env: Env, earlier: seq<Row>, e: Row, f: Row)
    requires e.Event? && f.Event? && f == e.(eventId := f.eventId, names := f.names)
    requires NormalizeText(e.eventId, 128).Some? && NormalizeText(f.eventId, 128) == NormalizeText(e.eventId, 128)
    requires NormalizeNames(e.names).Some? && NormalizeNames(f.names) == NormalizeNames(e.names)
    ensures BoundFields(env, f) == BoundFields(env, e)
    ensures Linked(env, earlier, f) <==> Linked(env, earlier, e)
    ensures IsCorrection(f) <==> IsCorrection(e)
  {
    NormalizeNamesType(e.names);
    NormalizeNamesType(f.names);
    NormalizedKey(e.names);
    NormalizedKey(f.names);
    SameBoundFields(env, e, f);
    hide BoundFields, NormalizeText, NormalizeNames, SoundAlone, CorrectionShape;
    SoundAlike(env, e, f);
  }

  lemma SameBoundFields(env: Env, e: Row, f: Row)
    requires e.Event? && f.Event? && f == e.(eventId := f.eventId, names := f.names)
    requires NormalizeText(e.eventId, 128).Some? && NormalizeText(f.eventId, 128) == NormalizeText(e.eventId, 128)
    requires NormalizeNames(e.names).Some? && NormalizeNames(f.names) == NormalizeNames(e.names)
    ensures BoundFields(env, f) == BoundFields(env, e)
  {
    SameFields(e.names, NormalizeNames(e.names).value);
    SameFields(f.names, NormalizeNames(e.names).value);
    assert HashField(f.eventId, 128) == HashField(e.eventId, 128);
    hide NormalizeText, NormalizeNames, HashField, ActorField, OptionalHashField, PreviousField, IsHash, BoundFields;
    FieldsOf(env, e);
    FieldsOf(env, f);
  }

  lemma SoundAlike(env: Env, e: Row, f: Row)
    requires e.Event? && f.Event? && f == e.(eventId := f.eventId, names := f.names)
    requires NormalizeText(e.eventId, 128).Some? && NormalizeText(f.eventId, 128) == NormalizeText(e.eventId, 128)
    requires NormalizeNames(e.names).Some? && NormalizeNames(f.names) == NormalizeNames(e.names)
    requires BoundFields(env, f) == BoundFields(env, e)
    ensures SoundAlone(env, f) <==> SoundAlone(env, e)
  {
    hide BoundFields, NormalizeText, NormalizeNames, CanonicalText, RequestDigest, Sha256;
  }

  lemma NormalizedKey(n: Names)
    requires NormalizeNames(n).Some?
    ensures NormalizeText(n.key, 256) == Some(NormalizeNames(n).value.key)
  {
    hide NormalizeText;
  }

  /** The row with a space before its entity id, or before its idempotency key. */
  function PaddedEntity(e: Row): Row
    requires e.Event?
  {
    e.(names := e.names.(entityId := [32] + e.names.entityId))
  }

  function PaddedKey(e: Row): Row
    requires e.Event?
  {
    e.(names := e.names.(key := [32] + e.names.key))
  }

  lemma SpaceIsStripped(t: Text, maximum: nat)
    ensures NormalizeText([32] + t, maximum) == NormalizeText(t, maximum)
  {
    assert ([32] + t)[1..] == t;
  }

  lemma PaddedNames(n: Names)
    ensures NormalizeNames(n.(entityId := [32] + n.entityId)) == NormalizeNames(n)
    ensures NormalizeNames(n.(key := [32] + n.key)) == NormalizeNames(n)
  {
    SpaceIsStripped(n.entityId, 512);
    SpaceIsStripped(n.key, 256);
    hide NormalizeText;
  }

  /** The head hash does not bind raw text: with a space before the last entity id or the last key, every
      verified ledger still verifies under the same head. */
  lemma HeadHidesRawText(env: Env, init: seq<Row>, e: Row, f: Row)
    requires Verified(env, init + [e]) && e.Event? && (f == PaddedEntity(e) || f == PaddedKey(e))
    ensures Verified(env, init + [f]) && HeadHash(init + [f]) == HeadHash(init + [e])
    ensures f != e && EventText(env, f) == EventText(env, e)
  {
    PaddedNames(e.names);
    hide Verified, BoundFields, NormalizeNames, NormalizeText, EventText, HeadHash, PreviousHash;
    SameLast(env, init, e, f);
    assert f.names != e.names by {
      assert |[32] + e.names.entityId| != |e.names.entityId| && |[32] + e.names.key| != |e.names.key|;
    }
  }

  lemma SameLast(env: Env, init: seq<Row>, e: Row, f: Row)
    requires Verified(env, init + [e]) && e.Event? && f.Event? && f == e.(names := f.names)
    requires NormalizeNames(f.names) == NormalizeNames(e.names)
    ensures Verified(env, init + [f]) && HeadHash(init + [f]) == HeadHash(init + [e])
    ensures EventText(env, f) == EventText(env, e)
  {
    hide Linked, BoundFields, NormalizeNames, NormalizeText, IsCorrection, ReplacesWithObject, AllLinked, AllReplaceWithObjects;
    SnocLinked(env, init, e);
    SnocLinked(env, init, f);
    SnocReplaces(init, e);
    SnocReplaces(init, f);
    LinkedNames(env, init, e);
    StrippedAlike(env, init, e, f);
  }

  lemma LinkedNames(env: Env, earlier: seq<Row>, e: Row)
    requires Linked(env, earlier, e)
    ensures e.Event? && NormalizeText(e.eventId, 128).Some? && NormalizeNames(e.names).Some?
  {
    hide RequestDigest, CanonicalText, EventDigest, CorrectionShape, NormalizeText, NormalizeNames;
  }

  /** A concrete run: the ledger of one append, with a space before its key, is restored; a second append
      with that key is then recorded instead of being answered, and the ledger no longer verifies. */
  lemma PaddedKeyBreaks(uuid: Uuid)
    ensures IndexInRange(EMPTY) && Append(DemoEnv(), EMPTY, FIRST, uuid).1.Appended?
    ensures Append(DemoEnv(), EMPTY, FIRST, uuid).1.row.Event?
    ensures var e := Append(DemoEnv(), EMPTY, FIRST, uuid).1.row;
      var rows := [PaddedKey(e)];
      && Verified(DemoEnv(), rows) && HeadHash(rows) == HeadHash([e]) && IndexInRange(RestoredState(rows))
      && Append(DemoEnv(), RestoredState(rows), Demo(X, Y), uuid).1.Appended?
      && !Verified(DemoEnv(), Append(DemoEnv(), RestoredState(rows), Demo(X, Y), uuid).0.rows)
  {
    OneLetter(120, 256);
    OneLetter(121, 128);
    hide Append, Verified, NormalizeText, Encodable, NoBar, IndexOf, IdsOf, SeenKeys, HeadHash, EventText, Admitted, Breaks, Consistent,
      DemoEnv, ClockOk;
    var env := DemoEnv();
    DemoIsRecorded(X, uuid);
    DemoVerifies(X, uuid);
    var e := Append(env, EMPTY, FIRST, uuid).1.row;
    var rows := [PaddedKey(e)];
    PaddedAlone(env, e);
    VerifiedInRange(env, rows);
    PaddedIndex(e);
    PaddedIsAdmitted(rows, uuid);
    RestoredStepExactly(env, rows, AppendCall(Demo(X, Y), uuid));
    RecordedWhenAdmitted(env, RestoredState(rows), Demo(X, Y), uuid);
  }

  lemma PaddedAlone(env: Env, e: Row)
    requires Verified(env, [e]) && e.Event?
    ensures Verified(env, [PaddedKey(e)]) && HeadHash([PaddedKey(e)]) == HeadHash([e])
  {
    hide Verified, EventText, HeadHash, PaddedKey, PaddedEntity;
    assert [] + [e] == [e] && [] + [PaddedKey(e)] == [PaddedKey(e)];
    HeadHidesRawText(env, [], e, PaddedKey(e));
  }

  lemma PaddedIndex(e: Row)
    requires e.Event? && e.eventId == X && e.names == NAMES
    ensures var rows := [PaddedKey(e)]; X !in IndexOf(rows) && IdsOf(rows) == {X} && X in SeenKeys(rows)
  {
    var rows := [PaddedKey(e)];
    OneLetter(120, 256);
    SpaceIsStripped(X, 256);
    hide NormalizeText;
    assert IndexOf(rows[..0]) == map[];
    assert KeyOf(rows[0]) == Some(X);
    assert rows[0].eventId == X;
  }

  lemma PaddedIsAdmitted(rows: seq<Row>, uuid: Uuid)
    requires Verified(DemoEnv(), rows) && |rows| == 1 && rows[0].Event? && rows[0].names == NAMES.(key := [32] + X)
    requires rows[0].payload == Obj([]) && rows[0].payloadText == X && rows[0].occurredAt == X
    requires X !in IndexOf(rows) && IdsOf(rows) == {X} && X in SeenKeys(rows)
    ensures Admitted(DemoEnv(), RestoredState(rows), AppendCall(Demo(X, Y), uuid))
    ensures Breaks(DemoEnv(), RestoredState(rows), AppendCall(Demo(X, Y), uuid))
  {
    OneLetter(120, 256);
    OneLetter(121, 128);
    DemoClock();
    VerifiedLinked(DemoEnv(), rows);
    hide Verified, AllLinked, NormalizeText, IndexOf, IdsOf, SeenKeys, SeenIds, Admitted, Breaks, DemoEnv, ClockOk, Encodable, NoBar;
    assert Reused(rows[0], X, Some(Y)) == Demo(X, Y);
    assert X != Y;
    ReusedAdmitted(DemoEnv(), rows, X, Some(Y), uuid);
    BreaksAppend(DemoEnv(), RestoredState(rows), Demo(X, Y), uuid);
  }

  lemma RecordedWhenAdmitted(env: Env, st: State, r: Request, uuid: Uuid)
    requires IndexInRange(st) && Admitted(env, st, AppendCall(r, uuid))
    ensures Append(env, st, r, uuid).1.Appended?
  {
    hide Prepare, Recordable, Commit;
    CommitAppends(env, st, Prepare(env, r, false).value, r.eventId, uuid, r.occurredAt);
  }
}
