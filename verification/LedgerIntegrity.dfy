/**
 What the anchors of a ledger bind. The head hash determines the length of a verified
 ledger and every hashed field of every row; the full-state digest determines the rows,
 so a ledger restored under it behaves like the original ever after.
 */
module LedgerIntegrity {
  import opened Prelude
  import opened Json
  import opened CanonicalForm
  import opened PythonText
  import opened Records
  import opened LedgerModel
  import opened LedgerRuns

  // ------------------------------------------------------------------ the head hash

  /** The text whose digest is the event hash. */
  function EventText(env: Env, e: Row): Text {
    if e.Event? && BoundFields(env, e).Some? then JoinBar(BoundFields(env, e).value) else []
  }

  /** The event texts of the two ledgers do not collide, and none of them hashes to the zero hash. */
  ghost predicate CollisionFree(env: Env, a: seq<Row>, b: seq<Row>) {
    && (forall i, j :: 0 <= i < |a| && 0 <= j < |b| && env.sha(EventText(env, a[i])) == env.sha(EventText(env, b[j]))
          ==> EventText(env, a[i]) == EventText(env, b[j]))
    && (forall i :: 0 <= i < |a| ==> env.sha(EventText(env, a[i])) != ZERO_HASH)
    && (forall j :: 0 <= j < |b| ==> env.sha(EventText(env, b[j])) != ZERO_HASH)
  }

  lemma BoundFieldsSplit(env: Env, e: Row)
    requires ClockOk(env) && e.Event? && BoundFields(env, e).Some?
    ensures var f := BoundFields(env, e).value;
      |f| == 10 && (forall i :: 0 <= i < 10 ==> NoBar(f[i]))
      && f[0] == PreviousField(e.previous).value
  {
    hide NormalizeText;
    assert |GENESIS| == 7 && NoBar(GENESIS);
    assert Canonical(env, env.timestamp(e.occurredAt).value);
  }

  lemma LinkedHash(env: Env, earlier: seq<Row>, e: Row)
    requires Linked(env, earlier, e)
    ensures e.Event? && BoundFields(env, e).Some? && e.eventHash == env.sha(EventText(env, e))
    ensures IsHash(e.eventHash) && e.previous == PreviousHash(earlier)
  {
    hide BoundFields, CorrectionShape, CanonicalText, RequestDigest, NormalizeNames, NormalizeText;
  }

  /** One step back: equal last hashes force equal bound fields and equal earlier heads. */
  lemma BackStep(env: Env, a: seq<Row>, b: seq<Row>, d: Row, e: Row)
    requires ClockOk(env) && Linked(env, a, d) && Linked(env, b, e) && d.eventHash == e.eventHash
    requires env.sha(EventText(env, d)) == env.sha(EventText(env, e)) ==> EventText(env, d) == EventText(env, e)
    requires PreviousHash(a).Some? <==> a != []
    requires PreviousHash(b).Some? <==> b != []
    ensures BoundFields(env, d) == BoundFields(env, e)
    ensures HeadHash(a) == HeadHash(b)
  {
    LinkedHash(env, a, d);
    LinkedHash(env, b, e);
    hide Linked;
    BoundFieldsSplit(env, d);
    BoundFieldsSplit(env, e);
    hide BoundFields;
    JoinSplits(BoundFields(env, d).value, BoundFields(env, e).value);
    assert PreviousField(d.previous) == PreviousField(e.previous);
    assert |GENESIS| == 7;
  }

  lemma {:induction false} LastIsEvent(env: Env, rows: seq<Row>)
    requires AllLinked(env, rows)
    ensures PreviousHash(rows).Some? <==> rows != []
  {
    hide Linked;
    if rows != [] {
      var n := |rows| - 1;
      assert Linked(env, rows[..n], rows[n]);
      LinkedHash(env, rows[..n], rows[n]);
    }
  }

  lemma AllLinkedPrefix(env: Env, rows: seq<Row>, n: nat)
    requires AllLinked(env, rows) && n <= |rows|
    ensures AllLinked(env, rows[..n])
  {
    hide Linked;
    forall i | 0 <= i < n ensures Linked(env, rows[..n][..i], rows[..n][i]) {
      assert rows[..n][..i] == rows[..i];
      assert Linked(env, rows[..i], rows[i]);
    }
  }

  /** Two verified ledgers with the same head have the same length and agree on every bound field of every row. */
  lemma {:induction false} HeadBindsHistory(env: Env, a: seq<Row>, b: seq<Row>)
    requires ClockOk(env) && AllLinked(env, a) && AllLinked(env, b)
    requires CollisionFree(env, a, b) && HeadHash(a) == HeadHash(b)
    ensures |a| == |b|
    ensures forall i :: 0 <= i < |a| ==>
      a[i].Event? && b[i].Event? && BoundFields(env, a[i]).Some? && BoundFields(env, a[i]) == BoundFields(env, b[i])
    decreases |a| + |b|
  {
    hide Linked, BoundFields, EventText;
    LastIsEvent(env, a);
    LastIsEvent(env, b);
    if a != [] {
      LinkedHash(env, a[..|a| - 1], a[|a| - 1]);
    }
    if b != [] {
      LinkedHash(env, b[..|b| - 1], b[|b| - 1]);
    }
    if a != [] && b != [] {
      var m, n := |a| - 1, |b| - 1;
      AllLinkedPrefix(env, a, m);
      AllLinkedPrefix(env, b, n);
      LastIsEvent(env, a[..m]);
      LastIsEvent(env, b[..n]);
      BackStep(env, a[..m], b[..n], a[m], b[n]);
      HeadBindsHistory(env, a[..m], b[..n]);
      assert forall i :: 0 <= i < m ==> a[i] == a[..m][i] && b[i] == b[..n][i];
    }
  }

  /** What equal bound fields say about two rows: the normalised texts agree, a missing version only
      with a missing version, and the actor is the DID, or the reference when there is no DID. */
  lemma BoundFieldsMean(env: Env, d: Row, e: Row)
    requires d.Event? && e.Event? && BoundFields(env, d).Some? && BoundFields(env, d) == BoundFields(env, e)
    ensures NormalizeText(d.eventId, 128) == NormalizeText(e.eventId, 128)
    ensures NormalizeText(d.names.eventType, 128) == NormalizeText(e.names.eventType, 128)
    ensures NormalizeText(d.names.entityType, 128) == NormalizeText(e.names.entityType, 128)
    ensures NormalizeText(d.names.entityId, 512) == NormalizeText(e.names.entityId, 512)
    ensures NormalizeOptional(d.names.entityVersion, 128) == NormalizeOptional(e.names.entityVersion, 128)
    ensures ActorField(d.names.actorDid, d.names.actorRef) == ActorField(e.names.actorDid, e.names.actorRef)
    ensures d.payloadSha == e.payloadSha
    ensures env.timestamp(d.occurredAt) == env.timestamp(e.occurredAt)
  {
    BoundFieldsParts(env, d);
    BoundFieldsParts(env, e);
    hide BoundFields, HashField, ActorField;
    HashFieldIsText(d.eventId, 128);
    HashFieldIsText(e.eventId, 128);
    HashFieldIsText(d.names.eventType, 128);
    HashFieldIsText(e.names.eventType, 128);
    HashFieldIsText(d.names.entityType, 128);
    HashFieldIsText(e.names.entityType, 128);
    HashFieldIsText(d.names.entityId, 512);
    HashFieldIsText(e.names.entityId, 512);
    VersionField(d.names.entityVersion);
    VersionField(e.names.entityVersion);
  }

  lemma BoundFieldsParts(env: Env, e: Row)
    requires e.Event? && BoundFields(env, e).Some?
    ensures var f := BoundFields(env, e).value;
      && |f| == 10
      && HashField(e.eventId, 128) == Some(f[1])
      && HashField(e.names.eventType, 128) == Some(f[3])
      && HashField(e.names.entityType, 128) == Some(f[4])
      && HashField(e.names.entityId, 512) == Some(f[5])
      && OptionalHashField(e.names.entityVersion, 128) == Some(f[6])
      && ActorField(e.names.actorDid, e.names.actorRef) == Some(f[7])
      && e.payloadSha == f[8] && env.timestamp(e.occurredAt) == Some(f[9])
  {
    hide HashField, ActorField;
  }

  lemma HashFieldIsText(t: Text, maximum: nat)
    requires HashField(t, maximum).Some?
    ensures HashField(t, maximum) == NormalizeText(t, maximum) && HashField(t, maximum).value != []
  {
  }

  lemma VersionField(v: Option<Text>)
    requires OptionalHashField(v, 128).Some?
    ensures NormalizeOptional(v, 128) ==
      Some(if OptionalHashField(v, 128).value == [] then None else OptionalHashField(v, 128))
  {
    if v.Some? { HashFieldIsText(v.value, 128); }
  }

  // ------------------------------------------------------------------ the full-state digest

  /** The event fields in the order `sort_keys` writes them. */
  const ROW_KEYS: seq<Text> := [
    Ascii("actor_did"), Ascii("actor_ref"), Ascii("entity_id"), Ascii("entity_type"), Ascii("entity_version"),
    Ascii("event_hash"), Ascii("event_id"), Ascii("event_type"), Ascii("idempotency_key"), Ascii("occurred_at"),
    Ascii("payload"), Ascii("payload_jsonb_text"), Ascii("payload_sha256"), Ascii("previous_event_hash"),
    Ascii("request_sha256"), Ascii("schema_version"), Ascii("sequence")]

  function RowValues(e: Row): (r: seq<Doc>)
    requires e.Event?
    ensures |r| == 17
  {
    FirstValues(e) + MiddleValues(e) + LastValues(e)
  }

  function FirstValues(e: Row): seq<Doc>
    requires e.Event?
  {
    [OptionalText(e.names.actorDid), OptionalText(e.names.actorRef), Str(e.names.entityId), Str(e.names.entityType),
     OptionalText(e.names.entityVersion), Str(e.eventHash)]
  }

  function MiddleValues(e: Row): seq<Doc>
    requires e.Event?
  {
    [Str(e.eventId), Str(e.names.eventType), Str(e.names.key), Str(e.occurredAt), e.payload, Str(e.payloadText)]
  }

  function LastValues(e: Row): seq<Doc>
    requires e.Event?
  {
    [Str(e.payloadSha), OptionalText(e.previous), Str(e.requestSha), Str(e.schemaVersion), Num(Decimal(e.sequence))]
  }

  function RowDoc(e: Row): Doc {
    if e.Event? then Obj(Record(ROW_KEYS, RowValues(e))) else e.doc
  }

  function RowDocs(rows: seq<Row>): (r: seq<Doc>)
    ensures |r| == |rows| && forall i :: 0 <= i < |r| ==> r[i] == RowDoc(rows[i])
  {
    seq(|rows|, i requires 0 <= i < |rows| => RowDoc(rows[i]))
  }

  /** `full_state_sha256`: the digest of the canonical JSON of all rows. */
  function StateText(rows: seq<Row>): Text {
    CanonicalText(Python, Arr(RowDocs(rows)))
  }

  function StateDigest(env: Env, rows: seq<Row>): Option<Hash> {
    Sha256(env, StateText(rows))
  }

  lemma RowKeysAscend()
    ensures Ascending(ROW_KEYS)
  {
    hide Ascii, Less;
    AsciiLess("actor_did", "actor_ref", 6);
    AsciiLess("actor_ref", "entity_id", 0);
    AsciiLess("entity_id", "entity_type", 7);
    AsciiLess("entity_type", "entity_version", 7);
    AsciiLess("entity_version", "event_hash", 1);
    AsciiLess("event_hash", "event_id", 6);
    AsciiLess("event_id", "event_type", 6);
    AsciiLess("event_type", "idempotency_key", 0);
    AsciiLess("idempotency_key", "occurred_at", 0);
    AsciiLess("occurred_at", "payload", 0);
    AsciiLess("payload", "payload_jsonb_text", 7);
    AsciiLess("payload_jsonb_text", "payload_sha256", 8);
    AsciiLess("payload_sha256", "previous_event_hash", 1);
    AsciiLess("previous_event_hash", "request_sha256", 0);
    AsciiLess("request_sha256", "schema_version", 0);
    AsciiLess("schema_version", "sequence", 1);
    AdjacentAscending(ROW_KEYS);
  }

  /** The same row up to the member order inside its payload, which a Python dict comparison ignores. */
  ghost predicate SameRow(d: Row, e: Row) {
    && d.Event? && e.Event?
    && d.(payload := Null) == e.(payload := Null)
    && Normal(d.payload) == Normal(e.payload)
  }

  ghost predicate SameRows(a: seq<Row>, b: seq<Row>) {
    |a| == |b| && forall i :: 0 <= i < |a| ==> SameRow(a[i], b[i])
  }

  lemma RowDocValid(e: Row)
    ensures ValidDoc(RowDoc(e))
  {
    if e.Event? {
      RowKeysAscend();
      RecordValid(ROW_KEYS, RowValues(e));
    }
  }

  lemma RowDocsEqual(d: Row, e: Row)
    requires d.Event? && e.Event? && d.sequence == e.sequence
    requires Normal(RowDoc(d)) == Normal(RowDoc(e))
    ensures SameRow(d, e)
  {
    RowKeysAscend();
    RecordsEqual(ROW_KEYS, RowValues(d), RowValues(e));
    RowValuesEqual(d, e);
  }

  lemma RowValuesEqual(d: Row, e: Row)
    requires d.Event? && e.Event? && d.sequence == e.sequence
    requires forall i :: 0 <= i < 17 ==> Normal(RowValues(d)[i]) == Normal(RowValues(e)[i])
    ensures SameRow(d, e)
  {
    var u, v := RowValues(d), RowValues(e);
    forall i | 0 <= i < 6
      ensures Normal(FirstValues(d)[i]) == Normal(FirstValues(e)[i])
      ensures Normal(MiddleValues(d)[i]) == Normal(MiddleValues(e)[i])
    {
      assert u[i] == FirstValues(d)[i] && v[i] == FirstValues(e)[i];
      assert u[6 + i] == MiddleValues(d)[i] && v[6 + i] == MiddleValues(e)[i];
    }
    forall i | 0 <= i < 5 ensures Normal(LastValues(d)[i]) == Normal(LastValues(e)[i]) {
      assert u[12 + i] == LastValues(d)[i] && v[12 + i] == LastValues(e)[i];
    }
    FirstValuesEqual(d, e);
    MiddleValuesEqual(d, e);
    LastValuesEqual(d, e);
  }

  lemma FirstValuesEqual(d: Row, e: Row)
    requires d.Event? && e.Event?
    requires forall i :: 0 <= i < 6 ==> Normal(FirstValues(d)[i]) == Normal(FirstValues(e)[i])
    ensures d.names.actorDid == e.names.actorDid && d.names.actorRef == e.names.actorRef
    ensures d.names.entityId == e.names.entityId && d.names.entityType == e.names.entityType
    ensures d.names.entityVersion == e.names.entityVersion && d.eventHash == e.eventHash
  {
    var u, v := FirstValues(d), FirstValues(e);
    assert u[0] == v[0] && u[1] == v[1] && u[2] == v[2] && u[3] == v[3] && u[4] == v[4] && u[5] == v[5];
  }

  lemma MiddleValuesEqual(d: Row, e: Row)
    requires d.Event? && e.Event?
    requires forall i :: 0 <= i < 6 ==> Normal(MiddleValues(d)[i]) == Normal(MiddleValues(e)[i])
    ensures d.eventId == e.eventId && d.names.eventType == e.names.eventType && d.names.key == e.names.key
    ensures d.occurredAt == e.occurredAt && d.payloadText == e.payloadText && Normal(d.payload) == Normal(e.payload)
  {
    var u, v := MiddleValues(d), MiddleValues(e);
    assert u[0] == v[0] && u[1] == v[1] && u[2] == v[2] && u[3] == v[3] && u[5] == v[5];
    assert Normal(u[4]) == Normal(v[4]);
  }

  lemma LastValuesEqual(d: Row, e: Row)
    requires d.Event? && e.Event?
    requires forall i :: 0 <= i < 5 ==> Normal(LastValues(d)[i]) == Normal(LastValues(e)[i])
    ensures d.payloadSha == e.payloadSha && d.previous == e.previous
    ensures d.requestSha == e.requestSha && d.schemaVersion == e.schemaVersion
  {
    var u, v := LastValues(d), LastValues(e);
    assert u[0] == v[0] && u[1] == v[1] && u[2] == v[2] && u[3] == v[3];
  }

  /** Equal full-state texts come from the same rows. */
  lemma StateTextBindsRows(a: seq<Row>, b: seq<Row>)
    requires forall i :: 0 <= i < |a| ==> a[i].Event? && a[i].sequence == i + 1
    requires forall i :: 0 <= i < |b| ==> b[i].Event? && b[i].sequence == i + 1
    requires StateText(a) == StateText(b)
    ensures SameRows(a, b)
  {
    forall e: Row ensures ValidDoc(RowDoc(e)) { RowDocValid(e); }
    CanonicalTextIsValue(Python, Arr(RowDocs(a)), Arr(RowDocs(b)));
    var na, nb := Normal(Arr(RowDocs(a))).items, Normal(Arr(RowDocs(b))).items;
    assert |a| == |na| == |nb| == |b|;
    forall i | 0 <= i < |a| ensures SameRow(a[i], b[i]) {
      assert na[i] == Normal(RowDoc(a[i])) && nb[i] == Normal(RowDoc(b[i]));
      RowDocsEqual(a[i], b[i]);
    }
  }

  // ------------------------------------------------------------------ restoring

  /** Rows accepted by `restore_isolated` under the two anchors. */
  ghost predicate RestoreAccepts(env: Env, rows: seq<Row>, head: Text, state: Text) {
    && Verified(env, rows)
    && IsHash(head) && HeadHash(rows) == head
    && IsHash(state) && StateDigest(env, rows) == Some(state)
  }

  /** The ledger `restore_isolated` builds from accepted rows. */
  function RestoredState(rows: seq<Row>): State {
    State(rows, IndexOf(rows), IdsOf(rows))
  }

  ghost predicate SameLedger(s: State, t: State) {
    SameRows(s.rows, t.rows) && s.index == t.index && s.ids == t.ids
  }

  ghost predicate SameOutcome(o: Outcome, p: Outcome) {
    match o
    case Appended(d) => p.Appended? && SameRow(d, p.row)
    case AlreadyRecorded(d) => p.AlreadyRecorded? && SameRow(d, p.row)
    case Rejected(_) => o == p
  }

  /** A verifiable ledger restored under its own anchors is accepted and rebuilt exactly, indexes included. */
  lemma RestoreOwn(env: Env, st: State)
    requires Consistent(env, st) && Verified(env, st.rows) && StateDigest(env, st.rows).Some?
    ensures RestoreAccepts(env, st.rows, HeadHash(st.rows), StateDigest(env, st.rows).value)
    ensures RestoredState(st.rows) == st
  {
    LastIsEvent(env, st.rows);
    if st.rows != [] {
      var n := |st.rows| - 1;
      assert Linked(env, st.rows[..n], st.rows[n]);
      LinkedHash(env, st.rows[..n], st.rows[n]);
    }
  }

  lemma LinkedSequence(env: Env, rows: seq<Row>)
    requires AllLinked(env, rows)
    ensures forall i :: 0 <= i < |rows| ==> rows[i].Event? && rows[i].sequence == i + 1
  {
    forall i | 0 <= i < |rows| ensures rows[i].Event? && rows[i].sequence == i + 1 {
      hide SoundAlone, CorrectionShape;
      assert Linked(env, rows[..i], rows[i]);
      LinkedHash(env, rows[..i], rows[i]);
    }
  }

  lemma SamePrefix(a: seq<Row>, b: seq<Row>, n: nat)
    requires SameRows(a, b) && n <= |a|
    ensures SameRows(a[..n], b[..n])
  {
    forall i | 0 <= i < n ensures SameRow(a[..n][i], b[..n][i]) {
      assert SameRow(a[i], b[i]);
    }
  }

  lemma {:induction false} SameIndexes(a: seq<Row>, b: seq<Row>)
    requires SameRows(a, b)
    ensures IndexOf(a) == IndexOf(b) && PreviousHash(a) == PreviousHash(b)
  {
    if a != [] {
      var n := |a| - 1;
      assert SameRow(a[n], b[n]);
      SamePrefix(a, b, n);
      SameIndexes(a[..n], b[..n]);
    }
  }

  lemma SameIds(a: seq<Row>, b: seq<Row>)
    requires SameRows(a, b)
    ensures IdsOf(a) == IdsOf(b)
  {
    forall i | 0 <= i < |a| ensures a[i].Event? && b[i].Event? && a[i].eventId == b[i].eventId {
      assert SameRow(a[i], b[i]);
    }
  }

  lemma SameStored(d: Row, e: Row)
    requires SameRow(d, e) && Stored(e)
    ensures Stored(d)
  {
    hide NormalizeText, NormalizeNames;
  }

  /** Any row list accepted under a ledger's anchors is that ledger, unless two full-state texts collide. */
  lemma RestoreIsOriginal(env: Env, st: State, rows: seq<Row>)
    requires Consistent(env, st) && StateDigest(env, st.rows).Some?
    requires RestoreAccepts(env, rows, HeadHash(st.rows), StateDigest(env, st.rows).value)
    requires env.sha(StateText(rows)) == env.sha(StateText(st.rows)) ==> StateText(rows) == StateText(st.rows)
    ensures SameLedger(RestoredState(rows), st) && Consistent(env, RestoredState(rows))
  {
    hide Linked, StateText, Stored, IndexOf, IdsOf;
    LinkedSequence(env, rows);
    LinkedSequence(env, st.rows);
    StateTextBindsRows(rows, st.rows);
    SameIndexes(rows, st.rows);
    SameIds(rows, st.rows);
    forall i | 0 <= i < |rows| ensures Stored(rows[i]) {
      assert SameRow(rows[i], st.rows[i]) && Stored(st.rows[i]);
      SameStored(rows[i], st.rows[i]);
    }
  }

  // ------------------------------------------------------------------ behaviour after a restore

  lemma {:induction false} SameFind(a: seq<Row>, b: seq<Row>, id: Text)
    requires SameRows(a, b)
    ensures FindEvent(a, id) == FindEvent(b, id)
  {
    if a != [] {
      assert SameRow(a[0], b[0]);
      forall i | 0 <= i < |a| - 1 ensures SameRow(a[1..][i], b[1..][i]) {
        assert SameRow(a[i + 1], b[i + 1]);
      }
      SameFind(a[1..], b[1..], id);
    }
  }

  lemma SnocSame(a: seq<Row>, b: seq<Row>, e: Row)
    requires SameRows(a, b) && e.Event?
    ensures SameRows(a + [e], b + [e])
  {
    forall i | 0 <= i <= |a| ensures SameRow((a + [e])[i], (b + [e])[i]) {
      if i < |a| { assert SameRow(a[i], b[i]); }
    }
  }

  lemma SameCommit(env: Env, s: State, t: State, p: Prepared, eventId: Option<Text>, uuid: Uuid, at: Text)
    requires SameLedger(s, t) && IndexInRange(s) && IndexInRange(t)
    ensures SameLedger(Commit(env, s, p, eventId, uuid, at).0, Commit(env, t, p, eventId, uuid, at).0)
    ensures SameOutcome(Commit(env, s, p, eventId, uuid, at).1, Commit(env, t, p, eventId, uuid, at).1)
  {
    hide EventDigest, NormalizeText, SameRow, IndexOf;
    SameIndexes(s.rows, t.rows);
    if p.names.key in s.index {
      var i := s.index[p.names.key].1 - 1;
      assert SameRow(s.rows[i], t.rows[i]);
    } else {
      CommitAppends(env, s, p, eventId, uuid, at);
      CommitAppends(env, t, p, eventId, uuid, at);
      SameFreshCommit(env, s, t, p, eventId, uuid, at);
      var o := Commit(env, s, p, eventId, uuid, at).1;
      if o.Appended? {
        SnocSame(s.rows, t.rows, o.row);
        SameSelf(o.row);
      }
    }
  }

  lemma SameSelf(e: Row)
    requires e.Event?
    ensures SameRow(e, e)
  {
  }

  lemma SameFreshCommit(env: Env, s: State, t: State, p: Prepared, eventId: Option<Text>, uuid: Uuid, at: Text)
    requires s.index == t.index && s.ids == t.ids && |s.rows| == |t.rows|
    requires PreviousHash(s.rows) == PreviousHash(t.rows)
    requires IndexInRange(s) && IndexInRange(t) && p.names.key !in s.index
    ensures Commit(env, s, p, eventId, uuid, at).1 == Commit(env, t, p, eventId, uuid, at).1
  {
    hide EventDigest, NormalizeText;
    if ChosenId(eventId, uuid).Some? && env.timestamp(at).Some? {
      assert NewEvent(p, s.rows, ChosenId(eventId, uuid).value, env.timestamp(at).value)
          == NewEvent(p, t.rows, ChosenId(eventId, uuid).value, env.timestamp(at).value);
    }
  }

  lemma SameStep(env: Env, s: State, t: State, c: Command)
    requires SameLedger(s, t) && IndexInRange(s) && IndexInRange(t)
    ensures SameLedger(Step(env, s, c).0, Step(env, t, c).0)
    ensures SameOutcome(Step(env, s, c).1, Step(env, t, c).1)
  {
    hide Commit, Prepare;
    match c
    case AppendCall(r, uuid) =>
      if Prepare(env, r, false).Some? {
        SameCommit(env, s, t, Prepare(env, r, false).value, r.eventId, uuid, r.occurredAt);
      }
    case CorrectCall(k, uuid) =>
      if NormalizeText(k.target, 128).Some? {
        SameFind(s.rows, t.rows, NormalizeText(k.target, 128).value);
        var f := FindEvent(s.rows, NormalizeText(k.target, 128).value);
        if f.Some? { assert SameRow(s.rows[f.value], t.rows[f.value]); }
      }
      assert CorrectionRequest(s, k) == CorrectionRequest(t, k);
      var r := CorrectionRequest(s, k);
      if r.Some? && Prepare(env, r.value, true).Some? {
        SameCommit(env, s, t, Prepare(env, r.value, true).value, k.eventId, uuid, k.occurredAt);
      }
  }

  /** After a restore every later sequence of calls has the same outcomes as on the original. */
  lemma {:induction false} SameForever(env: Env, s: State, t: State, calls: seq<Command>, last: Command)
    requires ClockOk(env) && Consistent(env, s) && Consistent(env, t) && SameLedger(s, t)
    requires IndexInRange(s) && IndexInRange(t)
    ensures IndexInRange(Run(env, s, calls)) && IndexInRange(Run(env, t, calls))
    ensures SameLedger(Run(env, s, calls), Run(env, t, calls))
    ensures SameOutcome(Step(env, Run(env, s, calls), last).1, Step(env, Run(env, t, calls), last).1)
    decreases |calls|
  {
    hide Step, Consistent, SameLedger;
    if calls == [] {
      SameStep(env, s, t, last);
    } else {
      SameStep(env, s, t, calls[0]);
      StepKeeps(env, s, calls[0]);
      StepKeeps(env, t, calls[0]);
      IndexStaysInRange(env, Step(env, s, calls[0]).0);
      IndexStaysInRange(env, Step(env, t, calls[0]).0);
      SameForever(env, Step(env, s, calls[0]).0, Step(env, t, calls[0]).0, calls[1..], last);
    }
  }
}
