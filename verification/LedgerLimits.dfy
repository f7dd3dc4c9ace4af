/**
 Where the ledger's promises end. A run that leaves a ledger unverifiable, when the full-state
 digest exists, and when a restored ledger stays verifiable.
 */
module LedgerLimits {
  import opened Prelude
  import opened Json
  import opened CanonicalForm
  import opened PythonText
  import opened Records
  import opened LedgerModel
  import opened LedgerRuns
  import opened LedgerIntegrity
  import Cold = ColdExport

  // ------------------------------------------------------------------ when the full-state digest exists

  /** What of a row can hold a lone surrogate although the row was recorded. */
  ghost predicate TextsEncodable(e: Row) {
    e.Event? && Encodable(e.names.key) && EncodableDoc(e.payload)
  }

  lemma RowKeysEncodable()
    ensures forall i :: 0 <= i < |ROW_KEYS| ==> Encodable(ROW_KEYS[i])
  {
    forall s: string ensures Encodable(Ascii(s)) { Cold.AsciiEncodable(s); }
    hide Encodable, Ascii;
  }

  /** The request digest was computed, so the names it covers are encodable, and with them the raw ones. */
  lemma NamesEncodable(env: Env, n: Names, payloadSha: Text)
    requires NormalizeNames(n).Some? && RequestDigest(env, NormalizeNames(n).value, payloadSha).Some?
    ensures Encodable(n.entityType) && Encodable(n.entityId) && Encodable(n.eventType)
    ensures n.entityVersion.Some? ==> Encodable(n.entityVersion.value)
    ensures n.actorDid.Some? ==> Encodable(n.actorDid.value)
    ensures n.actorRef.Some? ==> Encodable(n.actorRef.value)
  {
    var m := NormalizeNames(n).value;
    var values := [
      OptionalText(m.actorDid), OptionalText(m.actorRef), Str(m.entityId), Str(m.entityType),
      OptionalText(m.entityVersion), Str(m.eventType), Str(payloadSha)];
    CanonicalEncodableExactly(Obj(Record(REQUEST_KEYS, values)));
    RecordEncodableBack(REQUEST_KEYS, values);
    assert EncodableDoc(values[0]) && EncodableDoc(values[1]) && EncodableDoc(values[2]) && EncodableDoc(values[3])
      && EncodableDoc(values[4]) && EncodableDoc(values[5]);
    RawNamesEncodable(n);
  }

  /** White space is encodable, so a name is when its stripped form is. */
  lemma RawNamesEncodable(n: Names)
    requires NormalizeNames(n).Some?
    requires var m := NormalizeNames(n).value;
      && Encodable(m.entityType) && Encodable(m.entityId) && Encodable(m.eventType)
      && (m.entityVersion.Some? ==> Encodable(m.entityVersion.value))
      && (m.actorDid.Some? ==> Encodable(m.actorDid.value)) && (m.actorRef.Some? ==> Encodable(m.actorRef.value))
    ensures Encodable(n.entityType) && Encodable(n.entityId) && Encodable(n.eventType)
    ensures n.entityVersion.Some? ==> Encodable(n.entityVersion.value)
    ensures n.actorDid.Some? ==> Encodable(n.actorDid.value)
    ensures n.actorRef.Some? ==> Encodable(n.actorRef.value)
  {
    hide Encodable, Strip;
    StripEncodable(n.entityType);
    StripEncodable(n.entityId);
    StripEncodable(n.eventType);
    if n.entityVersion.Some? { StripEncodable(n.entityVersion.value); }
    if n.actorDid.Some? { StripEncodable(n.actorDid.value); }
    if n.actorRef.Some? { StripEncodable(n.actorRef.value); }
  }

  lemma RecordEncodableBack(keys: seq<Text>, values: seq<Doc>)
    requires |keys| == |values| && EncodableDoc(Obj(Record(keys, values)))
    ensures forall i :: 0 <= i < |values| ==> EncodableDoc(values[i])
  {
    hide Encodable;
    var ms := Record(keys, values);
    forall i | 0 <= i < |values| ensures EncodableDoc(values[i]) { assert ms[i].value == values[i]; }
  }

  lemma LinkedFields(env: Env, earlier: seq<Row>, e: Row)
    requires Linked(env, earlier, e)
    ensures e.Event? && NormalizeNames(e.names).Some? && e.schemaVersion == SCHEMA
    ensures RequestDigest(env, NormalizeNames(e.names).value, e.payloadSha) == Some(e.requestSha)
    ensures Encodable(e.payloadText) && IsHash(e.requestSha)
  {
    hide EventDigest, CorrectionShape, CanonicalText, NormalizeNames, RequestDigest;
  }

  /** Every other text of the row is encodable. */
  ghost predicate OthersEncodable(e: Row) {
    && e.Event? && Encodable(e.names.entityType) && Encodable(e.names.entityId) && Encodable(e.names.eventType)
    && (e.names.entityVersion.Some? ==> Encodable(e.names.entityVersion.value))
    && (e.names.actorDid.Some? ==> Encodable(e.names.actorDid.value))
    && (e.names.actorRef.Some? ==> Encodable(e.names.actorRef.value))
    && Encodable(e.eventId) && Encodable(e.occurredAt) && Encodable(e.payloadText) && Encodable(e.payloadSha)
    && Encodable(e.eventHash) && Encodable(e.requestSha) && Encodable(e.schemaVersion)
    && (e.previous.Some? ==> Encodable(e.previous.value))
  }

  lemma LinkedOthers(env: Env, earlier: seq<Row>, e: Row)
    requires ClockOk(env) && Linked(env, earlier, e) && (e.Event? && e.previous.Some? ==> IsHash(e.previous.value))
    ensures OthersEncodable(e)
  {
    LinkedFields(env, earlier, e);
    Cold.EventEncodable(env, earlier, e);
    hide Linked, ClockOk, NormalizeNames, CanonicalText, Encodable, IsHash;
    NamesEncodable(env, e.names, e.payloadSha);
    Cold.AsciiEncodable("1.1.0");
    Cold.HashEncodable(e.payloadSha);
    Cold.HashEncodable(e.eventHash);
    Cold.HashEncodable(e.requestSha);
    if e.previous.Some? { Cold.HashEncodable(e.previous.value); }
  }

  lemma RowValuesEncodable(e: Row)
    requires OthersEncodable(e) && TextsEncodable(e)
    ensures forall i :: 0 <= i < 17 ==> EncodableDoc(RowValues(e)[i])
  {
    hide Encodable, Decimal;
    assert forall i :: 0 <= i < 6 ==> EncodableDoc(FirstValues(e)[i]);
    assert forall i :: 0 <= i < 6 ==> EncodableDoc(MiddleValues(e)[i]);
    assert forall i :: 0 <= i < 5 ==> EncodableDoc(LastValues(e)[i]);
  }

  /** A linked row is serialised into encodable text exactly when its key and its payload are. */
  lemma RowEncodableExactly(env: Env, earlier: seq<Row>, e: Row)
    requires ClockOk(env) && Linked(env, earlier, e) && (e.Event? && e.previous.Some? ==> IsHash(e.previous.value))
    ensures EncodableDoc(RowDoc(e)) <==> TextsEncodable(e)
  {
    hide Linked, ClockOk, Encodable, IsHash, Ascii;
    LinkedOthers(env, earlier, e);
    hide OthersEncodable;
    RowKeysEncodable();
    if TextsEncodable(e) {
      RowValuesEncodable(e);
      Cold.RecordEncodable(ROW_KEYS, RowValues(e));
    }
    if EncodableDoc(RowDoc(e)) {
      RecordEncodableBack(ROW_KEYS, RowValues(e));
      assert RowValues(e)[8] == Str(e.names.key) && RowValues(e)[10] == e.payload;
    }
  }

  /** The full-state digest of a verified ledger exists exactly when no idempotency key and no payload
      holds a lone surrogate; nothing else the ledger accepts can prevent it. */
  lemma StateDigestExactly(env: Env, rows: seq<Row>)
    requires ClockOk(env) && AllLinked(env, rows)
    ensures StateDigest(env, rows).Some? <==> forall i :: 0 <= i < |rows| ==> TextsEncodable(rows[i])
  {
    var docs := RowDocs(rows);
    CanonicalEncodableExactly(Arr(docs));
    hide Linked, CanonicalText, TextsEncodable, RowDoc, Encodable;
    forall i | 0 <= i < |rows| ensures EncodableDoc(docs[i]) <==> TextsEncodable(rows[i]) {
      assert Linked(env, rows[..i], rows[i]);
      PreviousOfLinked(env, rows, i);
      RowEncodableExactly(env, rows[..i], rows[i]);
    }
  }

  lemma PreviousOfLinked(env: Env, rows: seq<Row>, i: nat)
    requires AllLinked(env, rows) && i < |rows|
    ensures rows[i].Event? && (rows[i].previous.Some? ==> IsHash(rows[i].previous.value))
  {
    hide Linked, BoundFields;
    assert Linked(env, rows[..i], rows[i]);
    LinkedHash(env, rows[..i], rows[i]);
    if i > 0 {
      assert Linked(env, rows[..i - 1], rows[i - 1]);
      LinkedHash(env, rows[..i - 1], rows[i - 1]);
      assert rows[..i][i - 1] == rows[i - 1];
    }
  }

  // ------------------------------------------------------------------ a run that breaks verification

  const X: Text := [120]
  const Y: Text := [121]

  /** An environment in which the text `x` parses as `{}` and every other as one correction payload. */
  ghost function DemoEnv(): Env {
    Env(_ => ZERO_HASH, _ => Some(X),
        t => if t == X then Some(Obj([])) else Some(Obj(CorrectionMembers(X, X, Null))), _ => None)
  }

  const NAMES: Names := Names(X, X, X, None, Some(X), None, X)

  /** An append of the empty payload under a key and an id. */
  function Demo(key: Text, id: Text): Request {
    Request(NAMES.(key := key), Obj([]), Some(X), Some(id), X)
  }

  const FIRST: Request := Demo(X, X)

  /** A correction of the first event whose replacement is `null`. */
  const SECOND: Correction := Correction(X, X, Null, Y, Some(X), None, Some(Y), X, Some(Y))

  predicate Plain(t: Text, maximum: nat) {
    NormalizeText(t, maximum) == Some(t) && NoBar(t) && Encodable(t)
  }

  lemma OneLetter(u: Unit, maximum: nat)
    requires 97 <= u <= 122 && maximum >= 1
    ensures Plain([u], maximum)
  {
    assert StripLeft([u]) == [u];
    assert StripRight([u]) == [u];
  }

  lemma CorrectionTypePlain()
    ensures Plain(CORRECTION_TYPE, 128)
  {
    CorrectionTypeNormal();
    Cold.AsciiEncodable("dail.correction.v1");
    hide NormalizeText;
    assert forall i :: 0 <= i < |CORRECTION_TYPE| ==> CORRECTION_TYPE[i] != BAR;
  }

  lemma SchemaPlain()
    ensures Plain(SCHEMA, 32)
  {
    Cold.AsciiEncodable("1.1.0");
    assert |SCHEMA| == 5 && SCHEMA[0] == '1' as int && SCHEMA[4] == '0' as int;
    assert Trimmed(SCHEMA);
    assert NormalizeText(SCHEMA, 32) == Some(SCHEMA);
    hide NormalizeText;
    assert forall i :: 0 <= i < |SCHEMA| ==> SCHEMA[i] != BAR;
  }

  lemma PlainDigest(e: Row)
    requires e.Event? && e.schemaVersion == SCHEMA && Plain(e.eventId, 128) && Plain(e.names.eventType, 128)
    requires Plain(e.names.entityType, 128) && Plain(e.names.entityId, 512) && e.names.entityVersion.None?
    requires e.names.actorDid.Some? && Plain(e.names.actorDid.value, 512)
    requires IsHash(e.payloadSha) && (e.previous.Some? ==> IsHash(e.previous.value))
    ensures EventDigest(DemoEnv(), e) == Some(ZERO_HASH)
  {
    SchemaPlain();
    Cold.AsciiEncodable("");
    Cold.AsciiEncodable("GENESIS");
    OneLetter(120, 1);
    Cold.HashEncodable(e.payloadSha);
    if e.previous.Some? { Cold.HashEncodable(e.previous.value); }
    hide NormalizeText, NoBar, IsHash, Encodable;
    var previous := PreviousField(e.previous).value;
    var fields := [previous, e.eventId, SCHEMA, e.names.eventType, e.names.entityType, e.names.entityId, [],
      e.names.actorDid.value, e.payloadSha, X];
    assert Ascii("") == [];
    assert BoundFields(DemoEnv(), e) == Some(fields);
    JoinOfEncodable(fields);
  }

  lemma PlainRequest(n: Names)
    requires n == NAMES || n == NAMES.(eventType := CORRECTION_TYPE, key := Y)
    ensures RequestDigest(DemoEnv(), n, ZERO_HASH) == Some(ZERO_HASH)
  {
    OneLetter(120, 1);
    CorrectionTypePlain();
    Cold.HashEncodable(ZERO_HASH);
    forall s: string ensures Encodable(Ascii(s)) { Cold.AsciiEncodable(s); }
    hide Encodable, NormalizeText, Ascii, NoBar, IsHash;
    var values := [OptionalText(n.actorDid), OptionalText(n.actorRef), Str(n.entityId), Str(n.entityType),
      OptionalText(n.entityVersion), Str(n.eventType), Str(ZERO_HASH)];
    Cold.RecordEncodable(REQUEST_KEYS, values);
    CanonicalEncodable(Obj(Record(REQUEST_KEYS, values)));
  }

  lemma DemoClock()
    ensures ClockOk(DemoEnv())
  {
  }

  /** Under any normalised key the first append is recorded, and the ledger then verifies. */
  lemma DemoIsRecorded(key: Text, uuid: Uuid)
    requires NormalizeText(key, 256) == Some(key)
    ensures var (st, o) := Append(DemoEnv(), EMPTY, Demo(key, X), uuid);
      && o.Appended? && st.rows == [o.row] && o.row.Event? && o.row.eventId == X && o.row.names == NAMES.(key := key)
      && o.row.payload == Obj([]) && o.row.payloadText == X && o.row.occurredAt == X
      && st.index == map[key := (ZERO_HASH, 1)] && st.ids == {X} && o.row.eventHash == ZERO_HASH
  {
    OneLetter(120, 128);
    OneLetter(120, 512);
    DemoPrepares(key, X);
    hide NormalizeText, RequestDigest, EventDigest, CanonicalText, NoBar, Encodable, Ascii, Strip, Prepare, Commit, NormalizeNames,
      IsHash, DemoEnv;
    var p := Prepared(NAMES.(key := key), Obj([]), X, ZERO_HASH, ZERO_HASH);
    PlainDigest(NewEvent(p, [], X, X));
    DemoStamp(X);
    CommitAppends(DemoEnv(), EMPTY, p, Some(X), uuid, X);
  }

  lemma DemoVerifies(key: Text, uuid: Uuid)
    requires NormalizeText(key, 256) == Some(key)
    ensures ClockOk(DemoEnv()) && IndexInRange(EMPTY)
    ensures var st := Append(DemoEnv(), EMPTY, Demo(key, X), uuid).0;
      Consistent(DemoEnv(), st) && Verified(DemoEnv(), st.rows) && IndexInRange(st)
  {
    hide Consistent, Verified, Append, NormalizeText;
    var env := DemoEnv();
    DemoClock();
    EmptyConsistent(env);
    EmptyVerifies(env);
    VerifiableExactly(env, EMPTY, AppendCall(Demo(key, X), uuid));
    StepKeeps(env, EMPTY, AppendCall(Demo(key, X), uuid));
    IndexStaysInRange(env, Append(env, EMPTY, Demo(key, X), uuid).0);
  }

  lemma DemoStamp(t: Text)
    ensures DemoEnv().timestamp(t) == Some(X)
  {
  }

  lemma DemoPrepares(key: Text, id: Text)
    requires NormalizeText(key, 256) == Some(key)
    ensures Prepare(DemoEnv(), Demo(key, id), false) == Some(Prepared(NAMES.(key := key), Obj([]), X, ZERO_HASH, ZERO_HASH))
  {
    OneLetter(120, 128);
    OneLetter(120, 256);
    OneLetter(120, 512);
    PlainRequest(NAMES);
    KeyNotRequested(DemoEnv(), NAMES, key, ZERO_HASH);
    assert |CORRECTION_TYPE| == 18;
    hide NormalizeText, RequestDigest, CanonicalText, NoBar, Ascii;
    assert NormalizeNames(NAMES.(key := key)) == Some(NAMES.(key := key));
  }

  /** The idempotency key is not part of the request digest. */
  lemma KeyNotRequested(env: Env, n: Names, key: Text, sha: Text)
    ensures RequestDigest(env, n.(key := key), sha) == RequestDigest(env, n, sha)
  {
  }

  lemma SecondIsAdmitted(st: State, row: Row, uuid: Uuid)
    requires st.rows == [row] && row.Event? && row.eventId == X && row.names == NAMES && row.eventHash == ZERO_HASH
    requires st.index == map[X := (ZERO_HASH, 1)] && st.ids == {X}
    ensures CorrectionAdmitted(DemoEnv(), st, SECOND, uuid)
  {
    OneLetter(120, 128);
    OneLetter(120, 512);
    OneLetter(120, 2048);
    OneLetter(121, 128);
    OneLetter(121, 256);
    OneLetter(121, 512);
    CorrectionTypePlain();
    var names := NAMES.(eventType := CORRECTION_TYPE, key := Y);
    PlainRequest(names);
    hide NormalizeText, RequestDigest, EventDigest, CanonicalText, NoBar, CorrectionMembers, Encodable;
    var payload := Obj(CorrectionMembers(X, X, Null));
    assert st.rows[0].eventId in IdsOf(st.rows);
    assert FindEvent(st.rows, X) == Some(0);
    assert CorrectionRequest(st, SECOND) == Some(Request(names, payload, Some(Y), Some(Y), X));
    var p := Prepared(names, payload, Y, ZERO_HASH, ZERO_HASH);
    assert NormalizeNames(names) == Some(names);
    assert Encodable(Y);
    assert Prepare(DemoEnv(), Request(names, payload, Some(Y), Some(Y), X), true) == Some(p);
    PlainDigest(NewEvent(p, st.rows, Y, X));
  }

  /** One append and one correction of it whose replacement is `null`: both are recorded, the ledger
      verifies after the first and not after the second. */
  lemma NullReplacementBreaksVerify(uuid: Uuid)
    ensures ClockOk(DemoEnv()) && IndexInRange(EMPTY)
    ensures var (st, o) := Append(DemoEnv(), EMPTY, FIRST, uuid);
      && o.Appended? && Verified(DemoEnv(), st.rows) && IndexInRange(st)
      && AppendCorrection(DemoEnv(), st, SECOND, uuid).1.Appended?
      && !Verified(DemoEnv(), AppendCorrection(DemoEnv(), st, SECOND, uuid).0.rows)
  {
    OneLetter(120, 256);
    hide Consistent, Verified, CorrectionAdmitted, Append, AppendCorrection, NormalizeText;
    var env := DemoEnv();
    DemoIsRecorded(X, uuid);
    DemoVerifies(X, uuid);
    var (st, o) := Append(env, EMPTY, FIRST, uuid);
    SecondIsAdmitted(st, o.row, uuid);
    CorrectionAppendsExactly(env, st, SECOND, uuid);
    VerifiableExactly(env, st, CorrectCall(SECOND, uuid));
  }

  /** A key no UTF-8 text can hold. */
  const SURROGATE_KEY: Text := [0xD800]

  /** One append under that key: it is recorded, the ledger verifies, and its full-state digest does not exist. */
  lemma SurrogateKeyHasNoDigest(uuid: Uuid)
    ensures IndexInRange(EMPTY)
    ensures var (st, o) := Append(DemoEnv(), EMPTY, Demo(SURROGATE_KEY, X), uuid);
      o.Appended? && Verified(DemoEnv(), st.rows) && StateDigest(DemoEnv(), st.rows).None?
  {
    assert NormalizeText(SURROGATE_KEY, 256) == Some(SURROGATE_KEY) by {
      assert StripLeft(SURROGATE_KEY) == SURROGATE_KEY == StripRight(SURROGATE_KEY);
    }
    DemoIsRecorded(SURROGATE_KEY, uuid);
    DemoVerifies(SURROGATE_KEY, uuid);
    var rows := Append(DemoEnv(), EMPTY, Demo(SURROGATE_KEY, X), uuid).0.rows;
    hide Append, AllLinked, Consistent, NormalizeText, Demo;
    assert Surrogate(rows[0].names.key[0]) && !Encodable(rows[0].names.key);
    StateDigestExactly(DemoEnv(), rows);
  }

  lemma EmptyVerifies(env: Env)
    ensures Verified(env, EMPTY.rows)
  {
  }

  // ------------------------------------------------------------------ appending to a restored ledger

  /** Every id and key is stored in the normalised form `verify` compares. */
  ghost predicate Tidy(rows: seq<Row>) {
    forall i :: 0 <= i < |rows| ==> Stored(rows[i])
  }

  /** A restored tidy ledger is as good as one that was written: everything proved of runs holds of it. */
  lemma TidyIsConsistent(env: Env, rows: seq<Row>)
    requires AllLinked(env, rows) && Tidy(rows)
    ensures Consistent(env, RestoredState(rows))
  {
  }

  lemma {:induction false} IndexSequences(rows: seq<Row>)
    requires forall i :: 0 <= i < |rows| ==> rows[i].Event? && rows[i].sequence == i + 1
    ensures forall k :: k in IndexOf(rows) ==> 1 <= IndexOf(rows)[k].1 <= |rows|
    ensures forall k :: k in IndexOf(rows) <==> exists i :: 0 <= i < |rows| && rows[i].names.key == k
  {
    if rows != [] {
      var n := |rows| - 1;
      var init := rows[..n];
      IndexSequences(init);
      forall k ensures k in IndexOf(rows) <==> exists i :: 0 <= i < |rows| && rows[i].names.key == k {
        if k in IndexOf(init) {
          var i :| 0 <= i < n && init[i].names.key == k;
          assert rows[i].names.key == k;
        }
        if exists i :: 0 <= i < |rows| && rows[i].names.key == k {
          var i :| 0 <= i < |rows| && rows[i].names.key == k;
          if i < n { assert init[i].names.key == k; }
        }
        assert rows[n].names.key in IndexOf(rows);
      }
    }
  }

  lemma RestoredInRange(env: Env, rows: seq<Row>)
    requires AllLinked(env, rows)
    ensures IndexInRange(RestoredState(rows))
  {
    hide Linked;
    LinkedSequence(env, rows);
    IndexSequences(rows);
  }

  /** What the writer checks before it records a row, whichever call it is. */
  predicate Admitted(env: Env, st: State, c: Command) {
    match c
    case AppendCall(r, uuid) =>
      Prepare(env, r, false).Some? && Recordable(env, st, Prepare(env, r, false).value, r.eventId, uuid, r.occurredAt)
    case CorrectCall(k, uuid) => CorrectionAdmitted(env, st, k, uuid)
  }

  /** The id and the key the row will carry: both computed from the call alone. */
  function NewId(c: Command): Option<Text> {
    match c
    case AppendCall(r, uuid) => ChosenId(r.eventId, uuid)
    case CorrectCall(k, uuid) => ChosenId(k.eventId, uuid)
  }

  function NewKey(c: Command): Option<Text> {
    match c
    case AppendCall(r, _) => NormalizeText(r.names.key, 256)
    case CorrectCall(k, _) => NormalizeText(k.key, 256)
  }

  lemma SnocLinked(env: Env, rows: seq<Row>, e: Row)
    ensures AllLinked(env, rows + [e]) <==> AllLinked(env, rows) && Linked(env, rows, e)
  {
    hide Linked;
    var all := rows + [e];
    SnocPrefix(rows, e);
    forall i | 0 <= i < |rows| ensures Linked(env, all[..i], all[i]) <==> Linked(env, rows[..i], rows[i]) {}
    assert all[..|rows|] == rows && all[|rows|] == e;
    if AllLinked(env, all) {
      forall i | 0 <= i < |rows| ensures Linked(env, rows[..i], rows[i]) { assert Linked(env, all[..i], all[i]); }
      assert Linked(env, all[..|rows|], all[|rows|]);
    }
    if AllLinked(env, rows) && Linked(env, rows, e) {
      forall i | 0 <= i < |all| ensures Linked(env, all[..i], all[i]) {
        if i < |rows| { assert Linked(env, rows[..i], rows[i]); }
      }
    }
  }

  lemma LinkedExactly(env: Env, rows: seq<Row>, e: Row)
    requires SoundAlone(env, e) && Stored(e) && e.sequence == |rows| + 1 && e.previous == PreviousHash(rows)
    requires IsCorrection(e) ==> CorrectionShape(e.payload, SeenIds(rows))
    ensures Linked(env, rows, e) <==> e.eventId !in SeenIds(rows) && e.names.key !in SeenKeys(rows)
  {
    StoredKey(e);
    hide SoundAlone, CorrectionShape, SeenIds, SeenKeys, KeyOf, IdOf, Stored, IsCorrection;
  }

  lemma CommitOnRestored(env: Env, rows: seq<Row>, p: Prepared, eventId: Option<Text>, uuid: Uuid, at: Text)
    requires ClockOk(env) && IndexInRange(RestoredState(rows)) && PreparedGood(env, p, RestoredState(rows))
    requires p.names.eventType == CORRECTION_TYPE ==> CorrectionShape(p.payload, SeenIds(rows))
    requires Recordable(env, RestoredState(rows), p, eventId, uuid, at)
    ensures var (st, o) := Commit(env, RestoredState(rows), p, eventId, uuid, at);
      && o.Appended? && st.rows == rows + [o.row] && o.row.Event? && o.row.names == p.names && o.row.payload == p.payload
      && (Linked(env, rows, o.row) <==>
            ChosenId(eventId, uuid).value !in SeenIds(rows) && p.names.key !in SeenKeys(rows))
  {
    var st := RestoredState(rows);
    hide Commit, PreparedGood, SoundAlone, Linked, EventDigest, SeenIds, SeenKeys, NormalizeText, NormalizeNames, IndexOf, IdsOf,
      CorrectionShape, Stored;
    CommitAppends(env, st, p, eventId, uuid, at);
    var o := Commit(env, st, p, eventId, uuid, at).1;
    ChosenIdNormalized(eventId, uuid);
    NewEventSound(env, p, st, ChosenId(eventId, uuid).value, at);
    TypeOfPrepared(env, p, st);
    LinkedExactly(env, rows, o.row);
  }

  lemma TypeOfPrepared(env: Env, p: Prepared, st: State)
    requires PreparedGood(env, p, st)
    ensures NormalizeText(p.names.eventType, 128) == Some(p.names.eventType)
  {
    NormalNames(p.names);
  }

  /** An append leaves a restored ledger verifiable exactly when it is not an admitted one whose id or
      key is the stripped form of a stored one. */
  lemma RestoredAppendExactly(env: Env, rows: seq<Row>, r: Request, uuid: Uuid)
    requires ClockOk(env) && Verified(env, rows)
    ensures IndexInRange(RestoredState(rows))
    ensures var c := AppendCall(r, uuid); var st := RestoredState(rows);
      Verified(env, Step(env, st, c).0.rows)
      <==> !(Admitted(env, st, c) && (NewId(c).value in SeenIds(rows) || (NewKey(c).Some? && NewKey(c).value in SeenKeys(rows))))
  {
    RestoredInRange(env, rows);
    var st := RestoredState(rows);
    hide Linked, AllLinked, Recordable, Commit, SeenIds, SeenKeys, IndexOf, IdsOf, CanonicalText, RequestDigest, ReplacesWithObject;
    if Prepare(env, r, false).Some? {
      var p := Prepare(env, r, false).value;
      PrepareGood(env, st, r, false);
      OnlyCorrectionsReserved(env, r);
      PreparedNames(env, r, false);
      hide Prepare, PreparedGood, NormalizeNames, NormalizeText;
      if Recordable(env, st, p, r.eventId, uuid, r.occurredAt) {
        NotCorrection(env, p, st);
        CommitOnRestored(env, rows, p, r.eventId, uuid, r.occurredAt);
        var o := Commit(env, st, p, r.eventId, uuid, r.occurredAt).1;
        SnocLinked(env, rows, o.row);
        SnocReplaces(rows, o.row);
      } else {
        CommitAppends(env, st, p, r.eventId, uuid, r.occurredAt);
      }
    }
  }

  lemma NotCorrection(env: Env, p: Prepared, st: State)
    requires PreparedGood(env, p, st) && NormalizeText(p.names.eventType, 128) != Some(CORRECTION_TYPE)
    ensures p.names.eventType != CORRECTION_TYPE
  {
    CorrectionTypeNormal();
  }

  lemma PreparedNames(env: Env, r: Request, reserved: bool)
    requires Prepare(env, r, reserved).Some?
    ensures NormalizeText(r.names.key, 256) == Some(Prepare(env, r, reserved).value.names.key)
    ensures NormalizeText(r.names.eventType, 128) == Some(Prepare(env, r, reserved).value.names.eventType)
  {
    hide NormalizeText, CanonicalText, RequestDigest;
  }

  /** An admitted correction adds one row, linked exactly when its id and key are unseen. */
  lemma AdmittedCorrection(env: Env, rows: seq<Row>, k: Correction, uuid: Uuid)
    requires ClockOk(env) && IndexInRange(RestoredState(rows)) && CorrectionAdmitted(env, RestoredState(rows), k, uuid)
    ensures var (st, o) := AppendCorrection(env, RestoredState(rows), k, uuid);
      && o.Appended? && st.rows == rows + [o.row] && IsCorrection(o.row)
      && (ReplacesWithObject(o.row.payload) <==> k.replacement.Obj?)
      && ChosenId(k.eventId, uuid).Some? && NormalizeText(k.key, 256).Some?
      && (Linked(env, rows, o.row) <==>
            ChosenId(k.eventId, uuid).value !in SeenIds(rows) && NormalizeText(k.key, 256).value !in SeenKeys(rows))
  {
    var st := RestoredState(rows);
    hide Linked, Recordable, Commit, SeenIds, SeenKeys, IndexOf, IdsOf, CanonicalText, RequestDigest, ReplacesWithObject,
      CorrectionShape, CorrectionRequest, Prepare, PreparedGood, NormalizeNames, NormalizeText;
    var r := CorrectionRequest(st, k).value;
    var p := Prepare(env, r, true).value;
    RequestKey(st, k);
    CorrectionRequestShape(st, k);
    SeenTarget(env, rows, k);
    CorrectionTypeNormal();
    PreparedNames(env, r, true);
    PreparedIsGood(env, st, r);
    CommitOnRestored(env, rows, p, k.eventId, uuid, k.occurredAt);
    RecordableId(env, st, p, k.eventId, uuid, k.occurredAt);
  }

  lemma RequestKey(st: State, k: Correction)
    requires CorrectionRequest(st, k).Some?
    ensures var r := CorrectionRequest(st, k).value;
      r.names.key == k.key && r.names.eventType == CORRECTION_TYPE && r.eventId == k.eventId && r.occurredAt == k.occurredAt
  {
    hide NormalizeText, CorrectionMembers;
  }

  lemma PreparedIsGood(env: Env, st: State, r: Request)
    requires Prepare(env, r, true).Some? && CorrectionShape(r.payload, IdsOf(st.rows))
    ensures PreparedGood(env, Prepare(env, r, true).value, st) && Prepare(env, r, true).value.payload == r.payload
  {
    hide CorrectionShape, NormalizeNames, PreparedGood;
    assert NormalizeNames(r.names).Some?;
    PrepareGood(env, st, r, true);
  }

  lemma RecordableId(env: Env, st: State, p: Prepared, eventId: Option<Text>, uuid: Uuid, at: Text)
    requires Recordable(env, st, p, eventId, uuid, at)
    ensures ChosenId(eventId, uuid).Some?
  {
  }

  /** The same for a correction, which must also replace with an object. */
  lemma RestoredCorrectionExactly(env: Env, rows: seq<Row>, k: Correction, uuid: Uuid)
    requires ClockOk(env) && Verified(env, rows)
    ensures IndexInRange(RestoredState(rows))
    ensures var c := CorrectCall(k, uuid); var st := RestoredState(rows);
      Verified(env, Step(env, st, c).0.rows)
      <==> !(Admitted(env, st, c)
             && (NewId(c).value in SeenIds(rows) || (NewKey(c).Some? && NewKey(c).value in SeenKeys(rows)) || !k.replacement.Obj?))
  {
    hide Linked, AllLinked, CorrectionAdmitted, AppendCorrection, SeenIds, SeenKeys, IndexOf, IdsOf, ReplacesWithObject,
      NormalizeText, IsCorrection, AllReplaceWithObjects, ChosenId;
    RestoredInRange(env, rows);
    var st := RestoredState(rows);
    CorrectionAppendsExactly(env, st, k, uuid);
    if CorrectionAdmitted(env, st, k, uuid) {
      AdmittedCorrection(env, rows, k, uuid);
      var o := AppendCorrection(env, st, k, uuid).1;
      SnocLinked(env, rows, o.row);
      SnocReplaces(rows, o.row);
    } else {
      RefusedCorrection(env, st, k, uuid);
    }
  }

  lemma RefusedCorrection(env: Env, st: State, k: Correction, uuid: Uuid)
    requires IndexInRange(st) && !AppendCorrection(env, st, k, uuid).1.Appended?
    ensures AppendCorrection(env, st, k, uuid).0 == st
  {
    hide Prepare, Commit, CorrectionRequest, Recordable;
    if CorrectionRequest(st, k).Some? && Prepare(env, CorrectionRequest(st, k).value, true).Some? {
      CommitAppends(env, st, Prepare(env, CorrectionRequest(st, k).value, true).value, k.eventId, uuid, k.occurredAt);
    }
  }

  /** The target of a correction is a stored id that equals its own stripped form, so `verify` sees it too. */
  lemma SeenTarget(env: Env, rows: seq<Row>, k: Correction)
    requires CorrectionRequest(RestoredState(rows), k).Some?
    ensures CorrectionShape(CorrectionRequest(RestoredState(rows), k).value.payload, SeenIds(rows))
  {
    var target, reason := NormalizeText(k.target, 128).value, NormalizeText(k.reason, 2048).value;
    NormalizeTextIdempotent(k.target, 128);
    NormalizeTextIdempotent(k.reason, 2048);
    hide Strip, CorrectionShape, CorrectionMembers;
    var i := FindEvent(rows, target).value;
    assert IdOf(rows[i]) == Some(target);
    assert target in SeenIds(rows);
    CorrectionPayloadShape(target, reason, k.replacement, SeenIds(rows));
  }

  /** Such an id or key is available to a later call exactly when the restored rows are not tidy. */
  lemma GapExactly(env: Env, rows: seq<Row>)
    requires AllLinked(env, rows)
    ensures ((exists id :: id in SeenIds(rows) && id !in IdsOf(rows)) || (exists k :: k in SeenKeys(rows) && k !in IndexOf(rows)))
            <==> !Tidy(rows)
  {
    LinkedSequence(env, rows);
    IndexSequences(rows);
    if Tidy(rows) {
      StoredSeen(rows);
      hide Linked, SeenIds, SeenKeys;
      forall k | k in SeenKeys(rows) ensures k in IndexOf(rows) {}
    } else {
      var i :| 0 <= i < |rows| && !Stored(rows[i]);
      UntidyRow(env, rows, i);
    }
  }

  lemma UntidyRow(env: Env, rows: seq<Row>, i: nat)
    requires AllLinked(env, rows) && i < |rows| && !Stored(rows[i]) && forall j :: 0 <= j < |rows| ==> rows[j].Event?
    requires forall k :: k in IndexOf(rows) <==> exists j :: 0 <= j < |rows| && rows[j].names.key == k
    ensures (exists id :: id in SeenIds(rows) && id !in IdsOf(rows)) || (exists k :: k in SeenKeys(rows) && k !in IndexOf(rows))
  {
    RowTexts(env, rows, i);
    StoredExactly(rows[i]);
    hide AllLinked, Stored, IndexOf, IdsOf, SeenIds, SeenKeys, IdOf, KeyOf;
    if IdOf(rows[i]) != Some(rows[i].eventId) { UntidyId(env, rows, i); }
    if KeyOf(rows[i]) != Some(rows[i].names.key) { UntidyKey(env, rows, i); }
  }

  lemma UntidyId(env: Env, rows: seq<Row>, i: nat)
    requires AllLinked(env, rows) && i < |rows| && rows[i].Event?
    requires IdOf(rows[i]).Some? && IdOf(rows[i]) != Some(rows[i].eventId)
    ensures IdOf(rows[i]).value in SeenIds(rows) && IdOf(rows[i]).value !in IdsOf(rows)
  {
    hide AllLinked, IdOf;
    var id := IdOf(rows[i]).value;
    if id in IdsOf(rows) {
      var j :| 0 <= j < |rows| && rows[j].Event? && rows[j].eventId == id;
      RowTexts(env, rows, i);
      RowTexts(env, rows, j);
      StrippedText(rows[i], rows[j]);
      if i != j { DistinctTexts(env, rows, i, j); }
    }
  }

  lemma UntidyKey(env: Env, rows: seq<Row>, i: nat)
    requires AllLinked(env, rows) && i < |rows| && rows[i].Event?
    requires KeyOf(rows[i]).Some? && KeyOf(rows[i]) != Some(rows[i].names.key) && forall j :: 0 <= j < |rows| ==> rows[j].Event?
    requires forall k :: k in IndexOf(rows) <==> exists j :: 0 <= j < |rows| && rows[j].names.key == k
    ensures KeyOf(rows[i]).value in SeenKeys(rows) && KeyOf(rows[i]).value !in IndexOf(rows)
  {
    hide AllLinked, KeyOf, IndexOf;
    var key := KeyOf(rows[i]).value;
    if key in IndexOf(rows) {
      var j :| 0 <= j < |rows| && rows[j].names.key == key;
      RowTexts(env, rows, i);
      RowTexts(env, rows, j);
      StrippedText(rows[i], rows[j]);
      if i != j { DistinctTexts(env, rows, i, j); }
    }
  }

  lemma StoredExactly(e: Row)
    requires e.Event?
    ensures Stored(e) <==> IdOf(e) == Some(e.eventId) && KeyOf(e) == Some(e.names.key)
  {
  }

  /** A row whose raw text is the stripped text of another strips to the same. */
  lemma StrippedText(e: Row, f: Row)
    requires e.Event? && f.Event? && IdOf(e).Some? && KeyOf(e).Some?
    ensures f.eventId == IdOf(e).value ==> IdOf(f) == IdOf(e)
    ensures f.names.key == KeyOf(e).value ==> KeyOf(f) == KeyOf(e)
  {
    NormalizeTextIdempotent(e.eventId, 128);
    NormalizeTextIdempotent(e.names.key, 256);
  }

  lemma RowTexts(env: Env, rows: seq<Row>, i: nat)
    requires AllLinked(env, rows) && i < |rows|
    ensures rows[i].Event? && IdOf(rows[i]).Some? && KeyOf(rows[i]).Some?
  {
    hide Linked;
    assert Linked(env, rows[..i], rows[i]);
    LinkedTexts(env, rows[..i], rows[i]);
  }

  lemma LinkedTexts(env: Env, earlier: seq<Row>, e: Row)
    requires Linked(env, earlier, e)
    ensures e.Event? && IdOf(e).Some? && KeyOf(e).Some?
  {
    hide RequestDigest, CanonicalText, EventDigest, CorrectionShape, NormalizeText;
  }

  /** No two rows share a stripped id or a stripped key. */
  lemma DistinctTexts(env: Env, rows: seq<Row>, i: nat, j: nat)
    requires AllLinked(env, rows) && i < |rows| && j < |rows| && i != j
    ensures IdOf(rows[i]) != IdOf(rows[j]) && KeyOf(rows[i]) != KeyOf(rows[j])
  {
    var low, high := if i < j then i else j, if i < j then j else i;
    RowTexts(env, rows, low);
    RowTexts(env, rows, high);
    assert Linked(env, rows[..high], rows[high]);
    assert rows[..high][low] == rows[low];
    hide SoundAlone, CorrectionShape, IdOf, KeyOf;
    assert IdOf(rows[low]).value in SeenIds(rows[..high]) && KeyOf(rows[low]).value in SeenKeys(rows[..high]);
  }
}
