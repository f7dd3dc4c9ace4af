/**
 The event-hash contract of services/dail_v1/runtime.py: normalisation, the pipe-joined
 event digest, the request digest, the append and correction steps as functions on a
 ledger state, and what `verify` accepts. SHA-256, timestamp parsing and JSON parsing are
 arbitrary functions carried in `Env`.
 */
module LedgerModel {
  import opened Prelude
  import opened Json
  import opened CanonicalForm
  import opened PythonText
  import opened Records

  const SCHEMA: Text := Ascii("1.1.0")
  const CORRECTION_TYPE: Text := Ascii("dail.correction.v1")
  const GENESIS: Text := Ascii("GENESIS")

  /** `timestamp` is `_normalize_timestamp`, `parse` is the duplicate-rejecting loader,
      `render` is `postgres_jsonb_text`; `None` is an exception. */
  datatype Env = Env(
    sha: Text -> Hash,
    timestamp: Text -> Option<Text>,
    parse: Text -> Option<JsonDoc>,
    render: JsonDoc -> Option<Text>)

  /** Canonical timestamps are ASCII without the delimiter, and normalising one changes nothing. */
  ghost predicate ClockOk(env: Env) {
    forall t :: env.timestamp(t).Some? ==> Canonical(env, env.timestamp(t).value)
  }

  ghost predicate Canonical(env: Env, stamp: Text) {
    env.timestamp(stamp) == Some(stamp) && forall i :: 0 <= i < |stamp| ==> stamp[i] < BAR
  }

  // ------------------------------------------------------------------ rows

  /** The caller's text fields. */
  datatype Names = Names(
    eventType: Text, entityType: Text, entityId: Text, entityVersion: Option<Text>,
    actorDid: Option<Text>, actorRef: Option<Text>, key: Text)

  /** A stored row: an object with exactly the event fields, or any other JSON value. */
  datatype Row =
    | Event(
        schemaVersion: Text, sequence: int, eventId: Text, names: Names, payload: JsonDoc,
        payloadText: Text, payloadSha: Text, requestSha: Text, previous: Option<Text>,
        eventHash: Text, occurredAt: Text)
    | Other(doc: JsonDoc)

  // ------------------------------------------------------------------ normalisation

  function NormalizeText(t: Text, maximum: nat): Option<Text> {
    var n := Strip(t);
    if n == [] || |n| > maximum then None else Some(n)
  }

  function NormalizeOptional(t: Option<Text>, maximum: nat): Option<Option<Text>> {
    if t.None? then Some(None)
    else
      var n :- NormalizeText(t.value, maximum);
      Some(Some(n))
  }

  function NormalizeNames(n: Names): Option<Names> {
    var eventType :- NormalizeText(n.eventType, 128);
    var entityType :- NormalizeText(n.entityType, 128);
    var entityId :- NormalizeText(n.entityId, 512);
    var entityVersion :- NormalizeOptional(n.entityVersion, 128);
    var actorDid :- NormalizeOptional(n.actorDid, 512);
    var actorRef :- NormalizeOptional(n.actorRef, 512);
    var key :- NormalizeText(n.key, 256);
    Some(Names(eventType, entityType, entityId, entityVersion, actorDid, actorRef, key))
  }

  lemma NormalizeTextIdempotent(t: Text, maximum: nat)
    requires NormalizeText(t, maximum).Some?
    ensures NormalizeText(NormalizeText(t, maximum).value, maximum) == NormalizeText(t, maximum)
  {
    StripTrims(t);
  }

  /** Normalised names are left alone by a second normalisation. */
  lemma NormalizeNamesIdempotent(n: Names)
    requires NormalizeNames(n).Some?
    ensures NormalizeNames(NormalizeNames(n).value) == NormalizeNames(n)
  {
    NormalizeTextIdempotent(n.eventType, 128);
    NormalizeTextIdempotent(n.entityType, 128);
    NormalizeTextIdempotent(n.entityId, 512);
    NormalizeTextIdempotent(n.key, 256);
    if n.entityVersion.Some? { NormalizeTextIdempotent(n.entityVersion.value, 128); }
    if n.actorDid.Some? { NormalizeTextIdempotent(n.actorDid.value, 512); }
    if n.actorRef.Some? { NormalizeTextIdempotent(n.actorRef.value, 512); }
  }

  // ------------------------------------------------------------------ digests

  /** `_sha256_text`: an exception when the text is not valid UTF-8. */
  function Sha256(env: Env, t: Text): Option<Hash> {
    if Encodable(t) then Some(env.sha(t)) else None
  }

  function HashField(t: Text, maximum: nat): Option<Text> {
    var n :- NormalizeText(t, maximum);
    if NoBar(n) then Some(n) else None
  }

  /** A missing version or actor hashes as the empty text. */
  function OptionalHashField(t: Option<Text>, maximum: nat): Option<Text> {
    if t.None? then Some([]) else HashField(t.value, maximum)
  }

  /** The DID wins over the reference, which is then not even looked at. */
  function ActorField(did: Option<Text>, ref: Option<Text>): Option<Text> {
    if did.Some? then HashField(did.value, 512) else OptionalHashField(ref, 512)
  }

  function PreviousField(previous: Option<Text>): Option<Text> {
    if previous.None? then Some(GENESIS) else if IsHash(previous.value) then previous else None
  }

  /** The ten fields the event hash binds, in order. */
  function BoundFields(env: Env, e: Row): Option<seq<Text>>
    requires e.Event?
  {
    var previous :- PreviousField(e.previous);
    var eventId :- HashField(e.eventId, 128);
    var schema :- HashField(e.schemaVersion, 32);
    var eventType :- HashField(e.names.eventType, 128);
    var entityType :- HashField(e.names.entityType, 128);
    var entityId :- HashField(e.names.entityId, 512);
    var version :- OptionalHashField(e.names.entityVersion, 128);
    var actor :- ActorField(e.names.actorDid, e.names.actorRef);
    var payloadSha :- if IsHash(e.payloadSha) then Some(e.payloadSha) else None;
    var at :- env.timestamp(e.occurredAt);
    Some([previous, eventId, schema, eventType, entityType, entityId, version, actor, payloadSha, at])
  }

  /** `production_event_hash`. */
  function EventDigest(env: Env, e: Row): Option<Hash>
    requires e.Event?
  {
    var fields :- BoundFields(env, e);
    Sha256(env, JoinBar(fields))
  }

  const REQUEST_KEYS: seq<Text> := [
    Ascii("actor_did"), Ascii("actor_ref"), Ascii("entity_id"), Ascii("entity_type"),
    Ascii("entity_version"), Ascii("event_type"), Ascii("payload_sha256")]

  /** The text `_request_hash` digests, over normalised names; the idempotency key is not part of the request. */
  function RequestText(n: Names, payloadSha: Text): Text {
    CanonicalText(Python, Obj(Record(REQUEST_KEYS, [
      OptionalText(n.actorDid), OptionalText(n.actorRef), Str(n.entityId), Str(n.entityType),
      OptionalText(n.entityVersion), Str(n.eventType), Str(payloadSha)])))
  }

  function RequestDigest(env: Env, n: Names, payloadSha: Text): Option<Hash> {
    Sha256(env, RequestText(n, payloadSha))
  }

  // ------------------------------------------------------------------ ledger state

  datatype State = State(rows: seq<Row>, index: map<Text, (Text, int)>, ids: set<Text>)

  const EMPTY: State := State([], map[], {})

  function PreviousHash(rows: seq<Row>): Option<Text> {
    if rows == [] || !rows[|rows| - 1].Event? then None else Some(rows[|rows| - 1].eventHash)
  }

  function HeadHash(rows: seq<Row>): Text {
    var last := PreviousHash(rows);
    if last.Some? then last.value else ZERO_HASH
  }

  /** The idempotency index a linear pass over the rows builds. */
  function IndexOf(rows: seq<Row>): map<Text, (Text, int)> {
    if rows == [] then map[]
    else
      var last := rows[|rows| - 1];
      var before := IndexOf(rows[..|rows| - 1]);
      if last.Event? then before[last.names.key := (last.requestSha, last.sequence)] else before
  }

  function IdsOf(rows: seq<Row>): set<Text> {
    set i | 0 <= i < |rows| && rows[i].Event? :: rows[i].eventId
  }

  // ------------------------------------------------------------------ appending

  datatype LedgerError = InvalidEvent | IdempotencyConflict | ReplayDetected

  datatype Outcome = Appended(row: Row) | AlreadyRecorded(row: Row) | Rejected(error: LedgerError)

  datatype Request = Request(
    names: Names, payload: JsonDoc, payloadText: Option<Text>, eventId: Option<Text>, occurredAt: Text)

  datatype Prepared = Prepared(
    names: Names, payload: JsonDoc, payloadText: Text, payloadSha: Hash, requestSha: Hash)

  /** What `_append` computes before it takes the lock. */
  function Prepare(env: Env, r: Request, reservedAllowed: bool): Option<Prepared> {
    var names :- NormalizeNames(r.names);
    if names.eventType == CORRECTION_TYPE && !reservedAllowed then None
    else if !r.payload.Obj? then None
    else
      var text :- if r.payloadText.Some? then r.payloadText else env.render(r.payload);
      var parsed :- env.parse(text);
      var payloadSha :- Sha256(env, text);
      if CanonicalText(Python, parsed) != CanonicalText(Python, r.payload) then None
      else
        var requestSha :- RequestDigest(env, names, payloadSha);
        Some(Prepared(names, r.payload, text, payloadSha, requestSha))
  }

  /** `str(uuid.uuid4())`. */
  predicate IsUuid(t: Text) {
    |t| == 36 && forall i :: 0 <= i < |t| ==> LowerHex(t[i]) || t[i] == MINUS
  }

  type Uuid = t: Text | IsUuid(t) witness Repeat(48, 36)

  function NewEvent(p: Prepared, rows: seq<Row>, eventId: Text, at: Text): Row {
    Event(SCHEMA, |rows| + 1, eventId, p.names, p.payload, p.payloadText, p.payloadSha, p.requestSha,
      PreviousHash(rows), [], at)
  }

  predicate IndexInRange(st: State) {
    forall k :: k in st.index ==> 1 <= st.index[k].1 <= |st.rows|
  }

  /** The locked part of `_append`. */
  function Commit(env: Env, st: State, p: Prepared, eventId: Option<Text>, uuid: Uuid, occurredAt: Text)
    : (State, Outcome)
    requires IndexInRange(st)
  {
    if p.names.key in st.index then
      var (bound, sequence) := st.index[p.names.key];
      if bound != p.requestSha then (st, Rejected(IdempotencyConflict))
      else (st, AlreadyRecorded(st.rows[sequence - 1]))
    else
      var id := if eventId.Some? then NormalizeText(eventId.value, 128) else Some(uuid);
      var at := env.timestamp(occurredAt);
      if id.None? then (st, Rejected(InvalidEvent))
      else if id.value in st.ids then (st, Rejected(ReplayDetected))
      else if at.None? then (st, Rejected(InvalidEvent))
      else
        var draft := NewEvent(p, st.rows, id.value, at.value);
        var digest := EventDigest(env, draft);
        if digest.None? then (st, Rejected(InvalidEvent))
        else
          var event := draft.(eventHash := digest.value);
          (State(st.rows + [event],
                 st.index[p.names.key := (p.requestSha, event.sequence)],
                 st.ids + {id.value}),
           Appended(event))
  }

  function Append(env: Env, st: State, r: Request, uuid: Uuid): (State, Outcome)
    requires IndexInRange(st)
  {
    var p := Prepare(env, r, false);
    if p.None? then (st, Rejected(InvalidEvent))
    else Commit(env, st, p.value, r.eventId, uuid, r.occurredAt)
  }

  datatype Correction = Correction(
    target: Text, reason: Text, replacement: JsonDoc, key: Text, actorDid: Option<Text>,
    actorRef: Option<Text>, eventId: Option<Text>, occurredAt: Text, payloadText: Option<Text>)

  const REASON: Text := Ascii("reason")
  const REPLACEMENT: Text := Ascii("replacement_payload")
  const TARGET: Text := Ascii("target_event_id")

  function CorrectionMembers(target: Text, reason: Text, replacement: JsonDoc): (ms: seq<Member<Doc>>)
    ensures ValidDoc(Obj(ms))
  {
    assert |REASON| == 6 && |REPLACEMENT| == 19 && |TARGET| == 15;
    [Member(REASON, Str(reason)), Member(REPLACEMENT, replacement), Member(TARGET, Str(target))]
  }

  /** The first row with that event id, as `next(...)` finds it. */
  function FindEvent(rows: seq<Row>, id: Text): (r: Option<nat>)
    ensures r.Some? ==> r.value < |rows| && rows[r.value].Event? && rows[r.value].eventId == id
  {
    if rows == [] then None
    else if rows[0].Event? && rows[0].eventId == id then Some(0)
    else
      var i :- FindEvent(rows[1..], id);
      Some(i + 1)
  }

  function CorrectionRequest(st: State, c: Correction): Option<Request> {
    var target :- NormalizeText(c.target, 128);
    var reason :- NormalizeText(c.reason, 2048);
    if c.actorDid.None? && c.actorRef.None? then None
    else
      var i :- FindEvent(st.rows, target);
      var n := st.rows[i].names;
      Some(Request(
        Names(CORRECTION_TYPE, n.entityType, n.entityId, n.entityVersion, c.actorDid, c.actorRef, c.key),
        Obj(CorrectionMembers(target, reason, c.replacement)), c.payloadText, c.eventId, c.occurredAt))
  }

  function AppendCorrection(env: Env, st: State, c: Correction, uuid: Uuid): (State, Outcome)
    requires IndexInRange(st)
  {
    var r := CorrectionRequest(st, c);
    if r.None? then (st, Rejected(InvalidEvent))
    else
      var p := Prepare(env, r.value, true);
      if p.None? then (st, Rejected(InvalidEvent))
      else Commit(env, st, p.value, c.eventId, uuid, c.occurredAt)
  }

  // ------------------------------------------------------------------ what verify accepts

  /** Normalised event id and idempotency key, as `verify` collects them. */
  function IdOf(e: Row): Option<Text> {
    if e.Event? then NormalizeText(e.eventId, 128) else None
  }

  function KeyOf(e: Row): Option<Text> {
    if e.Event? then NormalizeText(e.names.key, 256) else None
  }

  function SeenIds(rows: seq<Row>): set<Text> {
    set i | 0 <= i < |rows| && IdOf(rows[i]).Some? :: IdOf(rows[i]).value
  }

  function SeenKeys(rows: seq<Row>): set<Text> {
    set i | 0 <= i < |rows| && KeyOf(rows[i]).Some? :: KeyOf(rows[i]).value
  }

  /** The checks of one row that look at no other row. */
  predicate SoundAlone(env: Env, e: Row) {
    && e.Event?
    && e.schemaVersion == SCHEMA
    && NormalizeText(e.eventId, 128).Some?
    && NormalizeNames(e.names).Some?
    && e.payload.Obj?
    && env.parse(e.payloadText).Some?
    && CanonicalText(Python, env.parse(e.payloadText).value) == CanonicalText(Python, e.payload)
    && Sha256(env, e.payloadText) == Some(e.payloadSha)
    && RequestDigest(env, NormalizeNames(e.names).value, e.payloadSha) == Some(e.requestSha)
    && env.timestamp(e.occurredAt) == Some(e.occurredAt)
    && EventDigest(env, e) == Some(e.eventHash)
  }

  /** `_verify_correction` apart from the replacement. */
  predicate CorrectionShape(payload: Doc, earlierIds: set<Text>) {
    && payload.Obj?
    && (set m | m in payload.members :: m.key) == {REASON, REPLACEMENT, TARGET}
    && (exists t :: t in earlierIds && Lookup(payload.members, TARGET) == Some(Str(t)))
    && Lookup(payload.members, REASON).Some?
    && Lookup(payload.members, REASON).value.Str?
    && Strip(Lookup(payload.members, REASON).value.s) != []
  }

  predicate ReplacesWithObject(payload: Doc) {
    payload.Obj? && var r := Lookup(payload.members, REPLACEMENT); r.Some? && r.value.Obj?
  }

  predicate IsCorrection(e: Row) {
    e.Event? && NormalizeText(e.names.eventType, 128) == Some(CORRECTION_TYPE)
  }

  /** Everything `verify` demands of a row after `earlier`, except that a correction replaces with an object. */
  predicate Linked(env: Env, earlier: seq<Row>, e: Row) {
    && SoundAlone(env, e)
    && e.sequence == |earlier| + 1
    && IdOf(e).value !in SeenIds(earlier)
    && KeyOf(e).value !in SeenKeys(earlier)
    && e.previous == PreviousHash(earlier)
    && (IsCorrection(e) ==> CorrectionShape(e.payload, SeenIds(earlier)))
  }

  ghost predicate AllLinked(env: Env, rows: seq<Row>) {
    forall i :: 0 <= i < |rows| ==> Linked(env, rows[..i], rows[i])
  }

  ghost predicate AllReplaceWithObjects(rows: seq<Row>) {
    forall i :: 0 <= i < |rows| ==> IsCorrection(rows[i]) ==> ReplacesWithObject(rows[i].payload)
  }

  /** The rows pass `verify`. */
  ghost predicate Verified(env: Env, rows: seq<Row>) {
    AllLinked(env, rows) && AllReplaceWithObjects(rows)
  }
}
