/**
 What an append and a correction do, stated on the arguments and the stored rows: when a call is
 recorded, every field of the row it leaves, when two requests are the same, and what a retry gets.
 */
module LedgerOutcomes {
  import opened Prelude
  import opened Json
  import opened CanonicalForm
  import opened PythonText
  import opened Records
  import opened LedgerModel
  import opened LedgerRuns
  import opened LedgerIntegrity
  import Cold = ColdExport
  import Limits = LedgerLimits
  import Restored = RestoredRuns

  // ------------------------------------------------------------------ when two requests are the same

  lemma RequestKeysAscend()
    ensures Ascending(REQUEST_KEYS)
  {
    hide Ascii, Less;
    AsciiLess("actor_did", "actor_ref", 6);
    AsciiLess("actor_ref", "entity_id", 0);
    AsciiLess("entity_id", "entity_type", 7);
    AsciiLess("entity_type", "entity_version", 7);
    AsciiLess("entity_version", "event_type", 1);
    AsciiLess("event_type", "payload_sha256", 0);
    AdjacentAscending(REQUEST_KEYS);
  }

  function RequestValues(n: Names, payloadSha: Text): (v: seq<Doc>)
    ensures |v| == 7 && forall i :: 0 <= i < 7 ==> ValidDoc(v[i]) && Normal(v[i]) == v[i]
  {
    [OptionalText(n.actorDid), OptionalText(n.actorRef), Str(n.entityId), Str(n.entityType),
     OptionalText(n.entityVersion), Str(n.eventType), Str(payloadSha)]
  }

  /** The request text names each of the six fields and the payload digest, under its own key. */
  lemma RequestTextSpelled(n: Names, payloadSha: Text)
    ensures RequestText(n, payloadSha) == CanonicalText(Python, Obj([
      Member(Ascii("actor_did"), OptionalText(n.actorDid)), Member(Ascii("actor_ref"), OptionalText(n.actorRef)),
      Member(Ascii("entity_id"), Str(n.entityId)), Member(Ascii("entity_type"), Str(n.entityType)),
      Member(Ascii("entity_version"), OptionalText(n.entityVersion)), Member(Ascii("event_type"), Str(n.eventType)),
      Member(Ascii("payload_sha256"), Str(payloadSha))]))
  {
    hide Ascii, CanonicalText;
    var ms := Record(REQUEST_KEYS, RequestValues(n, payloadSha));
    assert ms == [
      Member(Ascii("actor_did"), OptionalText(n.actorDid)), Member(Ascii("actor_ref"), OptionalText(n.actorRef)),
      Member(Ascii("entity_id"), Str(n.entityId)), Member(Ascii("entity_type"), Str(n.entityType)),
      Member(Ascii("entity_version"), OptionalText(n.entityVersion)), Member(Ascii("event_type"), Str(n.eventType)),
      Member(Ascii("payload_sha256"), Str(payloadSha))];
  }

  /** The two names agree on everything a request is made of: all but the idempotency key. */
  predicate SameNames(n: Names, m: Names) {
    && n.eventType == m.eventType && n.entityType == m.entityType && n.entityId == m.entityId
    && n.entityVersion == m.entityVersion && n.actorDid == m.actorDid && n.actorRef == m.actorRef
  }

  lemma RequestTextBinds(n: Names, m: Names, a: Text, b: Text)
    requires RequestText(n, a) == RequestText(m, b)
    ensures a == b && SameNames(n, m)
  {
    RequestKeysAscend();
    var u, v := RequestValues(n, a), RequestValues(m, b);
    hide CanonicalText, Ascending, Record, Ascii, Normal;
    Cold.SameRecordText(REQUEST_KEYS, u, v);
    assert u[0] == v[0] && u[1] == v[1] && u[2] == v[2] && u[3] == v[3] && u[4] == v[4] && u[5] == v[5] && u[6] == v[6];
    SameOptional(n.actorDid, m.actorDid);
    SameOptional(n.actorRef, m.actorRef);
    SameOptional(n.entityVersion, m.entityVersion);
  }

  lemma SameOptional(s: Option<Text>, t: Option<Text>)
    requires OptionalText(s) == OptionalText(t)
    ensures s == t
  {
  }

  /** Unless their texts collide, two request digests are equal if and only if the payload digests and all names but
      the idempotency key are. */
  lemma SameRequestExactly(env: Env, n: Names, m: Names, a: Text, b: Text)
    requires RequestDigest(env, n, a).Some? && RequestDigest(env, m, b).Some?
    requires env.sha(RequestText(n, a)) == env.sha(RequestText(m, b)) ==> RequestText(n, a) == RequestText(m, b)
    ensures RequestDigest(env, n, a) == RequestDigest(env, m, b) <==> a == b && SameNames(n, m)
  {
    if a == b && SameNames(n, m) { SameText(n, m, a); }
    hide RequestText;
    if RequestText(n, a) == RequestText(m, b) { RequestTextBinds(n, m, a, b); }
  }

  lemma SameText(n: Names, m: Names, a: Text)
    requires SameNames(n, m)
    ensures RequestText(n, a) == RequestText(m, a)
  {
  }

  // ------------------------------------------------------------------ what is computed before the lock

  /** Not blank, and no longer than that once stripped. */
  predicate Within(t: Text, maximum: nat) { 1 <= |Strip(t)| <= maximum }

  predicate OptionalWithin(t: Option<Text>, maximum: nat) { t.Some? ==> Within(t.value, maximum) }

  function Stripped(t: Option<Text>): Option<Text> {
    if t.Some? then Some(Strip(t.value)) else None
  }

  predicate NamesWithin(n: Names) {
    && Within(n.eventType, 128) && Within(n.entityType, 128) && Within(n.entityId, 512)
    && OptionalWithin(n.entityVersion, 128) && OptionalWithin(n.actorDid, 512) && OptionalWithin(n.actorRef, 512)
    && Within(n.key, 256)
  }

  function StrippedNames(n: Names): Names {
    Names(Strip(n.eventType), Strip(n.entityType), Strip(n.entityId), Stripped(n.entityVersion), Stripped(n.actorDid),
      Stripped(n.actorRef), Strip(n.key))
  }

  lemma NormalizeExactly(n: Names)
    ensures NormalizeNames(n) == if NamesWithin(n) then Some(StrippedNames(n)) else None
  {
    hide Strip;
  }

  /** The database text of the payload: the one given, or the rendered one. */
  function PayloadText(env: Env, payload: JsonDoc, given: Option<Text>): Option<Text> {
    if given.Some? then given else env.render(payload)
  }

  /** The text parses, without a duplicate key, to the same JSON value as the payload, and is valid UTF-8. */
  ghost predicate Represents(env: Env, t: Text, payload: JsonDoc) {
    env.parse(t).Some? && Meaning(env.parse(t).value) == Meaning(payload) && Encodable(t)
  }

  /** No lone surrogate in the names the request digest covers. */
  predicate NamesEncodable(n: Names) {
    && Encodable(n.eventType) && Encodable(n.entityType) && Encodable(n.entityId)
    && (n.entityVersion.Some? ==> Encodable(n.entityVersion.value))
    && (n.actorDid.Some? ==> Encodable(n.actorDid.value)) && (n.actorRef.Some? ==> Encodable(n.actorRef.value))
  }

  lemma ValuesEncodable(n: Names, payloadSha: Text)
    requires Encodable(payloadSha)
    ensures NamesEncodable(n) <==> forall i :: 0 <= i < 7 ==> EncodableDoc(RequestValues(n, payloadSha)[i])
  {
    hide Encodable;
    var v := RequestValues(n, payloadSha);
    if forall i :: 0 <= i < 7 ==> EncodableDoc(v[i]) {
      assert EncodableDoc(v[0]) && EncodableDoc(v[1]) && EncodableDoc(v[2]) && EncodableDoc(v[3]) && EncodableDoc(v[4])
        && EncodableDoc(v[5]);
    }
  }

  lemma RequestDigestExactly(env: Env, n: Names, payloadSha: Text)
    requires Encodable(payloadSha)
    ensures RequestDigest(env, n, payloadSha) == if NamesEncodable(n) then Some(env.sha(RequestText(n, payloadSha))) else None
  {
    ValuesEncodable(n, payloadSha);
    var values := RequestValues(n, payloadSha);
    assert RequestText(n, payloadSha) == CanonicalText(Python, Obj(Record(REQUEST_KEYS, values)));
    forall s: string ensures Encodable(Ascii(s)) { Cold.AsciiEncodable(s); }
    hide Encodable, Ascii, CanonicalText, EncodableDoc, NamesEncodable, RequestValues, RequestText, Record;
    CanonicalEncodableExactly(Obj(Record(REQUEST_KEYS, values)));
    if NamesEncodable(n) { Cold.RecordEncodable(REQUEST_KEYS, values); }
    if EncodableDoc(Obj(Record(REQUEST_KEYS, values))) { Limits.RecordEncodableBack(REQUEST_KEYS, values); }
  }

  lemma RepresentsExactly(env: Env, text: Text, payload: JsonDoc)
    ensures Represents(env, text, payload) <==>
      env.parse(text).Some? && Sha256(env, text).Some? && CanonicalText(Python, env.parse(text).value) == CanonicalText(Python, payload)
  {
    if env.parse(text).Some? { CanonicalTextIsValue(Python, env.parse(text).value, payload); }
  }

  /** A request passes the checks before the lock exactly when its names fit, its type is not the reserved one unless
      that is allowed, its payload is an object whose database text exists and represents it, and no name has a lone
      surrogate. It is then kept with stripped names, the payload as given and the digests of the two texts. */
  lemma PreparedExactly(env: Env, r: Request, reserved: bool)
    ensures var text := PayloadText(env, r.payload, r.payloadText);
      Prepare(env, r, reserved) ==
        if NamesWithin(r.names) && (Strip(r.names.eventType) == Ascii("dail.correction.v1") ==> reserved)
           && r.payload.Obj? && text.Some? && Represents(env, text.value, r.payload) && NamesEncodable(StrippedNames(r.names))
        then Some(Prepared(StrippedNames(r.names), r.payload, text.value, env.sha(text.value),
               env.sha(RequestText(StrippedNames(r.names), env.sha(text.value)))))
        else None
  {
    NormalizeExactly(r.names);
    var text := PayloadText(env, r.payload, r.payloadText);
    if text.Some? {
      RepresentsExactly(env, text.value, r.payload);
      HashesEncodable(env.sha(text.value));
      RequestDigestExactly(env, StrippedNames(r.names), env.sha(text.value));
    }
    hide NormalizeNames, NamesWithin, CanonicalText, RequestDigest, RequestText, NamesEncodable, Strip, Represents, Ascii, Encodable;
  }

  lemma HashesEncodable(h: Hash)
    ensures Encodable(h)
  {
    Cold.HashEncodable(h);
  }

  // ------------------------------------------------------------------ the event hash of a new row

  /** Without the delimiter and without a lone surrogate. */
  predicate Clean(t: Text) {
    forall i :: 0 <= i < |t| ==> t[i] != '|' as int && !(0xD800 <= t[i] <= 0xDFFF)
  }

  function OrEmpty(t: Option<Text>): Text {
    if t.Some? then t.value else []
  }

  /** The DID, else the reference, else nothing. */
  function Actor(n: Names): Text {
    if n.actorDid.Some? then n.actorDid.value else OrEmpty(n.actorRef)
  }

  predicate CleanNames(n: Names) {
    Clean(n.eventType) && Clean(n.entityType) && Clean(n.entityId) && Clean(OrEmpty(n.entityVersion)) && Clean(Actor(n))
  }

  /** The text whose digest is the event hash, in the order of its ten fields. */
  function EventLine(previous: Option<Text>, id: Text, n: Names, payloadSha: Text, stamp: Text): Text {
    JoinBar([if previous.Some? then previous.value else Ascii("GENESIS"), id, Ascii("1.1.0"), n.eventType, n.entityType,
      n.entityId, OrEmpty(n.entityVersion), Actor(n), payloadSha, stamp])
  }

  lemma CleanExactly(t: Text)
    ensures Clean(t) <==> NoBar(t) && Encodable(t)
  {
  }

  lemma StrippedNormal(n: Names)
    requires NamesWithin(n)
    ensures NormalizeNames(StrippedNames(n)) == Some(StrippedNames(n))
  {
    NormalizeExactly(n);
    NormalizeNamesIdempotent(n);
  }

  /** What normalised names hash as. */
  lemma NormalFields(n: Names)
    requires NormalizeNames(n) == Some(n)
    ensures HashField(n.eventType, 128) == if NoBar(n.eventType) then Some(n.eventType) else None
    ensures HashField(n.entityType, 128) == if NoBar(n.entityType) then Some(n.entityType) else None
    ensures HashField(n.entityId, 512) == if NoBar(n.entityId) then Some(n.entityId) else None
    ensures OptionalHashField(n.entityVersion, 128) == if NoBar(OrEmpty(n.entityVersion)) then Some(OrEmpty(n.entityVersion)) else None
    ensures ActorField(n.actorDid, n.actorRef) == if NoBar(Actor(n)) then Some(Actor(n)) else None
  {
    hide Strip, NormalizeText;
  }

  lemma FieldsOfNew(env: Env, e: Row)
    requires e.Event? && e.schemaVersion == SCHEMA && NormalizeNames(e.names) == Some(e.names) && IsHash(e.payloadSha)
    requires NormalizeText(e.eventId, 128) == Some(e.eventId) && (e.previous.Some? ==> IsHash(e.previous.value))
    requires env.timestamp(e.occurredAt) == Some(e.occurredAt)
    ensures BoundFields(env, e) ==
      if NoBar(e.eventId) && NoBar(e.names.eventType) && NoBar(e.names.entityType) && NoBar(e.names.entityId)
         && NoBar(OrEmpty(e.names.entityVersion)) && NoBar(Actor(e.names))
      then Some([if e.previous.Some? then e.previous.value else Ascii("GENESIS"), e.eventId, Ascii("1.1.0"), e.names.eventType,
        e.names.entityType, e.names.entityId, OrEmpty(e.names.entityVersion), Actor(e.names), e.payloadSha, e.occurredAt])
      else None
  {
    NormalFields(e.names);
    Limits.SchemaPlain();
    assert HashField(e.eventId, 128) == if NoBar(e.eventId) then Some(e.eventId) else None;
    assert HashField(SCHEMA, 32) == Some(SCHEMA);
    hide BoundFields, NormalizeText, NormalizeNames, NoBar, IsHash, HashField, OptionalHashField, ActorField, OrEmpty, Actor, Ascii;
    Restored.FieldsOf(env, e);
  }

  lemma EventDigestExactly(env: Env, e: Row)
    requires e.Event? && e.schemaVersion == SCHEMA && NormalizeNames(e.names) == Some(e.names) && IsHash(e.payloadSha)
    requires NormalizeText(e.eventId, 128) == Some(e.eventId) && (e.previous.Some? ==> IsHash(e.previous.value))
    requires env.timestamp(e.occurredAt) == Some(e.occurredAt) && Encodable(e.occurredAt)
    ensures EventDigest(env, e) ==
      if Clean(e.eventId) && CleanNames(e.names)
      then Some(env.sha(EventLine(e.previous, e.eventId, e.names, e.payloadSha, e.occurredAt))) else None
  {
    FieldsOfNew(env, e);
    CleanExactly(e.eventId);
    CleanExactly(e.names.eventType);
    CleanExactly(e.names.entityType);
    CleanExactly(e.names.entityId);
    CleanExactly(OrEmpty(e.names.entityVersion));
    CleanExactly(Actor(e.names));
    hide NormalizeText, NormalizeNames, IsHash, NoBar, Clean, BoundFields, OrEmpty, Actor;
    if BoundFields(env, e).Some? { EncodableLine(env, e, BoundFields(env, e).value); }
  }

  /** The other four fields never have a lone surrogate. */
  lemma EncodableLine(env: Env, e: Row, f: seq<Text>)
    requires e.Event? && IsHash(e.payloadSha) && (e.previous.Some? ==> IsHash(e.previous.value)) && Encodable(e.occurredAt)
    requires f == [if e.previous.Some? then e.previous.value else Ascii("GENESIS"), e.eventId, Ascii("1.1.0"), e.names.eventType,
        e.names.entityType, e.names.entityId, OrEmpty(e.names.entityVersion), Actor(e.names), e.payloadSha, e.occurredAt]
    ensures Encodable(JoinBar(f)) <==>
      Encodable(e.eventId) && Encodable(e.names.eventType) && Encodable(e.names.entityType) && Encodable(e.names.entityId)
      && Encodable(OrEmpty(e.names.entityVersion)) && Encodable(Actor(e.names))
  {
    Cold.AsciiEncodable("GENESIS");
    Cold.AsciiEncodable("1.1.0");
    Cold.HashEncodable(e.payloadSha);
    if e.previous.Some? { Cold.HashEncodable(e.previous.value); }
    hide Encodable, JoinBar, Ascii, OrEmpty, Actor, IsHash;
    if Encodable(JoinBar(f)) {
      JoinEncodable(f);
      assert Encodable(f[1]) && Encodable(f[3]) && Encodable(f[4]) && Encodable(f[5]) && Encodable(f[6]) && Encodable(f[7]);
    } else if Encodable(f[1]) && Encodable(f[3]) && Encodable(f[4]) && Encodable(f[5]) && Encodable(f[6]) && Encodable(f[7]) {
      assert forall i :: 0 <= i < 10 ==> Encodable(f[i]);
      JoinOfEncodable(f);
    }
  }

  // ------------------------------------------------------------------ when a call is recorded

  ghost predicate KeyUsed(rows: seq<Row>, key: Text) {
    exists i :: 0 <= i < |rows| && rows[i].Event? && rows[i].names.key == key
  }

  ghost predicate IdUsed(rows: seq<Row>, id: Text) {
    exists i :: 0 <= i < |rows| && rows[i].Event? && rows[i].eventId == id
  }

  lemma UsedExactly(env: Env, st: State)
    requires Consistent(env, st)
    ensures forall k :: KeyUsed(st.rows, k) <==> k in st.index
    ensures forall id :: IdUsed(st.rows, id) <==> id in st.ids
    ensures forall i :: 0 <= i < |st.rows| ==>
      st.rows[i].Event? && st.rows[i].names.key in st.index && st.index[st.rows[i].names.key] == (st.rows[i].requestSha, i + 1)
  {
    hide Consistent, IndexOf, Linked, IdsOf, KeyUsed, IdUsed;
    IndexesOf(env, st);
    IndexIsLinearSearch(st.rows);
    KeysExactly(st.rows);
    IdsExactly(st.rows);
  }

  lemma KeysExactly(rows: seq<Row>)
    requires Keyed(rows)
    ensures forall k :: KeyUsed(rows, k) <==> k in IndexOf(rows)
  {
    hide IndexOf;
    IndexIsLinearSearch(rows);
    forall k ensures KeyUsed(rows, k) <==> k in IndexOf(rows) {
      if KeyUsed(rows, k) { var i := UsedBy(rows, k); }
      if k in IndexOf(rows) { var i :| 0 <= i < |rows| && rows[i].names.key == k; }
    }
  }

  lemma IdsExactly(rows: seq<Row>)
    ensures forall id :: IdUsed(rows, id) <==> id in IdsOf(rows)
  {
  }

  lemma UsedBy(rows: seq<Row>, key: Text) returns (i: nat)
    requires KeyUsed(rows, key)
    ensures i < |rows| && rows[i].Event? && rows[i].names.key == key
  {
    i :| 0 <= i < |rows| && rows[i].Event? && rows[i].names.key == key;
  }

  lemma IndexesOf(env: Env, st: State)
    requires Consistent(env, st)
    ensures Keyed(st.rows) && st.index == IndexOf(st.rows) && st.ids == IdsOf(st.rows)
  {
    hide Linked, Stored;
    LinkedKeyed(env, st.rows);
  }

  /** The row a call leaves, from the arguments and the rows before it. */
  function NewRow(env: Env, rows: seq<Row>, n: Names, payload: JsonDoc, text: Text, id: Text, stamp: Text): Row {
    var previous := if rows != [] && rows[|rows| - 1].Event? then Some(rows[|rows| - 1].eventHash) else None;
    Event(Ascii("1.1.0"), |rows| + 1, id, n, payload, text, env.sha(text), env.sha(RequestText(n, env.sha(text))), previous,
      env.sha(EventLine(previous, id, n, env.sha(text), stamp)), stamp)
  }

  /** What can go wrong before a request with a new key is looked at row by row. */
  ghost predicate Presentable(env: Env, r: Request, reserved: bool) {
    var text := PayloadText(env, r.payload, r.payloadText);
    NamesWithin(r.names) && (Strip(r.names.eventType) == Ascii("dail.correction.v1") ==> reserved)
    && r.payload.Obj? && text.Some? && Represents(env, text.value, r.payload) && NamesEncodable(StrippedNames(r.names))
  }

  function RequestId(r: Request, uuid: Uuid): Text {
    if r.eventId.Some? then Strip(r.eventId.value) else uuid
  }

  /** The digest of the request: its text names the stripped names and the digest of the payload's text. */
  function RequestSha(env: Env, r: Request): Hash {
    env.sha(RequestText(StrippedNames(r.names), env.sha(OrEmpty(PayloadText(env, r.payload, r.payloadText)))))
  }

  /** The time is valid, and the id and the hashed names are clean. */
  predicate Hashable(env: Env, r: Request, uuid: Uuid) {
    env.timestamp(r.occurredAt).Some? && Clean(RequestId(r, uuid)) && CleanNames(StrippedNames(r.names))
  }

  function RequestRow(env: Env, rows: seq<Row>, r: Request, uuid: Uuid): Row {
    NewRow(env, rows, StrippedNames(r.names), r.payload, OrEmpty(PayloadText(env, r.payload, r.payloadText)),
      RequestId(r, uuid), OrEmpty(env.timestamp(r.occurredAt)))
  }

  /** Every answer to a request, and the ledger after it: see `AnswersWith`. */
  ghost predicate Answers(env: Env, st: State, r: Request, reserved: bool, uuid: Uuid, after: State, o: Outcome) {
    AnswersWith(st, Strip(r.names.key), RequestId(r, uuid), Presentable(env, r, reserved),
      r.eventId.Some? ==> Within(r.eventId.value, 128), Hashable(env, r, uuid), RequestSha(env, r),
      RequestRow(env, st.rows, r, uuid), after, o)
  }

  /** A request that is not presentable is invalid. A used key is answered with its row, or with a conflict when that
      row is of another request. A new key needs a valid id, then an unused one, then what can be hashed. */
  ghost predicate AnswersWith(
      st: State, key: Text, id: Text, presentable: bool, named: bool, hashable: bool, requestSha: Text, row: Row,
      after: State, o: Outcome)
  {
    match o
    case Appended(e) =>
      && presentable && !KeyUsed(st.rows, key) && named && !IdUsed(st.rows, id) && hashable && e == row
      && after == State(st.rows + [row], st.index[key := (requestSha, |st.rows| + 1)], st.ids + {id})
    case AlreadyRecorded(e) =>
      after == st && presentable && e in st.rows && e.Event? && e.names.key == key && e.requestSha == requestSha
    case Rejected(IdempotencyConflict) =>
      && after == st && presentable
      && exists e :: e in st.rows && e.Event? && e.names.key == key && e.requestSha != requestSha
    case Rejected(ReplayDetected) => after == st && presentable && !KeyUsed(st.rows, key) && named && IdUsed(st.rows, id)
    case Rejected(InvalidEvent) =>
      after == st && (!presentable || (!KeyUsed(st.rows, key) && (!named || (!IdUsed(st.rows, id) && !hashable))))
  }

  lemma PreviousIsLast(rows: seq<Row>)
    ensures PreviousHash(rows) == if rows != [] && rows[|rows| - 1].Event? then Some(rows[|rows| - 1].eventHash) else None
  {
  }

  /** The draft of a new row has its digest exactly when its fields are clean, and sealed it is the row described. */
  lemma SealedIsNew(env: Env, st: State, r: Request, reserved: bool, id: Text, stamp: Text)
    requires ClockOk(env) && Consistent(env, st) && Presentable(env, r, reserved) && NormalizeText(id, 128) == Some(id)
    requires env.timestamp(r.occurredAt) == Some(stamp)
    ensures Prepare(env, r, reserved).Some?
    ensures var p := Prepare(env, r, reserved).value; var draft := NewEvent(p, st.rows, id, stamp);
      && p.names == StrippedNames(r.names)
      && (EventDigest(env, draft).Some? <==> Clean(id) && CleanNames(p.names))
      && (EventDigest(env, draft).Some? ==>
            Sealed(env, draft) == NewRow(env, st.rows, p.names, r.payload, PayloadText(env, r.payload, r.payloadText).value, id, stamp))
  {
    PreparedExactly(env, r, reserved);
    StrippedNormal(r.names);
    ConsistentLinked(env, st);
    Restored.HeadIsHash(env, st.rows);
    PreviousIsLast(st.rows);
    Cold.StampEncodable(env, r.occurredAt);
    var p := Prepare(env, r, reserved).value;
    var draft := NewEvent(p, st.rows, id, stamp);
    hide Consistent, Prepare, Presentable, NormalizeNames, NormalizeText, StrippedNames, PayloadText, PreviousHash, EventDigest, ClockOk,
      Clean, CleanNames, EventLine, RequestText, Ascii, IsHash, Encodable;
    EventDigestExactly(env, draft);
  }

  lemma RequestAnswered(env: Env, st: State, r: Request, reserved: bool, uuid: Uuid)
    requires ClockOk(env) && Consistent(env, st) && IndexInRange(st) && Presentable(env, r, reserved)
    ensures Prepare(env, r, reserved).Some?
    ensures var (after, o) := Commit(env, st, Prepare(env, r, reserved).value, r.eventId, uuid, r.occurredAt);
      Answers(env, st, r, reserved, uuid, after, o)
  {
    PreparedExactly(env, r, reserved);
    UsedExactly(env, st);
    hide Consistent, Prepare, Presentable, Commit, ClockOk, Answers, RequestText, StrippedNames, PayloadText, KeyUsed, IdUsed;
    if Strip(r.names.key) in st.index {
      OldKeyAnswers(env, st, r, reserved, uuid);
    } else {
      NewKeyAnswers(env, st, r, reserved, uuid);
    }
  }

  lemma Presents(env: Env, r: Request, reserved: bool)
    requires Presentable(env, r, reserved)
    ensures var text := OrEmpty(PayloadText(env, r.payload, r.payloadText));
      Prepare(env, r, reserved) == Some(Prepared(StrippedNames(r.names), r.payload, text, env.sha(text), RequestSha(env, r)))
  {
    PreparedExactly(env, r, reserved);
  }

  lemma OldKeyAnswers(env: Env, st: State, r: Request, reserved: bool, uuid: Uuid)
    requires Consistent(env, st) && IndexInRange(st) && Presentable(env, r, reserved) && Strip(r.names.key) in st.index
    ensures Prepare(env, r, reserved).Some?
    ensures var (after, o) := Commit(env, st, Prepare(env, r, reserved).value, r.eventId, uuid, r.occurredAt);
      Answers(env, st, r, reserved, uuid, after, o)
  {
    Presents(env, r, reserved);
    var p := Prepare(env, r, reserved).value;
    KeyAnswered(env, st, p, r.eventId, uuid, r.occurredAt);
    var (after, o) := Commit(env, st, p, r.eventId, uuid, r.occurredAt);
    OldKeyConcludes(st, p.names.key, RequestId(r, uuid), r.eventId.Some? ==> Within(r.eventId.value, 128), Hashable(env, r, uuid),
      p.requestSha, RequestRow(env, st.rows, r, uuid), after, o);
    hide Consistent, Prepare, Presentable, Commit, RequestSha, PayloadText, KeyUsed, IdUsed, Hashable, RequestRow, Within, RequestId,
      AnswersWith, Strip, IndexInRange;
  }

  lemma OldKeyConcludes(
      st: State, key: Text, id: Text, named: bool, hashable: bool, requestSha: Text, row: Row, after: State, o: Outcome)
    requires after == st
    requires exists e ::
      e in st.rows && e.Event? && e.names.key == key
      && o == (if e.requestSha == requestSha then AlreadyRecorded(e) else Rejected(IdempotencyConflict))
    ensures AnswersWith(st, key, id, true, named, hashable, requestSha, row, after, o)
  {
  }

  lemma NewKeyAnswers(env: Env, st: State, r: Request, reserved: bool, uuid: Uuid)
    requires ClockOk(env) && Consistent(env, st) && IndexInRange(st) && Presentable(env, r, reserved)
    requires Strip(r.names.key) !in st.index
    ensures Prepare(env, r, reserved).Some?
    ensures var (after, o) := Commit(env, st, Prepare(env, r, reserved).value, r.eventId, uuid, r.occurredAt);
      Answers(env, st, r, reserved, uuid, after, o)
  {
    Presents(env, r, reserved);
    NewKeyStep(env, st, r, reserved, uuid);
    UsedExactly(env, st);
    ChosenExactly(r.eventId, uuid);
    var p := Prepare(env, r, reserved).value;
    var (after, o) := Commit(env, st, p, r.eventId, uuid, r.occurredAt);
    hide Consistent, Prepare, Presentable, Commit, ClockOk, RequestSha, PayloadText, KeyUsed, IdUsed, IndexInRange, Hashable, RequestRow,
      Strip, Within, ChosenId, AnswersWith;
    NewKeyConcludes(st, p.names.key, ChosenId(r.eventId, uuid), RequestId(r, uuid), Hashable(env, r, uuid), p.requestSha,
      RequestRow(env, st.rows, r, uuid), after, o);
  }

  lemma NewKeyStep(env: Env, st: State, r: Request, reserved: bool, uuid: Uuid)
    requires ClockOk(env) && Consistent(env, st) && IndexInRange(st) && Presentable(env, r, reserved)
    requires Strip(r.names.key) !in st.index
    ensures Prepare(env, r, reserved).Some?
    ensures var p := Prepare(env, r, reserved).value;
      var (after, o) := Commit(env, st, p, r.eventId, uuid, r.occurredAt); var id := ChosenId(r.eventId, uuid);
      if id.None? then after == st && o == Rejected(InvalidEvent)
      else if id.value in st.ids then after == st && o == Rejected(ReplayDetected)
      else if !Hashable(env, r, uuid) then after == st && o == Rejected(InvalidEvent)
      else
        var e := RequestRow(env, st.rows, r, uuid);
        o == Appended(e) && after == State(st.rows + [e], st.index[p.names.key := (p.requestSha, |st.rows| + 1)], st.ids + {id.value})
  {
    hide Consistent, Prepare, Presentable, Commit, EventDigest, ClockOk, RequestSha, PayloadText, NewEvent, Sealed, IndexInRange,
      RequestRow, Strip, Within, ChosenId, StrippedNames, Clean, CleanNames, RequestId;
    Presents(env, r, reserved);
    KeyStripped(r.names);
    var p := Prepare(env, r, reserved).value;
    NewKeyAnswered(env, st, p, r.eventId, uuid, r.occurredAt);
    if env.timestamp(r.occurredAt).Some? && ChosenId(r.eventId, uuid).Some? { NewRowOf(env, st, r, reserved, uuid); }
  }

  lemma KeyStripped(n: Names)
    ensures StrippedNames(n).key == Strip(n.key)
  {
  }

  lemma NewKeyConcludes(
      st: State, key: Text, chosen: Option<Text>, id: Text, hashable: bool, requestSha: Text, row: Row, after: State, o: Outcome)
    requires !KeyUsed(st.rows, key) && (chosen.Some? ==> chosen.value == id && (IdUsed(st.rows, id) <==> id in st.ids))
    requires if chosen.None? then after == st && o == Rejected(InvalidEvent)
      else if id in st.ids then after == st && o == Rejected(ReplayDetected)
      else if !hashable then after == st && o == Rejected(InvalidEvent)
      else
        o == Appended(row) && after == State(st.rows + [row], st.index[key := (requestSha, |st.rows| + 1)], st.ids + {id})
    ensures AnswersWith(st, key, id, true, chosen.Some?, hashable, requestSha, row, after, o)
  {
    hide KeyUsed, IdUsed;
  }

  /** The draft has a digest exactly when the request can be hashed, and sealed it is the row described. */
  lemma NewRowOf(env: Env, st: State, r: Request, reserved: bool, uuid: Uuid)
    requires ClockOk(env) && Consistent(env, st) && Presentable(env, r, reserved) && ChosenId(r.eventId, uuid).Some?
    requires env.timestamp(r.occurredAt).Some?
    ensures Prepare(env, r, reserved).Some?
    ensures var draft := NewEvent(Prepare(env, r, reserved).value, st.rows, ChosenId(r.eventId, uuid).value, env.timestamp(r.occurredAt).value);
      && (EventDigest(env, draft).Some? <==> Hashable(env, r, uuid))
      && (EventDigest(env, draft).Some? ==>
            Sealed(env, draft) == RequestRow(env, st.rows, r, uuid) && RequestRow(env, st.rows, r, uuid).sequence == |st.rows| + 1)
  {
    ChosenExactly(r.eventId, uuid);
    ChosenIdNormalized(r.eventId, uuid);
    SealedIsNew(env, st, r, reserved, RequestId(r, uuid), env.timestamp(r.occurredAt).value);
    Presents(env, r, reserved);
    hide Consistent, Prepare, Presentable, EventDigest, ClockOk, Clean, CleanNames, EventLine, RequestText, StrippedNames, NewEvent, Sealed,
      Strip, Within;
  }

  lemma ChosenExactly(eventId: Option<Text>, uuid: Uuid)
    ensures ChosenId(eventId, uuid) ==
      if eventId.None? then Some(uuid) else if Within(eventId.value, 128) then Some(Strip(eventId.value)) else None
  {
  }

  /** A used key is answered from its row. */
  lemma KeyAnswered(env: Env, st: State, p: Prepared, eventId: Option<Text>, uuid: Uuid, at: Text)
    requires Consistent(env, st) && IndexInRange(st) && p.names.key in st.index
    ensures var (after, o) := Commit(env, st, p, eventId, uuid, at);
      after == st
      && exists e :: e in st.rows && e.Event? && e.names.key == p.names.key
           && o == if e.requestSha == p.requestSha then AlreadyRecorded(e) else Rejected(IdempotencyConflict)
  {
    UsedExactly(env, st);
    hide Consistent, IndexOf;
    var i := UsedBy(st.rows, p.names.key);
    IndexedAnswer(env, st, p, eventId, uuid, at, i);
  }

  lemma IndexedAnswer(env: Env, st: State, p: Prepared, eventId: Option<Text>, uuid: Uuid, at: Text, i: nat)
    requires IndexInRange(st) && i < |st.rows| && st.rows[i].Event? && st.rows[i].names.key == p.names.key
    requires p.names.key in st.index
    requires st.index[p.names.key] == (st.rows[i].requestSha, i + 1)
    ensures var (after, o) := Commit(env, st, p, eventId, uuid, at);
      after == st && st.rows[i] in st.rows
      && o == if st.rows[i].requestSha == p.requestSha then AlreadyRecorded(st.rows[i]) else Rejected(IdempotencyConflict)
  {
    hide EventDigest, NormalizeText;
  }

  lemma NewKeyAnswered(env: Env, st: State, p: Prepared, eventId: Option<Text>, uuid: Uuid, at: Text)
    requires IndexInRange(st) && p.names.key !in st.index
    ensures var (after, o) := Commit(env, st, p, eventId, uuid, at);
      var id := ChosenId(eventId, uuid); var stamp := env.timestamp(at);
      if id.None? then after == st && o == Rejected(InvalidEvent)
      else if id.value in st.ids then after == st && o == Rejected(ReplayDetected)
      else if stamp.None? || EventDigest(env, NewEvent(p, st.rows, id.value, stamp.value)).None? then
        after == st && o == Rejected(InvalidEvent)
      else
        var e := Sealed(env, NewEvent(p, st.rows, id.value, stamp.value));
        o == Appended(e) && after == State(st.rows + [e], st.index[p.names.key := (p.requestSha, e.sequence)], st.ids + {id.value})
  {
    hide EventDigest, NormalizeText;
  }

  /** Every answer of `append`, in any state a run can reach. */
  lemma AppendOutcome(env: Env, st: State, r: Request, uuid: Uuid)
    requires ClockOk(env) && Consistent(env, st) && IndexInRange(st)
    ensures var (after, o) := Append(env, st, r, uuid); Answers(env, st, r, false, uuid, after, o)
  {
    PreparedExactly(env, r, false);
    hide Consistent, Prepare, Commit, ClockOk;
    if Presentable(env, r, false) { RequestAnswered(env, st, r, false, uuid); }
  }

  // ------------------------------------------------------------------ corrections

  /** The payload of a correction: reason, replacement and target, under their keys. */
  function CorrectionPayload(target: Text, reason: Text, replacement: JsonDoc): (d: JsonDoc)
    ensures d.Obj?
  {
    DistinctCorrectionKeys(target, reason, replacement);
    Obj([Member(Ascii("reason"), Str(reason)), Member(Ascii("replacement_payload"), replacement),
         Member(Ascii("target_event_id"), Str(target))])
  }

  lemma DistinctCorrectionKeys(target: Text, reason: Text, replacement: JsonDoc)
    ensures ValidDoc(Obj([Member(Ascii("reason"), Str(reason)), Member(Ascii("replacement_payload"), replacement),
      Member(Ascii("target_event_id"), Str(target))]))
  {
    var ms := [Member(Ascii("reason"), Str(reason)), Member(Ascii("replacement_payload"), replacement),
      Member(Ascii("target_event_id"), Str(target))];
    assert |ms[0].key| == 6 && |ms[1].key| == 19 && |ms[2].key| == 15;
    hide Ascii;
  }

  /** The request a correction of a row with these names makes. */
  function CorrectionOf(n: Names, c: Correction): Request {
    Request(Names(Ascii("dail.correction.v1"), n.entityType, n.entityId, n.entityVersion, c.actorDid, c.actorRef, c.key),
      CorrectionPayload(Strip(c.target), Strip(c.reason), c.replacement), c.payloadText, c.eventId, c.occurredAt)
  }

  lemma CorrectionRequestExactly(st: State, c: Correction)
    ensures CorrectionRequest(st, c).Some? <==>
      Within(c.target, 128) && Within(c.reason, 2048) && (c.actorDid.Some? || c.actorRef.Some?) && IdUsed(st.rows, Strip(c.target))
    ensures CorrectionRequest(st, c).Some? ==>
      exists i ::
        && 0 <= i < |st.rows| && st.rows[i].Event? && st.rows[i].eventId == Strip(c.target)
        && CorrectionRequest(st, c) == Some(CorrectionOf(st.rows[i].names, c))
  {
    FindEventFinds(st.rows, Strip(c.target));
    IdsExactly(st.rows);
    hide Strip, IdUsed, IdsOf, FindEvent;
    if CorrectionRequest(st, c).Some? {
      var i := FindEvent(st.rows, Strip(c.target)).value;
      SamePayload(Strip(c.target), Strip(c.reason), c.replacement);
      hide CorrectionMembers, CorrectionPayload;
      assert CorrectionRequest(st, c) == Some(CorrectionOf(st.rows[i].names, c));
    }
  }

  lemma SamePayload(target: Text, reason: Text, replacement: JsonDoc)
    ensures Obj(CorrectionMembers(target, reason, replacement)) == CorrectionPayload(target, reason, replacement)
  {
  }

  /** Every answer of `append_correction`, in any state a run can reach: without a target on record, a reason and an
      actor it is invalid; otherwise it is the answer to the request made of the target's entity and the three fields. */
  lemma CorrectionOutcome(env: Env, st: State, c: Correction, uuid: Uuid)
    requires ClockOk(env) && Consistent(env, st) && IndexInRange(st)
    ensures var (after, o) := AppendCorrection(env, st, c, uuid);
      if Within(c.target, 128) && Within(c.reason, 2048) && (c.actorDid.Some? || c.actorRef.Some?) && IdUsed(st.rows, Strip(c.target))
      then
        exists i ::
          && 0 <= i < |st.rows| && st.rows[i].Event? && st.rows[i].eventId == Strip(c.target)
          && Answers(env, st, CorrectionOf(st.rows[i].names, c), true, uuid, after, o)
      else after == st && o == Rejected(InvalidEvent)
  {
    CorrectionRequestExactly(st, c);
    hide Within, Strip, IdUsed, CorrectionRequest, Consistent, ClockOk, Answers;
    if CorrectionRequest(st, c).Some? {
      var i :| 0 <= i < |st.rows| && st.rows[i].Event? && st.rows[i].eventId == Strip(c.target)
        && CorrectionRequest(st, c) == Some(CorrectionOf(st.rows[i].names, c));
      CorrectionAnswered(env, st, c, uuid, CorrectionOf(st.rows[i].names, c));
    }
  }

  lemma CorrectionAnswered(env: Env, st: State, c: Correction, uuid: Uuid, r: Request)
    requires ClockOk(env) && Consistent(env, st) && IndexInRange(st) && CorrectionRequest(st, c) == Some(r)
    requires r.eventId == c.eventId && r.occurredAt == c.occurredAt
    ensures var (after, o) := AppendCorrection(env, st, c, uuid); Answers(env, st, r, true, uuid, after, o)
  {
    PreparedExactly(env, r, true);
    hide Prepare, Commit, Consistent, ClockOk, CorrectionRequest;
    if Presentable(env, r, true) { RequestAnswered(env, st, r, true, uuid); }
  }

  /** The row a correction leaves: under the three keys its payload holds the stripped target and reason and exactly the
      replacement given; its entity is the target row's; its actors and key are those given, stripped. */
  lemma CorrectionRow(env: Env, st: State, c: Correction, uuid: Uuid)
    requires ClockOk(env) && Consistent(env, st) && IndexInRange(st) && AppendCorrection(env, st, c, uuid).1.Appended?
    ensures var e := AppendCorrection(env, st, c, uuid).1.row;
      && e.Event? && e.payload.Obj? && |e.payload.members| == 3
      && Lookup(e.payload.members, Ascii("target_event_id")) == Some(Str(Strip(c.target)))
      && Lookup(e.payload.members, Ascii("reason")) == Some(Str(Strip(c.reason)))
      && Lookup(e.payload.members, Ascii("replacement_payload")) == Some(c.replacement)
      && e.names.eventType == Ascii("dail.correction.v1") && e.names.key == Strip(c.key)
      && e.names.actorDid == Stripped(c.actorDid) && e.names.actorRef == Stripped(c.actorRef)
      && exists i ::
           && 0 <= i < |st.rows| && st.rows[i].Event? && st.rows[i].eventId == Strip(c.target)
           && e.names.entityType == Strip(st.rows[i].names.entityType) && e.names.entityId == Strip(st.rows[i].names.entityId)
           && e.names.entityVersion == Stripped(st.rows[i].names.entityVersion)
  {
    CorrectionOutcome(env, st, c, uuid);
    CorrectionTypeNormal();
    PayloadLookups(Strip(c.target), Strip(c.reason), c.replacement);
    hide Consistent, ClockOk, AppendCorrection, IndexInRange, Within, Strip, IdUsed, KeyUsed, Lookup, CorrectionPayload, Presentable,
      Hashable, RequestSha, RequestId, EventLine, RequestText, PayloadText;
    var i :| 0 <= i < |st.rows| && st.rows[i].Event? && st.rows[i].eventId == Strip(c.target)
      && Answers(env, st, CorrectionOf(st.rows[i].names, c), true, uuid, AppendCorrection(env, st, c, uuid).0,
           AppendCorrection(env, st, c, uuid).1);
    AnsweredRow(env, st, CorrectionOf(st.rows[i].names, c), true, uuid, AppendCorrection(env, st, c, uuid).0,
      AppendCorrection(env, st, c, uuid).1);
  }

  lemma AnsweredRow(env: Env, st: State, r: Request, reserved: bool, uuid: Uuid, after: State, o: Outcome)
    requires Answers(env, st, r, reserved, uuid, after, o) && o.Appended?
    ensures o.row.Event? && o.row.names == StrippedNames(r.names) && o.row.payload == r.payload
  {
    hide KeyUsed, IdUsed, Presentable, Hashable, RequestSha, RequestId, EventLine, RequestText, PayloadText, StrippedNames;
  }

  lemma PayloadLookups(target: Text, reason: Text, replacement: JsonDoc)
    ensures var ms := CorrectionPayload(target, reason, replacement).members;
      && |ms| == 3 && Lookup(ms, Ascii("target_event_id")) == Some(Str(target)) && Lookup(ms, Ascii("reason")) == Some(Str(reason))
      && Lookup(ms, Ascii("replacement_payload")) == Some(replacement)
  {
    assert |Ascii("reason")| == 6 && |Ascii("replacement_payload")| == 19 && |Ascii("target_event_id")| == 15;
    var ms := CorrectionPayload(target, reason, replacement).members;
    hide Ascii;
    assert ms[1..][0] == ms[1] && ms[1..][1..][0] == ms[2];
    assert Lookup(ms, Ascii("replacement_payload")) == Lookup(ms[1..], Ascii("replacement_payload"));
    assert Lookup(ms, Ascii("target_event_id")) == Lookup(ms[1..], Ascii("target_event_id"))
      == Lookup(ms[1..][1..], Ascii("target_event_id"));
  }

  // ------------------------------------------------------------------ retries

  function TextOf(env: Env, r: Request): Text {
    OrEmpty(PayloadText(env, r.payload, r.payloadText))
  }

  /** A recorded key is answered for ever: the same names and the same payload digest get the row first recorded, and
      any other name or payload digest is a conflict, unless two request texts collide. */
  lemma RetryExactly(env: Env, st: State, r: Request, uuid: Uuid, calls: seq<Command>, again: Request, uuid': Uuid)
    requires ClockOk(env) && Consistent(env, st) && IndexInRange(st) && Append(env, st, r, uuid).1.Appended?
    requires Presentable(env, again, false) && Strip(again.names.key) == Strip(r.names.key)
    requires RequestSha(env, r) == RequestSha(env, again) ==>
      RequestText(StrippedNames(r.names), env.sha(TextOf(env, r))) == RequestText(StrippedNames(again.names), env.sha(TextOf(env, again)))
    ensures IndexInRange(Append(env, st, r, uuid).0)
    ensures var (st1, o) := Append(env, st, r, uuid); var later := Run(env, st1, calls);
      var same := SameNames(StrippedNames(r.names), StrippedNames(again.names)) && env.sha(TextOf(env, r)) == env.sha(TextOf(env, again));
      IndexInRange(later)
      && Append(env, later, again, uuid') == (later, if same then AlreadyRecorded(o.row) else Rejected(IdempotencyConflict))
  {
    AppendOutcome(env, st, r, uuid);
    Presents(env, again, false);
    AppendedRequest(env, st, r, false, uuid, Append(env, st, r, uuid).0, Append(env, st, r, uuid).1);
    hide Consistent, ClockOk, Prepare, Presentable, RequestSha, PayloadText, Append, Run, Answers, SameNames, StrippedNames, Strip,
      IndexInRange;
    RetryFindsOriginal(env, st, r, uuid, calls, again, uuid');
    SameSha(env, r, again);
  }

  lemma AppendedRequest(env: Env, st: State, r: Request, reserved: bool, uuid: Uuid, after: State, o: Outcome)
    requires Answers(env, st, r, reserved, uuid, after, o) && o.Appended?
    ensures Presentable(env, r, reserved) && o.row.Event? && o.row.names.key == Strip(r.names.key) && o.row.requestSha == RequestSha(env, r)
  {
    hide KeyUsed, IdUsed, Presentable, Hashable, RequestId, EventLine, RequestText, PayloadText;
  }

  lemma SameSha(env: Env, r: Request, again: Request)
    requires RequestSha(env, r) == RequestSha(env, again) ==>
      RequestText(StrippedNames(r.names), env.sha(TextOf(env, r))) == RequestText(StrippedNames(again.names), env.sha(TextOf(env, again)))
    ensures RequestSha(env, r) == RequestSha(env, again) <==>
      SameNames(StrippedNames(r.names), StrippedNames(again.names)) && env.sha(TextOf(env, r)) == env.sha(TextOf(env, again))
  {
    var n, m := StrippedNames(r.names), StrippedNames(again.names);
    var a, b := env.sha(TextOf(env, r)), env.sha(TextOf(env, again));
    hide RequestText, StrippedNames, PayloadText;
    if a == b && SameNames(n, m) { SameText(n, m, a); }
    if RequestText(n, a) == RequestText(m, b) { RequestTextBinds(n, m, a, b); }
  }

  /** Another payload under a recorded key is never taken for a retry, unless two of the texts collide. */
  lemma OtherPayloadConflicts(env: Env, st: State, r: Request, uuid: Uuid, calls: seq<Command>, again: Request, uuid': Uuid)
    requires ClockOk(env) && Consistent(env, st) && IndexInRange(st) && Append(env, st, r, uuid).1.Appended?
    requires Presentable(env, again, false) && Strip(again.names.key) == Strip(r.names.key)
    requires RequestSha(env, r) == RequestSha(env, again) ==>
      RequestText(StrippedNames(r.names), env.sha(TextOf(env, r))) == RequestText(StrippedNames(again.names), env.sha(TextOf(env, again)))
    requires env.sha(TextOf(env, r)) == env.sha(TextOf(env, again)) ==> TextOf(env, r) == TextOf(env, again)
    requires Meaning(r.payload) != Meaning(again.payload)
    ensures IndexInRange(Append(env, st, r, uuid).0) && IndexInRange(Run(env, Append(env, st, r, uuid).0, calls))
    ensures Append(env, Run(env, Append(env, st, r, uuid).0, calls), again, uuid').1 == Rejected(IdempotencyConflict)
  {
    AppendOutcome(env, st, r, uuid);
    AppendedRequest(env, st, r, false, uuid, Append(env, st, r, uuid).0, Append(env, st, r, uuid).1);
    DifferentTexts(env, r, again);
    hide Consistent, ClockOk, Presentable, RequestSha, Append, Run, Answers, SameNames, StrippedNames, Strip, TextOf, Meaning, RequestText,
      IndexInRange;
    RetryExactly(env, st, r, uuid, calls, again, uuid');
  }

  lemma DifferentTexts(env: Env, r: Request, again: Request)
    requires Presentable(env, r, false) && Presentable(env, again, false) && Meaning(r.payload) != Meaning(again.payload)
    ensures TextOf(env, r) != TextOf(env, again)
  {
    hide Meaning, NamesWithin, NamesEncodable, StrippedNames, Strip, Encodable, PayloadText;
  }

  // ------------------------------------------------------------------ stored names are stripped

  ghost predicate NamesStripped(rows: seq<Row>) {
    forall i :: 0 <= i < |rows| ==> rows[i].Event? && rows[i].names == StrippedNames(rows[i].names)
  }

  lemma StrippedTwice(n: Names)
    ensures StrippedNames(StrippedNames(n)) == StrippedNames(n)
  {
    StripTrims(n.eventType);
    StripTrims(n.entityType);
    StripTrims(n.entityId);
    StripTrims(n.key);
    if n.entityVersion.Some? { StripTrims(n.entityVersion.value); }
    if n.actorDid.Some? { StripTrims(n.actorDid.value); }
    if n.actorRef.Some? { StripTrims(n.actorRef.value); }
  }

  /** In every ledger reached from the empty one the names of every row are stripped, so a correction carries
      exactly the entity of its target. */
  lemma {:induction false} RunNamesStripped(env: Env, st: State, calls: seq<Command>)
    requires ClockOk(env) && Consistent(env, st) && IndexInRange(st) && NamesStripped(st.rows)
    ensures NamesStripped(Run(env, st, calls).rows)
    decreases |calls|
  {
    hide Consistent, Step, StrippedNames, ClockOk, IndexInRange;
    if calls != [] {
      StepNamesStripped(env, st, calls[0]);
      StepKeeps(env, st, calls[0]);
      var next := Step(env, st, calls[0]).0;
      IndexStaysInRange(env, next);
      RunNamesStripped(env, next, calls[1..]);
    }
  }

  lemma StepNamesStripped(env: Env, st: State, c: Command)
    requires ClockOk(env) && Consistent(env, st) && IndexInRange(st) && NamesStripped(st.rows)
    ensures NamesStripped(Step(env, st, c).0.rows)
  {
    hide Consistent, ClockOk, IndexInRange, NamesStripped, Answers, Append, AppendCorrection, Within, Strip, IdUsed;
    match c
    case AppendCall(r, uuid) =>
      AppendOutcome(env, st, r, uuid);
      AnswerNamesStripped(env, st, r, false, uuid, Append(env, st, r, uuid).0, Append(env, st, r, uuid).1);
    case CorrectCall(k, uuid) =>
      CorrectionOutcome(env, st, k, uuid);
      var (after, o) := AppendCorrection(env, st, k, uuid);
      if i :| 0 <= i < |st.rows| && st.rows[i].Event? && st.rows[i].eventId == Strip(k.target)
              && Answers(env, st, CorrectionOf(st.rows[i].names, k), true, uuid, after, o) {
        AnswerNamesStripped(env, st, CorrectionOf(st.rows[i].names, k), true, uuid, after, o);
      }
  }

  lemma AnswerNamesStripped(env: Env, st: State, r: Request, reserved: bool, uuid: Uuid, after: State, o: Outcome)
    requires Answers(env, st, r, reserved, uuid, after, o) && NamesStripped(st.rows)
    ensures NamesStripped(after.rows)
  {
    StrippedTwice(r.names);
    hide KeyUsed, IdUsed, Presentable, Hashable, RequestSha, RequestId, EventLine, RequestText, PayloadText, StrippedNames;
  }
}
