/**
 Whole runs of the ledger: every state reached by appends and corrections is linked row by
 row and fully indexed, passes `verify` exactly when each correction replaces with an
 object, only ever grows, and answers a retry with the row first recorded.
 */
module LedgerRuns {
  import opened Prelude
  import opened Json
  import opened CanonicalForm
  import opened PythonText
  import opened LedgerModel

  /** A row as the writer stores it: its event id and idempotency key are already normalised. */
  predicate Stored(e: Row) {
    e.Event? && NormalizeText(e.eventId, 128) == Some(e.eventId) && NormalizeText(e.names.key, 256) == Some(e.names.key)
  }

  ghost predicate Consistent(env: Env, st: State) {
    && AllLinked(env, st.rows)
    && (forall i :: 0 <= i < |st.rows| ==> Stored(st.rows[i]))
    && st.index == IndexOf(st.rows)
    && st.ids == IdsOf(st.rows)
  }

  // ------------------------------------------------------------------ the indexes

  lemma StoredSeen(rows: seq<Row>)
    requires forall i :: 0 <= i < |rows| ==> Stored(rows[i])
    ensures SeenIds(rows) == IdsOf(rows)
    ensures forall i :: 0 <= i < |rows| ==> rows[i].Event? && rows[i].names.key in SeenKeys(rows)
    ensures forall k :: k in SeenKeys(rows) <==> exists i :: 0 <= i < |rows| && rows[i].Event? && rows[i].names.key == k
  {
    forall i | 0 <= i < |rows|
      ensures rows[i].Event? && IdOf(rows[i]) == Some(rows[i].eventId) && KeyOf(rows[i]) == Some(rows[i].names.key)
    {
      StoredIds(rows[i]);
    }
    hide Stored, IdOf, KeyOf, NormalizeText, NormalizeNames;
    assert forall k :: k in SeenIds(rows) ==> k in IdsOf(rows);
    forall k | k in IdsOf(rows) ensures k in SeenIds(rows) {
      var i :| 0 <= i < |rows| && rows[i].Event? && rows[i].eventId == k;
      assert IdOf(rows[i]).Some? && IdOf(rows[i]).value == k;
    }
    forall k | exists i :: 0 <= i < |rows| && rows[i].Event? && rows[i].names.key == k ensures k in SeenKeys(rows) {
      var i :| 0 <= i < |rows| && rows[i].Event? && rows[i].names.key == k;
      assert KeyOf(rows[i]).Some? && KeyOf(rows[i]).value == k;
    }
  }

  lemma StoredIds(e: Row)
    requires Stored(e)
    ensures e.Event? && IdOf(e) == Some(e.eventId) && KeyOf(e) == Some(e.names.key)
  {
    hide NormalizeText;
  }

  lemma SnocPrefix(rows: seq<Row>, e: Row)
    ensures (rows + [e])[..|rows|] == rows
    ensures forall i :: 0 <= i <= |rows| ==> (rows + [e])[..i] == rows[..i]
  {
  }

  lemma SnocIds(rows: seq<Row>, e: Row)
    requires e.Event?
    ensures IdsOf(rows + [e]) == IdsOf(rows) + {e.eventId}
  {
    var r := rows + [e];
    assert r[|rows|] == e;
    forall x | x in IdsOf(rows) ensures x in IdsOf(r) {
      var i :| 0 <= i < |rows| && rows[i].Event? && rows[i].eventId == x;
      assert r[i] == rows[i];
    }
  }

  ghost predicate Keyed(rows: seq<Row>) {
    && (forall i :: 0 <= i < |rows| ==> rows[i].Event? && rows[i].sequence == i + 1)
    && (forall i, j :: 0 <= i < j < |rows| ==> rows[i].names.key != rows[j].names.key)
  }

  lemma LinkedKey(env: Env, earlier: seq<Row>, e: Row)
    requires Linked(env, earlier, e) && Stored(e)
    ensures e.sequence == |earlier| + 1 && e.names.key !in SeenKeys(earlier)
  {
    StoredKey(e);
    hide SoundAlone, CorrectionShape, Stored, KeyOf, IdOf, SeenKeys, SeenIds, IsCorrection;
  }

  lemma StoredKey(e: Row)
    requires Stored(e)
    ensures e.Event? && KeyOf(e) == Some(e.names.key) && IdOf(e) == Some(e.eventId)
  {
  }

  lemma LinkedKeyed(env: Env, rows: seq<Row>)
    requires AllLinked(env, rows) && forall i :: 0 <= i < |rows| ==> Stored(rows[i])
    ensures Keyed(rows)
  {
    hide Linked, Stored, SeenKeys;
    forall j | 0 <= j < |rows|
      ensures rows[j].Event? && rows[j].sequence == j + 1
      ensures forall i :: 0 <= i < j ==> rows[i].Event? && rows[i].names.key != rows[j].names.key
    {
      var earlier := rows[..j];
      assert forall i :: 0 <= i < j ==> earlier[i] == rows[i];
      assert Linked(env, rows[..j], rows[j]);
      StoredKey(rows[j]);
      LinkedKey(env, earlier, rows[j]);
      StoredSeen(earlier);
    }
  }

  /** Every row is what its key is bound to. */
  lemma {:induction false} RowsAreIndexed(rows: seq<Row>)
    requires Keyed(rows)
    ensures forall i :: 0 <= i < |rows| ==>
      rows[i].names.key in IndexOf(rows) && IndexOf(rows)[rows[i].names.key] == (rows[i].requestSha, i + 1)
  {
    if rows != [] {
      var n := |rows| - 1;
      var init := rows[..n];
      assert forall i :: 0 <= i < n ==> init[i] == rows[i];
      RowsAreIndexed(init);
      forall i | 0 <= i < n ensures IndexOf(rows)[rows[i].names.key] == (rows[i].requestSha, i + 1) {
        assert init[i].names.key in IndexOf(init);
      }
    }
  }

  /** Every key of the index is some row's. */
  lemma {:induction false} IndexHoldsRows(rows: seq<Row>, k: Text)
    requires (forall i :: 0 <= i < |rows| ==> rows[i].Event?) && k in IndexOf(rows)
    ensures exists i :: 0 <= i < |rows| && rows[i].names.key == k
  {
    var n := |rows| - 1;
    if k != rows[n].names.key {
      IndexHoldsRows(rows[..n], k);
      var i :| 0 <= i < n && rows[..n][i].names.key == k;
      assert rows[i].names.key == k;
    }
  }

  /** The index answers every key as a linear search of the rows would. */
  lemma {:induction false} IndexIsLinearSearch(rows: seq<Row>)
    requires Keyed(rows)
    ensures forall i :: 0 <= i < |rows| ==>
      rows[i].names.key in IndexOf(rows) && IndexOf(rows)[rows[i].names.key] == (rows[i].requestSha, i + 1)
    ensures forall k :: k in IndexOf(rows) ==> exists i :: 0 <= i < |rows| && rows[i].names.key == k
  {
    RowsAreIndexed(rows);
    forall k | k in IndexOf(rows) ensures exists i :: 0 <= i < |rows| && rows[i].names.key == k {
      IndexHoldsRows(rows, k);
    }
  }

  lemma IndexStaysInRange(env: Env, st: State)
    requires Consistent(env, st)
    ensures IndexInRange(st)
  {
    LinkedKeyed(env, st.rows);
    IndexIsLinearSearch(st.rows);
    forall k | k in st.index ensures 1 <= st.index[k].1 <= |st.rows| {
      var i :| 0 <= i < |st.rows| && st.rows[i].names.key == k;
    }
  }

  // ------------------------------------------------------------------ one step

  ghost predicate PreparedGood(env: Env, p: Prepared, st: State) {
    && NormalizeNames(p.names) == Some(p.names)
    && p.payload.Obj?
    && env.parse(p.payloadText).Some?
    && CanonicalText(Python, env.parse(p.payloadText).value) == CanonicalText(Python, p.payload)
    && Sha256(env, p.payloadText) == Some(p.payloadSha)
    && RequestDigest(env, p.names, p.payloadSha) == Some(p.requestSha)
    && (p.names.eventType == CORRECTION_TYPE ==> CorrectionShape(p.payload, IdsOf(st.rows)))
  }

  lemma UuidNormalized(u: Uuid)
    ensures NormalizeText(u, 128) == Some(u)
  {
    assert Trimmed(u);
  }

  lemma NormalNames(n: Names)
    requires NormalizeNames(n) == Some(n)
    ensures NormalizeText(n.key, 256) == Some(n.key) && NormalizeText(n.eventType, 128) == Some(n.eventType)
  {
    hide NormalizeText;
  }

  lemma NewEventSound(env: Env, p: Prepared, st: State, id: Text, occurredAt: Text)
    requires ClockOk(env) && PreparedGood(env, p, st) && NormalizeText(id, 128) == Some(id)
    requires env.timestamp(occurredAt).Some?
    requires EventDigest(env, NewEvent(p, st.rows, id, env.timestamp(occurredAt).value)).Some?
    ensures var draft := NewEvent(p, st.rows, id, env.timestamp(occurredAt).value);
      var e := draft.(eventHash := EventDigest(env, draft).value);
      SoundAlone(env, e) && Stored(e)
  {
    NormalNames(p.names);
    StampIsCanonical(env, occurredAt);
    hide CanonicalText, RequestDigest, NormalizeNames, NormalizeText, Sha256, CorrectionShape, EventDigest, ClockOk, PreviousHash;
    var draft := NewEvent(p, st.rows, id, env.timestamp(occurredAt).value);
    SealKeepsDigest(env, draft, EventDigest(env, draft).value);
  }

  lemma StampIsCanonical(env: Env, at: Text)
    requires ClockOk(env) && env.timestamp(at).Some?
    ensures env.timestamp(env.timestamp(at).value) == env.timestamp(at)
  {
    assert Canonical(env, env.timestamp(at).value);
  }

  /** The event digest does not cover the event hash itself. */
  lemma SealKeepsDigest(env: Env, draft: Row, h: Text)
    requires draft.Event?
    ensures EventDigest(env, draft.(eventHash := h)) == EventDigest(env, draft)
  {
    hide HashField, OptionalHashField, ActorField, PreviousField, Sha256;
  }

  lemma ExtendConsistent(env: Env, st: State, e: Row)
    requires Consistent(env, st) && Linked(env, st.rows, e) && Stored(e)
    ensures Consistent(env,
      State(st.rows + [e], st.index[e.names.key := (e.requestSha, e.sequence)], st.ids + {e.eventId}))
  {
    hide SoundAlone, CorrectionShape, Linked, Stored, SeenIds, SeenKeys, IdOf, KeyOf;
    assert e.Event? by { LinkedIsEvent(env, st.rows, e); }
    var rows := st.rows + [e];
    SnocPrefix(st.rows, e);
    SnocIds(st.rows, e);
    assert rows[|rows| - 1] == e && rows[..|rows| - 1] == st.rows;
    forall i | 0 <= i < |rows| ensures Linked(env, rows[..i], rows[i]) && Stored(rows[i]) {
      if i < |st.rows| { assert Linked(env, st.rows[..i], st.rows[i]) && Stored(st.rows[i]); }
    }
  }

  lemma LinkedIsEvent(env: Env, earlier: seq<Row>, e: Row)
    requires Linked(env, earlier, e)
    ensures e.Event?
  {
  }

  lemma KeysSeen(env: Env, st: State)
    requires Consistent(env, st)
    ensures SeenIds(st.rows) == st.ids
    ensures forall k :: k in SeenKeys(st.rows) <==> k in st.index
  {
    StoredSeen(st.rows);
    LinkedKeyed(env, st.rows);
    IndexIsLinearSearch(st.rows);
  }

  function Sealed(env: Env, draft: Row): Row
    requires draft.Event? && EventDigest(env, draft).Some?
  {
    draft.(eventHash := EventDigest(env, draft).value)
  }

  function ChosenId(eventId: Option<Text>, uuid: Uuid): Option<Text> {
    if eventId.Some? then NormalizeText(eventId.value, 128) else Some(uuid)
  }

  /** What a caller can check before the locked section: the key and the id are fresh, the time is
      valid and the event digest can be computed. */
  predicate Recordable(env: Env, st: State, p: Prepared, eventId: Option<Text>, uuid: Uuid, occurredAt: Text) {
    && p.names.key !in st.index
    && ChosenId(eventId, uuid).Some? && ChosenId(eventId, uuid).value !in st.ids
    && env.timestamp(occurredAt).Some?
    && EventDigest(env, NewEvent(p, st.rows, ChosenId(eventId, uuid).value, env.timestamp(occurredAt).value)).Some?
  }

  lemma CommitAppends(env: Env, st: State, p: Prepared, eventId: Option<Text>, uuid: Uuid, occurredAt: Text)
    requires IndexInRange(st)
    ensures var (st', o) := Commit(env, st, p, eventId, uuid, occurredAt);
      if Recordable(env, st, p, eventId, uuid, occurredAt) then
        && o.Appended?
        && o.row == Sealed(env, NewEvent(p, st.rows, ChosenId(eventId, uuid).value, env.timestamp(occurredAt).value))
        && st' == State(st.rows + [o.row], st.index[o.row.names.key := (o.row.requestSha, o.row.sequence)],
             st.ids + {o.row.eventId})
      else !o.Appended? && st' == st
  {
    hide EventDigest, NormalizeText;
  }

  lemma ChosenIdNormalized(eventId: Option<Text>, uuid: Uuid)
    requires ChosenId(eventId, uuid).Some?
    ensures NormalizeText(ChosenId(eventId, uuid).value, 128) == ChosenId(eventId, uuid)
  {
    if eventId.Some? { NormalizeTextIdempotent(eventId.value, 128); } else { UuidNormalized(uuid); }
  }

  lemma NewEventLinked(env: Env, st: State, p: Prepared, e: Row)
    requires Consistent(env, st) && PreparedGood(env, p, st) && SoundAlone(env, e) && Stored(e)
    requires e.sequence == |st.rows| + 1 && e.previous == PreviousHash(st.rows)
    requires e.names == p.names && e.payload == p.payload
    requires e.names.key !in st.index && e.eventId !in st.ids
    ensures Linked(env, st.rows, e)
  {
    StoredKey(e);
    NormalNames(p.names);
    hide SoundAlone, CorrectionShape, CanonicalText, RequestDigest, AllLinked, Stored, KeyOf, IdOf,
      NormalizeText, NormalizeNames, SeenKeys, SeenIds;
    KeysSeen(env, st);
  }

  /** The locked part of an append keeps the ledger consistent and changes it by at most one new last row. */
  lemma CommitKeeps(env: Env, st: State, p: Prepared, eventId: Option<Text>, uuid: Uuid, occurredAt: Text)
    requires ClockOk(env) && Consistent(env, st) && PreparedGood(env, p, st) && IndexInRange(st)
    ensures var (st', o) := Commit(env, st, p, eventId, uuid, occurredAt);
      && Consistent(env, st')
      && (if o.Appended? then
            st'.rows == st.rows + [o.row] && o.row.Event? && o.row.payload == p.payload && o.row.names == p.names
          else st' == st)
  {
    hide Commit, Consistent, PreparedGood, SoundAlone, Linked, EventDigest;
    CommitAppends(env, st, p, eventId, uuid, occurredAt);
    var (st', o) := Commit(env, st, p, eventId, uuid, occurredAt);
    if o.Appended? {
      ChosenIdNormalized(eventId, uuid);
      assert NormalizeText(ChosenId(eventId, uuid).value, 128) == Some(ChosenId(eventId, uuid).value);
      NewEventSound(env, p, st, ChosenId(eventId, uuid).value, occurredAt);
      NewEventLinked(env, st, p, o.row);
      ExtendConsistent(env, st, o.row);
    }
  }

  lemma PrepareGood(env: Env, st: State, r: Request, reserved: bool)
    requires Prepare(env, r, reserved).Some?
    requires var names := NormalizeNames(r.names).value;
      reserved ==> names.eventType == CORRECTION_TYPE ==> CorrectionShape(r.payload, IdsOf(st.rows))
    ensures PreparedGood(env, Prepare(env, r, reserved).value, st)
    ensures Prepare(env, r, reserved).value.payload == r.payload
    ensures NormalizeNames(r.names) == Some(Prepare(env, r, reserved).value.names)
  {
    NormalizeNamesIdempotent(r.names);
  }

  lemma {:induction false} FindEventFinds(rows: seq<Row>, id: Text)
    ensures FindEvent(rows, id).Some? <==> id in IdsOf(rows)
  {
    if rows != [] {
      FindEventFinds(rows[1..], id);
      assert forall i :: 1 <= i < |rows| ==> rows[i] == rows[1..][i - 1];
      if id in IdsOf(rows[1..]) {
        var i :| 0 <= i < |rows| - 1 && rows[1..][i].Event? && rows[1..][i].eventId == id;
        assert rows[i + 1].eventId == id;
      }
    }
  }

  lemma CorrectionTypeNormal()
    ensures NormalizeText(CORRECTION_TYPE, 128) == Some(CORRECTION_TYPE)
  {
    assert |CORRECTION_TYPE| == 18;
    assert CORRECTION_TYPE[0] == 'd' as int && CORRECTION_TYPE[17] == '1' as int;
    assert Trimmed(CORRECTION_TYPE);
  }

  /** The correction payload has the shape `verify` asks for, with the replacement it was given. */
  lemma CorrectionPayloadShape(target: Text, reason: Text, replacement: JsonDoc, ids: set<Text>)
    requires target in ids && Strip(reason) != []
    ensures var d := Obj(CorrectionMembers(target, reason, replacement));
      CorrectionShape(d, ids) && (ReplacesWithObject(d) <==> replacement.Obj?)
  {
    var ms := CorrectionMembers(target, reason, replacement);
    assert |REASON| == 6 && |REPLACEMENT| == 19 && |TARGET| == 15;
    var keys := set m | m in ms :: m.key;
    assert ms[0] in ms && ms[1] in ms && ms[2] in ms;
    assert keys == {REASON, REPLACEMENT, TARGET};
    assert ms[1..] == [Member(REPLACEMENT, replacement), Member(TARGET, Str(target))];
    assert ms[1..][1..] == [Member(TARGET, Str(target))];
    assert Lookup(ms, REASON) == Some(Str(reason));
    assert Lookup(ms, REPLACEMENT) == Lookup(ms[1..], REPLACEMENT) == Some(replacement);
    assert Lookup(ms, TARGET) == Lookup(ms[1..], TARGET) == Lookup(ms[1..][1..], TARGET) == Some(Str(target));
  }

  // ------------------------------------------------------------------ runs

  datatype Command = AppendCall(request: Request, uuid: Uuid) | CorrectCall(correction: Correction, uuid: Uuid)

  function Step(env: Env, st: State, c: Command): (State, Outcome)
    requires IndexInRange(st)
  {
    match c
    case AppendCall(r, uuid) => Append(env, st, r, uuid)
    case CorrectCall(r, uuid) => AppendCorrection(env, st, r, uuid)
  }

  lemma AppendKeeps(env: Env, st: State, r: Request, uuid: Uuid)
    requires ClockOk(env) && Consistent(env, st) && IndexInRange(st)
    ensures var (st', o) := Append(env, st, r, uuid);
      && Consistent(env, st')
      && (if o.Appended? then st'.rows == st.rows + [o.row] && !IsCorrection(o.row) else st' == st)
  {
    if Prepare(env, r, false).Some? {
      OnlyCorrectionsReserved(env, r);
      PrepareGood(env, st, r, false);
      hide Prepare, PreparedGood, Commit, Consistent;
      CommitKeeps(env, st, Prepare(env, r, false).value, r.eventId, uuid, r.occurredAt);
    }
  }

  lemma OnlyCorrectionsReserved(env: Env, r: Request)
    requires Prepare(env, r, false).Some?
    ensures NormalizeText(Prepare(env, r, false).value.names.eventType, 128) != Some(CORRECTION_TYPE)
  {
    hide Strip, CanonicalText, RequestDigest, Sha256, NormalizeText;
    NormalizeTextIdempotent(r.names.eventType, 128);
  }

  lemma CorrectionKeeps(env: Env, st: State, c: Correction, uuid: Uuid)
    requires ClockOk(env) && Consistent(env, st) && IndexInRange(st)
    ensures var (st', o) := AppendCorrection(env, st, c, uuid);
      && Consistent(env, st')
      && (if o.Appended? then
            && st'.rows == st.rows + [o.row]
            && IsCorrection(o.row) && (ReplacesWithObject(o.row.payload) <==> c.replacement.Obj?)
          else st' == st)
  {
    hide Consistent, Commit, CorrectionShape, CorrectionRequest;
    if CorrectionRequest(st, c).Some? {
      var r := CorrectionRequest(st, c).value;
      CorrectionRequestShape(st, c);
      CorrectionTypeNormal();
      if Prepare(env, r, true).Some? {
        PrepareGood(env, st, r, true);
        NormalizeNamesType(r.names);
        hide Prepare, PreparedGood;
        CommitKeeps(env, st, Prepare(env, r, true).value, c.eventId, uuid, c.occurredAt);
      }
    }
  }

  lemma NormalizeNamesType(n: Names)
    requires NormalizeNames(n).Some?
    ensures NormalizeText(n.eventType, 128) == Some(NormalizeNames(n).value.eventType)
  {
  }

  lemma CorrectionRequestShape(st: State, c: Correction)
    requires CorrectionRequest(st, c).Some?
    ensures var r := CorrectionRequest(st, c).value;
      && r.names.eventType == CORRECTION_TYPE
      && CorrectionShape(r.payload, IdsOf(st.rows))
      && (ReplacesWithObject(r.payload) <==> c.replacement.Obj?)
  {
    var target, reason := NormalizeText(c.target, 128).value, NormalizeText(c.reason, 2048).value;
    FindEventFinds(st.rows, target);
    NormalizeTextIdempotent(c.reason, 2048);
    CorrectionPayloadShape(target, reason, c.replacement, IdsOf(st.rows));
  }

  /** One call: consistent again, at most one new last row, and a correction row exactly as good as its replacement. */
  lemma StepKeeps(env: Env, st: State, c: Command)
    requires ClockOk(env) && Consistent(env, st) && IndexInRange(st)
    ensures var (st', o) := Step(env, st, c);
      && Consistent(env, st')
      && (if o.Appended? then
            && st'.rows == st.rows + [o.row]
            && (if c.CorrectCall? then
                  IsCorrection(o.row) && (ReplacesWithObject(o.row.payload) <==> c.correction.replacement.Obj?)
                else !IsCorrection(o.row))
          else st' == st)
  {
    match c
    case AppendCall(r, uuid) => AppendKeeps(env, st, r, uuid);
    case CorrectCall(k, uuid) => CorrectionKeeps(env, st, k, uuid);
  }

  function Run(env: Env, st: State, calls: seq<Command>): State
    requires IndexInRange(st)
    decreases |calls|
  {
    if calls == [] then st
    else
      var next := Step(env, st, calls[0]).0;
      if IndexInRange(next) then Run(env, next, calls[1..]) else next
  }

  /** Runs keep the ledger consistent and only append to it. */
  lemma {:induction false} RunKeeps(env: Env, st: State, calls: seq<Command>)
    requires ClockOk(env) && Consistent(env, st) && IndexInRange(st)
    ensures Consistent(env, Run(env, st, calls)) && IndexInRange(Run(env, st, calls))
    ensures st.rows <= Run(env, st, calls).rows
    decreases |calls|
  {
    hide Consistent, Step;
    if calls == [] {
    } else {
      StepKeeps(env, st, calls[0]);
      var next := Step(env, st, calls[0]).0;
      IndexStaysInRange(env, next);
      RunKeeps(env, next, calls[1..]);
    }
    IndexStaysInRange(env, Run(env, st, calls));
  }

  lemma EmptyConsistent(env: Env)
    ensures Consistent(env, EMPTY) && IndexInRange(EMPTY)
  {
  }

  ghost predicate ObjectReplacements(calls: seq<Command>) {
    forall i :: 0 <= i < |calls| ==> calls[i].CorrectCall? ==> calls[i].correction.replacement.Obj?
  }

  lemma SnocReplaces(rows: seq<Row>, e: Row)
    ensures AllReplaceWithObjects(rows + [e]) <==>
      AllReplaceWithObjects(rows) && (IsCorrection(e) ==> ReplacesWithObject(e.payload))
  {
    var r := rows + [e];
    assert r[|rows|] == e;
    assert forall i :: 0 <= i < |rows| ==> r[i] == rows[i];
  }

  lemma {:induction false} GoodRunReplaces(env: Env, st: State, calls: seq<Command>)
    requires ClockOk(env) && Consistent(env, st) && IndexInRange(st)
    requires AllReplaceWithObjects(st.rows) && ObjectReplacements(calls)
    ensures AllReplaceWithObjects(Run(env, st, calls).rows)
    decreases |calls|
  {
    if calls == [] {
    } else {
      StepKeeps(env, st, calls[0]);
      var (next, o) := Step(env, st, calls[0]);
      if o.Appended? { SnocReplaces(st.rows, o.row); }
      IndexStaysInRange(env, next);
      assert calls[0].CorrectCall? ==> calls[0].correction.replacement.Obj?;
      GoodRunReplaces(env, next, calls[1..]);
    }
  }

  /** Every ledger reached from the empty one by calls whose replacements are objects passes `verify`. */
  lemma ReachableVerifies(env: Env, calls: seq<Command>)
    requires ClockOk(env) && ObjectReplacements(calls)
    ensures IndexInRange(EMPTY) && Verified(env, Run(env, EMPTY, calls).rows)
  {
    EmptyConsistent(env);
    RunKeeps(env, EMPTY, calls);
    GoodRunReplaces(env, EMPTY, calls);
  }

  /** Everything the writer checks of a correction before it records it: a target on record, a reason, an
      actor, a payload text that fits, and then what it checks of any row. The replacement is not looked at. */
  predicate CorrectionAdmitted(env: Env, st: State, c: Correction, uuid: Uuid) {
    && NormalizeText(c.target, 128).Some? && NormalizeText(c.target, 128).value in IdsOf(st.rows)
    && NormalizeText(c.reason, 2048).Some?
    && (c.actorDid.Some? || c.actorRef.Some?)
    && CorrectionRequest(st, c).Some?
    && Prepare(env, CorrectionRequest(st, c).value, true).Some?
    && Recordable(env, st, Prepare(env, CorrectionRequest(st, c).value, true).value, c.eventId, uuid, c.occurredAt)
  }

  lemma CorrectionAppendsExactly(env: Env, st: State, c: Correction, uuid: Uuid)
    requires IndexInRange(st)
    ensures AppendCorrection(env, st, c, uuid).1.Appended? <==> CorrectionAdmitted(env, st, c, uuid)
  {
    hide NormalizeText, Prepare, Commit, Recordable, IdsOf, CorrectionMembers;
    if NormalizeText(c.target, 128).Some? { FindEventFinds(st.rows, NormalizeText(c.target, 128).value); }
    if CorrectionRequest(st, c).Some? && Prepare(env, CorrectionRequest(st, c).value, true).Some? {
      CommitAppends(env, st, Prepare(env, CorrectionRequest(st, c).value, true).value, c.eventId, uuid, c.occurredAt);
    }
  }

  /** The writer does not check the replacement: a call leaves a verifiable ledger verifiable exactly
      when it is not an admitted correction whose replacement is something other than an object. */
  lemma VerifiableExactly(env: Env, st: State, c: Command)
    requires ClockOk(env) && Consistent(env, st) && Verified(env, st.rows) && IndexInRange(st)
    ensures Verified(env, Step(env, st, c).0.rows)
            <==> !(c.CorrectCall? && CorrectionAdmitted(env, st, c.correction, c.uuid) && !c.correction.replacement.Obj?)
  {
    hide CorrectionAdmitted, Consistent, AllLinked, ReplacesWithObject, IsCorrection, AllReplaceWithObjects;
    StepKeeps(env, st, c);
    var (st', o) := Step(env, st, c);
    if c.CorrectCall? { CorrectionAppendsExactly(env, st, c.correction, c.uuid); }
    if o.Appended? { SnocReplaces(st.rows, o.row); }
    assert AllLinked(env, st'.rows) by { ConsistentLinked(env, st'); }
  }

  lemma ConsistentLinked(env: Env, st: State)
    requires Consistent(env, st)
    ensures AllLinked(env, st.rows)
  {
  }

  /** ... and once it is not verifiable no later call makes it so. */
  lemma UnverifiableForever(env: Env, st: State, calls: seq<Command>)
    requires ClockOk(env) && Consistent(env, st) && !Verified(env, st.rows) && IndexInRange(st)
    ensures !Verified(env, Run(env, st, calls).rows)
  {
    RunKeeps(env, st, calls);
    var later := Run(env, st, calls).rows;
    var i :| 0 <= i < |st.rows| && IsCorrection(st.rows[i]) && !ReplacesWithObject(st.rows[i].payload);
    assert later[i] == st.rows[i];
  }

  // ------------------------------------------------------------------ idempotency over runs

  /** A request recorded once is answered with the recorded row in every later state, whatever
      event id or time the retry carries; the same key with another request is always a conflict. */
  lemma RetryFindsOriginal(env: Env, st: State, r: Request, uuid: Uuid, calls: seq<Command>, again: Request, uuid': Uuid)
    requires ClockOk(env) && Consistent(env, st) && IndexInRange(st)
    requires Append(env, st, r, uuid).1.Appended?
    requires Prepare(env, again, false).Some?
    requires Prepare(env, again, false).value.names.key == Append(env, st, r, uuid).1.row.names.key
    ensures IndexInRange(Append(env, st, r, uuid).0)
    ensures var (st1, o) := Append(env, st, r, uuid);
      var later := Run(env, st1, calls);
      IndexInRange(later)
      && Append(env, later, again, uuid') ==
        (later, if Prepare(env, again, false).value.requestSha == o.row.requestSha then AlreadyRecorded(o.row)
                else Rejected(IdempotencyConflict))
  {
    StepKeeps(env, st, AppendCall(r, uuid));
    var (st1, o) := Append(env, st, r, uuid);
    hide Prepare, Run, Linked, NormalizeText, EventDigest, NewEvent;
    IndexStaysInRange(env, st1);
    RunKeeps(env, st1, calls);
    var later := Run(env, st1, calls);
    assert later.rows[|st.rows|] == st1.rows[|st.rows|] == o.row;
    RecordedIsIndexed(env, later, |st.rows|);
    hide Consistent;
  }

  /** Every row of a consistent ledger is what its key is bound to. */
  lemma RecordedIsIndexed(env: Env, st: State, i: nat)
    requires Consistent(env, st) && i < |st.rows|
    ensures st.rows[i].Event? && st.rows[i].names.key in st.index
    ensures st.index[st.rows[i].names.key] == (st.rows[i].requestSha, i + 1)
  {
    hide Linked, Stored;
    LinkedKeyed(env, st.rows);
    IndexIsLinearSearch(st.rows);
  }

  /** An event id on record is never recorded a second time: a fresh key with it is a replay. */
  lemma ReplayAlwaysDetected(env: Env, st: State, r: Request, uuid: Uuid)
    requires Consistent(env, st) && IndexInRange(st)
    requires Prepare(env, r, false).Some? && Prepare(env, r, false).value.names.key !in st.index
    requires r.eventId.Some? && NormalizeText(r.eventId.value, 128).Some?
    requires exists i :: 0 <= i < |st.rows| && st.rows[i].eventId == NormalizeText(r.eventId.value, 128).value
    ensures Append(env, st, r, uuid) == (st, Rejected(ReplayDetected))
  {
    var i :| 0 <= i < |st.rows| && st.rows[i].Event? && st.rows[i].eventId == NormalizeText(r.eventId.value, 128).value;
    assert st.rows[i].eventId in IdsOf(st.rows);
  }
}
