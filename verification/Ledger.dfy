/**
 `DAILLedger` itself: the object with its three mutable fields, the verifier and exporter
 as the loops they are, isolated restore, and the cold verifier, each proved against the
 functions and predicates whose properties LedgerRuns, LedgerIntegrity and ColdExport state.
 */
module Ledger {
  import opened Prelude
  import opened Json
  import opened CanonicalForm
  import opened PythonText
  import Model = LedgerModel
  import Runs = LedgerRuns
  import Integrity = LedgerIntegrity
  import Cold = ColdExport

  datatype Fault =
    | Malformed | Invalid | UnsupportedSchema | NotContiguous | ReplayedId | ReusedKey | PayloadNotObject
    | PayloadTextMismatch | PayloadShaMismatch | RequestShaMismatch | TimestampNotCanonical | LinkMismatch
    | EventHashMismatch | CorrectionFields | CorrectionTarget | CorrectionReason | CorrectionReplacement
    | AnchorMismatch

  datatype Report = Report(ok: bool, eventCount: nat, headHash: Text, errors: seq<(nat, Fault)>)

  /** What `verify` demands of the row at a position, given what its loop has collected so far. */
  ghost predicate RowPasses(
      env: Model.Env, e: Model.Row, position: nat, ids: set<Text>, keys: set<Text>, expected: Option<Text>)
  {
    && Model.SoundAlone(env, e)
    && e.sequence == position
    && Model.IdOf(e).value !in ids
    && Model.KeyOf(e).value !in keys
    && e.previous == expected
    && (Model.IsCorrection(e) ==> Model.CorrectionShape(e.payload, ids) && Model.ReplacesWithObject(e.payload))
  }

  method CheckCorrection(payload: JsonDoc, ids: set<Text>) returns (faults: seq<Fault>)
    ensures faults == [] <==> Model.CorrectionShape(payload, ids) && Model.ReplacesWithObject(payload)
  {
    faults := [];
    if !payload.Obj? || (set m | m in payload.members :: m.key) != {Model.REASON, Model.REPLACEMENT, Model.TARGET} {
      return [CorrectionFields];
    }
    var target := Lookup(payload.members, Model.TARGET);
    if target.None? || !target.value.Str? || target.value.s !in ids {
      faults := faults + [CorrectionTarget];
    }
    var reason := Lookup(payload.members, Model.REASON);
    if reason.None? || !reason.value.Str? || Strip(reason.value.s) == [] {
      faults := faults + [CorrectionReason];
    }
    var replacement := Lookup(payload.members, Model.REPLACEMENT);
    if replacement.None? || !replacement.value.Obj? {
      faults := faults + [CorrectionReplacement];
    }
  }

  /** The body of the verifier's loop: no fault exactly when the row passes. */
  method CheckRow(
      env: Model.Env, e: Model.Row, position: nat, ids: set<Text>, keys: set<Text>, expected: Option<Text>)
    returns (faults: seq<Fault>)
    ensures faults == [] <==> RowPasses(env, e, position, ids, keys, expected)
  {
    hide Model.BoundFields, Model.RequestDigest, CanonicalText, Model.NormalizeNames, Strip,
      Model.CorrectionShape, Model.ReplacesWithObject;
    if !e.Event? { return [Malformed]; }
    var id := Model.NormalizeText(e.eventId, 128);
    var names := Model.NormalizeNames(e.names);
    var parsed := env.parse(e.payloadText);
    var payloadSha := Model.Sha256(env, e.payloadText);
    var at := env.timestamp(e.occurredAt);
    var digest := Model.EventDigest(env, e);
    if id.None? || names.None? || parsed.None? || payloadSha.None? || at.None? || digest.None? {
      return [Invalid];
    }
    NamesNormal(e.names);
    faults := [];
    if e.schemaVersion != Model.SCHEMA { faults := faults + [UnsupportedSchema]; }
    if e.sequence != position { faults := faults + [NotContiguous]; }
    if id.value in ids { faults := faults + [ReplayedId]; }
    if names.value.key in keys { faults := faults + [ReusedKey]; }
    if !e.payload.Obj? { faults := faults + [PayloadNotObject]; }
    if CanonicalText(Python, parsed.value) != CanonicalText(Python, e.payload) { faults := faults + [PayloadTextMismatch]; }
    if e.payloadSha != payloadSha.value { faults := faults + [PayloadShaMismatch]; }
    var request := Model.RequestDigest(env, names.value, payloadSha.value);
    if request != Some(e.requestSha) { faults := faults + [RequestShaMismatch]; }
    if e.occurredAt != at.value { faults := faults + [TimestampNotCanonical]; }
    if e.previous != expected { faults := faults + [LinkMismatch]; }
    if e.eventHash != digest.value { faults := faults + [EventHashMismatch]; }
    if names.value.eventType == Model.CORRECTION_TYPE {
      var more := CheckCorrection(e.payload, ids);
      faults := faults + more;
    }
  }

  lemma NamesNormal(n: Model.Names)
    requires Model.NormalizeNames(n).Some?
    ensures Model.NormalizeText(n.key, 256) == Some(Model.NormalizeNames(n).value.key)
    ensures Model.NormalizeText(n.eventType, 128) == Some(Model.NormalizeNames(n).value.eventType)
  {
  }

  lemma PassesIsLinked(env: Model.Env, earlier: seq<Model.Row>, e: Model.Row)
    ensures RowPasses(env, e, |earlier| + 1, Model.SeenIds(earlier), Model.SeenKeys(earlier), Model.PreviousHash(earlier))
      <==> Model.Linked(env, earlier, e) && (Model.IsCorrection(e) ==> Model.ReplacesWithObject(e.payload))
  {
    hide Model.SoundAlone, Model.CorrectionShape;
  }

  ghost predicate VerifiedTo(env: Model.Env, rows: seq<Model.Row>, n: nat)
    requires n <= |rows|
  {
    forall i :: 0 <= i < n ==>
      Model.Linked(env, rows[..i], rows[i]) && (Model.IsCorrection(rows[i]) ==> Model.ReplacesWithObject(rows[i].payload))
  }

  lemma SeenSnoc(rows: seq<Model.Row>, i: nat)
    requires i < |rows| && Model.IdOf(rows[i]).Some? && Model.KeyOf(rows[i]).Some?
    ensures Model.SeenIds(rows[..i + 1]) == Model.SeenIds(rows[..i]) + {Model.IdOf(rows[i]).value}
    ensures Model.SeenKeys(rows[..i + 1]) == Model.SeenKeys(rows[..i]) + {Model.KeyOf(rows[i]).value}
  {
    hide Model.IdOf, Model.KeyOf;
    var p, q := rows[..i], rows[..i + 1];
    assert q[i] == rows[i];
    assert forall k :: 0 <= k < i ==> q[k] == p[k];
    forall x | x in Model.SeenIds(p) ensures x in Model.SeenIds(q) {
      var k :| 0 <= k < i && Model.IdOf(p[k]).Some? && Model.IdOf(p[k]).value == x;
      assert q[k] == p[k];
    }
    forall x | x in Model.SeenKeys(p) ensures x in Model.SeenKeys(q) {
      var k :| 0 <= k < i && Model.KeyOf(p[k]).Some? && Model.KeyOf(p[k]).value == x;
      assert q[k] == p[k];
    }
  }

  lemma LinkedSeen(env: Model.Env, earlier: seq<Model.Row>, e: Model.Row)
    requires Model.Linked(env, earlier, e)
    ensures e.Event? && Model.IdOf(e).Some? && Model.KeyOf(e).Some?
  {
    hide Model.BoundFields, Model.CorrectionShape, CanonicalText;
    NamesNormal(e.names);
  }

  /** `verify`: one pass, collecting errors, ids, keys and the running hash. */
  method VerifyRows(env: Model.Env, rows: seq<Model.Row>) returns (report: Report)
    ensures report.ok <==> Model.Verified(env, rows)
    ensures report.ok <==> report.errors == []
    ensures report.eventCount == |rows|
    ensures report.ok ==> report.headHash == Model.HeadHash(rows)
  {
    hide Model.Linked, RowPasses, Model.SeenIds, Model.SeenKeys, Model.IdOf, Model.KeyOf,
      Model.IsCorrection, Model.ReplacesWithObject;
    var errors: seq<(nat, Fault)> := [];
    var ids: set<Text>, keys: set<Text> := {}, {};
    var expected: Option<Text> := None;
    var i := 0;
    NothingSeen();
    while i < |rows|
      invariant 0 <= i <= |rows|
      invariant errors == [] <==> VerifiedTo(env, rows, i)
      invariant errors == [] ==> ids == Model.SeenIds(rows[..i]) && keys == Model.SeenKeys(rows[..i])
      invariant errors == [] ==> expected == Model.PreviousHash(rows[..i])
    {
      var e := rows[i];
      var faults := CheckRow(env, e, i + 1, ids, keys, expected);
      PassesIsLinked(env, rows[..i], e);
      if faults != [] {
        errors := errors + [(i + 1, faults[0])];
      } else if e.Event? && Model.IdOf(e).Some? && Model.KeyOf(e).Some? {
        SeenSnoc(rows, i);
        ids := ids + {Model.IdOf(e).value};
        keys := keys + {Model.KeyOf(e).value};
        expected := Some(e.eventHash);
      }
      if errors == [] {
        LinkedSeen(env, rows[..i], e);
        assert rows[..i + 1][i] == e;
      }
      i := i + 1;
    }
    assert rows[..i] == rows;
    var head := if expected.Some? then expected.value else ZERO_HASH;
    report := Report(errors == [], |rows|, head, errors);
  }

  lemma NothingSeen()
    ensures Model.SeenIds([]) == {} && Model.SeenKeys([]) == {}
  {
  }

  ghost predicate AllEvents(rows: seq<Model.Row>) {
    forall i :: 0 <= i < |rows| ==> rows[i].Event?
  }

  /** Why an export is refused. */
  datatype ExportError = SourceNotVerified | InvalidTimestamp

  class DAILLedger {
    const env: Model.Env
    var events: seq<Model.Row>
    var idempotency: map<Text, (Text, int)>
    var eventIds: set<Text>

    ghost function Contents(): Model.State
      reads this
    {
      Model.State(events, idempotency, eventIds)
    }

    ghost predicate Valid()
      reads this
    {
      Model.ClockOk(env) && Model.IndexInRange(Contents())
    }

    constructor (env: Model.Env)
      requires Model.ClockOk(env)
      ensures Valid() && this.env == env && Contents() == Model.EMPTY
    {
      this.env := env;
      events := [];
      idempotency := map[];
      eventIds := {};
    }

    /** The locked section of `_append`. */
    method Commit(p: Model.Prepared, eventId: Option<Text>, uuid: Model.Uuid, occurredAt: Text) returns (o: Model.Outcome)
      requires Valid()
      modifies this
      ensures Valid()
      ensures (Contents(), o) == Model.Commit(env, old(Contents()), p, eventId, uuid, occurredAt)
    {
      hide Model.EventDigest, Model.NormalizeText;
      if p.names.key in idempotency {
        var (bound, sequence) := idempotency[p.names.key];
        if bound != p.requestSha {
          return Model.Rejected(Model.IdempotencyConflict);
        }
        return Model.AlreadyRecorded(events[sequence - 1]);
      }
      var id := if eventId.Some? then Model.NormalizeText(eventId.value, 128) else Some(uuid);
      if id.None? {
        return Model.Rejected(Model.InvalidEvent);
      }
      if id.value in eventIds {
        return Model.Rejected(Model.ReplayDetected);
      }
      var at := env.timestamp(occurredAt);
      if at.None? {
        return Model.Rejected(Model.InvalidEvent);
      }
      var event := Model.NewEvent(p, events, id.value, at.value);
      var digest := Model.EventDigest(env, event);
      if digest.None? {
        return Model.Rejected(Model.InvalidEvent);
      }
      event := event.(eventHash := digest.value);
      events := events + [event];
      eventIds := eventIds + {id.value};
      idempotency := idempotency[p.names.key := (p.requestSha, event.sequence)];
      o := Model.Appended(event);
    }

    method Append(r: Model.Request, uuid: Model.Uuid) returns (o: Model.Outcome)
      requires Valid()
      modifies this
      ensures Valid()
      ensures (Contents(), o) == Model.Append(env, old(Contents()), r, uuid)
      ensures old(Runs.Consistent(env, Contents())) ==> Runs.Consistent(env, Contents())
    {
      ghost var before := Contents();
      if Runs.Consistent(env, before) { Runs.StepKeeps(env, before, Runs.AppendCall(r, uuid)); }
      hide Runs.Consistent, Model.Prepare, Model.Commit;
      var p := Model.Prepare(env, r, false);
      if p.None? {
        return Model.Rejected(Model.InvalidEvent);
      }
      o := Commit(p.value, r.eventId, uuid, r.occurredAt);
    }

    method AppendCorrection(c: Model.Correction, uuid: Model.Uuid) returns (o: Model.Outcome)
      requires Valid()
      modifies this
      ensures Valid()
      ensures (Contents(), o) == Model.AppendCorrection(env, old(Contents()), c, uuid)
      ensures old(Runs.Consistent(env, Contents())) ==> Runs.Consistent(env, Contents())
    {
      ghost var before := Contents();
      if Runs.Consistent(env, before) { Runs.StepKeeps(env, before, Runs.CorrectCall(c, uuid)); }
      hide Runs.Consistent, Model.Prepare, Model.Commit;
      var target := Model.NormalizeText(c.target, 128);
      var reason := Model.NormalizeText(c.reason, 2048);
      if target.None? || reason.None? || (c.actorDid.None? && c.actorRef.None?) {
        return Model.Rejected(Model.InvalidEvent);
      }
      var i := Model.FindEvent(events, target.value);
      if i.None? {
        return Model.Rejected(Model.InvalidEvent);
      }
      var n := events[i.value].names;
      var names := Model.Names(
        Model.CORRECTION_TYPE, n.entityType, n.entityId, n.entityVersion, c.actorDid, c.actorRef, c.key);
      var payload := Obj(Model.CorrectionMembers(target.value, reason.value, c.replacement));
      var p := Model.Prepare(env, Model.Request(names, payload, c.payloadText, c.eventId, c.occurredAt), true);
      if p.None? {
        return Model.Rejected(Model.InvalidEvent);
      }
      o := Commit(p.value, c.eventId, uuid, c.occurredAt);
    }

    method Verify() returns (report: Report)
      ensures report.ok <==> Model.Verified(env, events)
      ensures report.eventCount == |events| && (report.ok ==> report.headHash == Model.HeadHash(events))
    {
      report := VerifyRows(env, events);
    }

    /** Rebuilds a ledger from rows under two anchors; refuses with the collected errors. */
    static method RestoreIsolated(env: Model.Env, rows: seq<Model.Row>, head: Text, state: Text)
      returns (r: Result<DAILLedger, seq<(nat, Fault)>>)
      requires Model.ClockOk(env)
      ensures r.Ok? <==> Integrity.RestoreAccepts(env, rows, head, state)
      ensures r.Ok? ==> fresh(r.value) && r.value.Valid() && r.value.env == env
      ensures r.Ok? ==> r.value.Contents() == Integrity.RestoredState(rows)
    {
      var report := VerifyRows(env, rows);
      hide Integrity.StateDigest, Model.HeadHash;
      var errors := report.errors;
      if !IsHash(head) || report.headHash != head {
        errors := errors + [(0, AnchorMismatch)];
      }
      var digest := Integrity.StateDigest(env, rows);
      if !IsHash(state) || digest != Some(state) {
        errors := errors + [(0, AnchorMismatch)];
      }
      if errors != [] {
        return Err(errors);
      }
      Integrity.LinkedSequence(env, rows);
      var ledger := new DAILLedger(env);
      ledger.Reindex(rows);
      r := Ok(ledger);
    }

    /** The loop that rebuilds both indexes from the restored rows. */
    method Reindex(rows: seq<Model.Row>)
      requires Model.ClockOk(env)
      requires forall i :: 0 <= i < |rows| ==> rows[i].Event? && rows[i].sequence == i + 1
      modifies this
      ensures Valid() && Contents() == Integrity.RestoredState(rows)
    {
      assert rows[..0] == [] && Model.IdsOf(rows[..0]) == {};
      hide Model.IdsOf;
      events := rows;
      eventIds := {};
      idempotency := map[];
      for i := 0 to |rows|
        invariant events == rows
        invariant eventIds == Model.IdsOf(rows[..i])
        invariant idempotency == Model.IndexOf(rows[..i])
        invariant forall k :: k in idempotency ==> 1 <= idempotency[k].1 <= i
      {
        var e := rows[i];
        assert rows[..i + 1] == rows[..i] + [e] && rows[..i + 1][..i] == rows[..i];
        Runs.SnocIds(rows[..i], e);
        eventIds := eventIds + {e.eventId};
        idempotency := idempotency[e.names.key := (e.requestSha, e.sequence)];
      }
      assert rows[..|rows|] == rows;
    }

    /** The sanitised export, refused when the ledger does not verify. */
    method ExportCold(createdAt: Text) returns (r: Result<(Cold.Document, Hash), ExportError>)
      requires Valid()
      ensures r.Ok? <==> Model.Verified(env, events) && env.timestamp(createdAt).Some?
      ensures r.Ok? ==> Cold.ColdAccepts(env, r.value.0, r.value.1, Model.HeadHash(events))
      ensures r.Ok? ==> AllEvents(events)
      ensures r.Ok? ==> Some(r.value) == Cold.Export(env, events, createdAt)
    {
      hide Cold.MakeReceipt, Cold.ColdAccepts, Cold.ReceiptsDigest, Cold.DocumentDigest, Model.Linked;
      var report := Verify();
      if !report.ok {
        return Err(SourceNotVerified);
      }
      if env.timestamp(createdAt).None? {
        return Err(InvalidTimestamp);
      }
      Cold.ExportIsAccepted(env, events, createdAt);
      var receipts: seq<Cold.Receipt> := [];
      var previous: Text := ZERO_HASH;
      for i := 0 to |events|
        invariant Cold.Receipts(env, events[..i]) == Some(receipts)
        invariant previous == Cold.LastReceiptHash(receipts)
      {
        ReceiptsStep(env, events, i);
        var receipt := Cold.MakeReceipt(env, events[i], previous).value;
        assert Cold.Receipts(env, events[..i + 1]) == Some(receipts + [receipt]);
        MadeReceipt(env, events[i], previous);
        receipts := receipts + [receipt];
        previous := receipt.receiptHash;
      }
      assert events[..|events|] == events;
      var document := Cold.ExportDocument(env, events, receipts, createdAt);
      r := Ok((document, Cold.DocumentDigest(env, document).value));
    }
  }

  lemma MadeReceipt(env: Model.Env, e: Model.Row, previous: Text)
    requires e.Event? && Cold.MakeReceipt(env, e, previous).Some?
    ensures Cold.MakeReceipt(env, e, previous).value.Receipt?
  {
  }

  /** While the whole list of receipts exists, so does that of each prefix, and the next one follows. */
  lemma {:induction false} ReceiptsStep(env: Model.Env, rows: seq<Model.Row>, i: nat)
    requires forall k :: 0 <= k < |rows| ==> rows[k].Event?
    requires i < |rows| && Cold.Receipts(env, rows).Some?
    ensures Cold.Receipts(env, rows[..i]).Some?
    ensures var before := Cold.Receipts(env, rows[..i]).value;
      var made := Cold.MakeReceipt(env, rows[i], Cold.LastReceiptHash(before));
      made.Some? && Cold.Receipts(env, rows[..i + 1]) == Some(before + [made.value])
  {
    hide Cold.MakeReceipt;
    var n := |rows| - 1;
    if i == n {
      assert rows[..i + 1] == rows;
    } else {
      ReceiptsStep(env, rows[..n], i);
      assert rows[..n][..i] == rows[..i] && rows[..n][..i + 1] == rows[..i + 1];
    }
  }

  // ------------------------------------------------------------------ the cold verifier

  datatype ColdFault =
    | DocumentFault | ReceiptFieldFault(position: nat) | SequenceFault(position: nat) | TimestampFault(position: nat)
    | EventLinkFault(position: nat) | ReceiptLinkFault(position: nat) | ReceiptHashFault(position: nat) | HeadFault

  ghost predicate ReceiptPasses(env: Model.Env, r: Cold.Receipt, position: nat, priorEvent: Text, priorReceipt: Text) {
    && Cold.ReceiptFields(r) && r.sequence == position
    && env.timestamp(r.occurredAt) == Some(r.occurredAt)
    && r.previousEventHash == priorEvent && r.previousReceiptHash == priorReceipt
    && Model.Sha256(env, Cold.ReceiptText(r)) == Some(r.receiptHash)
  }

  lemma ReceiptPassesIsLinked(env: Model.Env, rs: seq<Cold.Receipt>, r: Cold.Receipt)
    ensures ReceiptPasses(env, r, |rs| + 1, Cold.LastEventHash(rs), Cold.LastReceiptHash(rs))
      <==> Cold.ReceiptLinked(env, rs, r)
  {
    hide Cold.ReceiptFields, Cold.ReceiptText;
  }

  /** The loop body of `_verify_cold_export`. */
  method CheckReceipt(env: Model.Env, r: Cold.Receipt, position: nat, priorEvent: Text, priorReceipt: Text)
    returns (faults: seq<ColdFault>)
    ensures faults == [] <==> ReceiptPasses(env, r, position, priorEvent, priorReceipt)
  {
    hide IsHash, Cold.ReceiptText;
    faults := [];
    if !r.Receipt? { return [ReceiptFieldFault(position)]; }
    if r.sequence != position { faults := faults + [SequenceFault(position)]; }
    if !Cold.ReceiptFields(r) { faults := faults + [ReceiptFieldFault(position)]; }
    if env.timestamp(r.occurredAt) != Some(r.occurredAt) { faults := faults + [TimestampFault(position)]; }
    if r.previousEventHash != priorEvent { faults := faults + [EventLinkFault(position)]; }
    if r.previousReceiptHash != priorReceipt { faults := faults + [ReceiptLinkFault(position)]; }
    if Model.Sha256(env, Cold.ReceiptText(r)) != Some(r.receiptHash) { faults := faults + [ReceiptHashFault(position)]; }
  }

  /** `_verify_cold_export`: no error exactly when the document is acceptable under the anchors. */
  method VerifyCold(env: Model.Env, d: Cold.Document, expectedExport: Text, expectedHead: Text)
    returns (errors: seq<ColdFault>)
    ensures errors == [] <==> Cold.ColdAccepts(env, d, expectedExport, expectedHead)
  {
    hide Cold.DocumentFields, Cold.ReceiptLinked, Cold.ReceiptChain, ReceiptPasses, IsHash;
    NoReceipts(env);
    if !Cold.DocumentFields(env, d, expectedExport, expectedHead) {
      return [DocumentFault];
    }
    AcceptedIsDocument(env, d, expectedExport, expectedHead);
    errors := [];
    var priorEvent, priorReceipt: Text := Model.GENESIS, ZERO_HASH;
    var receipts := d.receipts;
    for i := 0 to |receipts|
      invariant errors == [] <==> Cold.ReceiptChain(env, receipts[..i])
      invariant errors == [] ==> priorEvent == Cold.LastEventHash(receipts[..i])
      invariant errors == [] ==> priorReceipt == Cold.LastReceiptHash(receipts[..i])
    {
      var r := receipts[i];
      var faults := CheckReceipt(env, r, i + 1, priorEvent, priorReceipt);
      ReceiptPassesIsLinked(env, receipts[..i], r);
      ChainSnoc(env, receipts, i);
      errors := errors + faults;
      if r.Receipt? {
        priorEvent := r.eventHash;
        priorReceipt := r.receiptHash;
      }
      if errors == [] {
        LinkedIsReceipt(env, receipts[..i], r);
        assert receipts[..i + 1][i] == r;
      }
    }
    assert receipts[..|receipts|] == receipts;
    var final := if receipts == [] then ZERO_HASH else priorEvent;
    if d.headHash != final { errors := errors + [HeadFault]; }
    if d.headHash != expectedHead { errors := errors + [HeadFault]; }
    if d.receiptHeadHash != priorReceipt { errors := errors + [HeadFault]; }
  }

  lemma NoReceipts(env: Model.Env)
    ensures Cold.ReceiptChain(env, [])
  {
  }

  lemma AcceptedIsDocument(env: Model.Env, d: Cold.Document, expectedExport: Text, expectedHead: Text)
    requires Cold.DocumentFields(env, d, expectedExport, expectedHead)
    ensures d.Document?
  {
  }

  lemma LinkedIsReceipt(env: Model.Env, earlier: seq<Cold.Receipt>, r: Cold.Receipt)
    requires Cold.ReceiptLinked(env, earlier, r)
    ensures r.Receipt?
  {
  }

  lemma ChainSnoc(env: Model.Env, rs: seq<Cold.Receipt>, i: nat)
    requires i < |rs|
    ensures Cold.ReceiptChain(env, rs[..i + 1]) <==>
      Cold.ReceiptChain(env, rs[..i]) && Cold.ReceiptLinked(env, rs[..i], rs[i])
  {
    hide Cold.ReceiptLinked;
    var p, q := rs[..i], rs[..i + 1];
    forall k | 0 <= k < i ensures q[..k] == p[..k] && q[k] == p[k] { }
    assert q[..i] == p && q[i] == rs[i];
    if Cold.ReceiptChain(env, q) {
      forall k | 0 <= k < i ensures Cold.ReceiptLinked(env, p[..k], p[k]) {
        assert Cold.ReceiptLinked(env, q[..k], q[k]);
      }
      assert Cold.ReceiptLinked(env, q[..i], q[i]);
    }
    if Cold.ReceiptChain(env, p) && Cold.ReceiptLinked(env, p, rs[i]) {
      forall k | 0 <= k <= i ensures Cold.ReceiptLinked(env, q[..k], q[k]) {
        if k < i { assert Cold.ReceiptLinked(env, p[..k], p[k]); }
      }
    }
  }
}
