/**
 What `verify` accepts, stated row by row without the verifier's own helpers, and what one head
 hash therefore fixes of two accepted ledgers.
 */
module LedgerVerified {
  import opened Prelude
  import opened Json
  import opened CanonicalForm
  import opened PythonText
  import opened Records
  import opened LedgerModel
  import opened LedgerRuns
  import opened LedgerIntegrity
  import opened LedgerOutcomes
  import Limits = LedgerLimits
  import Restored = RestoredRuns
  import Cold = ColdExport

  /** The row's own fields: the version, texts that fit, a payload object its database text represents, both digests,
      a canonical time, and an event hash over clean stripped fields. */
  ghost predicate FieldsHold(env: Env, e: Row) {
    && e.Event? && e.schemaVersion == Ascii("1.1.0") && Within(e.eventId, 128) && NamesWithin(e.names)
    && e.payload.Obj? && Represents(env, e.payloadText, e.payload) && e.payloadSha == env.sha(e.payloadText)
    && NamesEncodable(StrippedNames(e.names)) && e.requestSha == env.sha(RequestText(StrippedNames(e.names), e.payloadSha))
    && env.timestamp(e.occurredAt) == Some(e.occurredAt)
    && Clean(Strip(e.eventId)) && CleanNames(StrippedNames(e.names)) && (e.previous.Some? ==> IsHash(e.previous.value))
    && e.eventHash == env.sha(EventLine(e.previous, Strip(e.eventId), StrippedNames(e.names), e.payloadSha, e.occurredAt))
  }

  lemma FieldsExactly(env: Env, e: Row)
    requires ClockOk(env)
    ensures FieldsHold(env, e) <==> SoundAlone(env, e)
  {
    if e.Event? {
      NormalizeExactly(e.names);
      RepresentsExactly(env, e.payloadText, e.payload);
      if Sha256(env, e.payloadText) == Some(e.payloadSha) || e.payloadSha == env.sha(e.payloadText) {
        HashesEncodable(env.sha(e.payloadText));
        RequestDigestExactly(env, StrippedNames(e.names), e.payloadSha);
      }
      PreviousNeeded(env, e);
      if Within(e.eventId, 128) && NamesWithin(e.names) && e.schemaVersion == SCHEMA && e.payloadSha == env.sha(e.payloadText)
         && env.timestamp(e.occurredAt) == Some(e.occurredAt) && (e.previous.Some? ==> IsHash(e.previous.value)) {
        DigestExactly(env, e);
      }
      hide NormalizeNames, NamesWithin, StrippedNames, Represents, RequestDigest, RequestText, NamesEncodable, CanonicalText, EventDigest,
        EventLine, Clean, CleanNames, IsHash, Strip, ClockOk, Ascii;
    }
  }

  lemma PreviousNeeded(env: Env, e: Row)
    requires e.Event?
    ensures EventDigest(env, e).Some? && e.previous.Some? ==> IsHash(e.previous.value)
  {
    hide IsHash, HashField, OptionalHashField, ActorField;
  }

  lemma DigestExactly(env: Env, e: Row)
    requires ClockOk(env) && e.Event? && Within(e.eventId, 128) && NamesWithin(e.names) && e.schemaVersion == SCHEMA
    requires IsHash(e.payloadSha) && env.timestamp(e.occurredAt) == Some(e.occurredAt)
    requires e.previous.Some? ==> IsHash(e.previous.value)
    ensures EventDigest(env, e) ==
      if Clean(Strip(e.eventId)) && CleanNames(StrippedNames(e.names))
      then Some(env.sha(EventLine(e.previous, Strip(e.eventId), StrippedNames(e.names), e.payloadSha, e.occurredAt))) else None
  {
    var f := e.(eventId := Strip(e.eventId), names := StrippedNames(e.names));
    StrippedNormal(e.names);
    NormalizeExactly(e.names);
    NormalizeTextIdempotent(e.eventId, 128);
    Cold.StampEncodable(env, e.occurredAt);
    hide NormalizeNames, NamesWithin, StrippedNames, Clean, CleanNames, EventLine, IsHash, Encodable, ClockOk, BoundFields, Strip;
    Restored.SameBoundFields(env, e, f);
    EventDigestExactly(env, f);
  }

  /** A correction names an earlier event, has a reason that is not blank, and replaces with an object; it has no other key. */
  ghost predicate CorrectionHolds(rows: seq<Row>, i: nat)
    requires i < |rows| && rows[i].Event? && rows[i].payload.Obj?
  {
    var ms := rows[i].payload.members;
    var reason, replacement := Lookup(ms, Ascii("reason")), Lookup(ms, Ascii("replacement_payload"));
    && (set m | m in ms :: m.key) == {Ascii("reason"), Ascii("replacement_payload"), Ascii("target_event_id")}
    && (exists j :: 0 <= j < i && rows[j].Event? && Lookup(ms, Ascii("target_event_id")) == Some(Str(Strip(rows[j].eventId))))
    && reason.Some? && reason.value.Str? && Strip(reason.value.s) != []
    && replacement.Some? && replacement.value.Obj?
  }

  /** The row is numbered by position, names the hash before it, repeats no stripped id and no stripped key, and is a
      sound correction if it is one. */
  ghost predicate InPlace(rows: seq<Row>, i: nat)
    requires i < |rows| && rows[i].Event? && rows[i].payload.Obj?
  {
    var e := rows[i];
    && e.sequence == i + 1
    && (if i == 0 then e.previous == None else rows[i - 1].Event? && e.previous == Some(rows[i - 1].eventHash))
    && (forall j :: 0 <= j < i ==>
          rows[j].Event? && Strip(rows[j].eventId) != Strip(e.eventId) && Strip(rows[j].names.key) != Strip(e.names.key))
    && (Strip(e.names.eventType) == Ascii("dail.correction.v1") ==> CorrectionHolds(rows, i))
  }

  ghost predicate RowHolds(env: Env, rows: seq<Row>, i: nat)
    requires i < |rows|
  {
    FieldsHold(env, rows[i]) && InPlace(rows, i)
  }

  lemma FieldsTexts(env: Env, e: Row)
    requires FieldsHold(env, e)
    ensures e.Event? && e.payload.Obj? && IdOf(e) == Some(Strip(e.eventId)) && KeyOf(e) == Some(Strip(e.names.key))
    ensures IsCorrection(e) <==> Strip(e.names.eventType) == Ascii("dail.correction.v1")
  {
    hide Strip, Represents, NamesEncodable, Clean, CleanNames, EventLine, RequestText, IsHash, Ascii;
  }

  lemma RowExactly(env: Env, rows: seq<Row>, i: nat)
    requires ClockOk(env) && i < |rows| && forall j :: 0 <= j < i ==> FieldsHold(env, rows[j])
    ensures RowHolds(env, rows, i) <==> Linked(env, rows[..i], rows[i]) && (IsCorrection(rows[i]) ==> ReplacesWithObject(rows[i].payload))
  {
    FieldsExactly(env, rows[i]);
    forall j | 0 <= j < i
      ensures rows[j].Event? && IdOf(rows[j]) == Some(Strip(rows[j].eventId)) && KeyOf(rows[j]) == Some(Strip(rows[j].names.key))
    {
      FieldsTexts(env, rows[j]);
    }
    hide FieldsHold, SoundAlone, Strip, SeenIds, SeenKeys, IdOf, KeyOf, InPlace, CorrectionShape, ReplacesWithObject, IsCorrection,
      PreviousHash, Ascii;
    if FieldsHold(env, rows[i]) {
      FieldsTexts(env, rows[i]);
      PlaceExactly(rows, i);
    }
  }

  /** The part of both that looks at the rows before. */
  lemma PlaceExactly(rows: seq<Row>, i: nat)
    requires i < |rows| && rows[i].Event? && rows[i].payload.Obj?
    requires forall j :: 0 <= j <= i ==>
      rows[j].Event? && IdOf(rows[j]) == Some(Strip(rows[j].eventId)) && KeyOf(rows[j]) == Some(Strip(rows[j].names.key))
    requires IsCorrection(rows[i]) <==> Strip(rows[i].names.eventType) == Ascii("dail.correction.v1")
    ensures var e, earlier := rows[i], rows[..i];
      (&& e.sequence == |earlier| + 1 && IdOf(e).value !in SeenIds(earlier) && KeyOf(e).value !in SeenKeys(earlier)
       && e.previous == PreviousHash(earlier)
       && (IsCorrection(e) ==> CorrectionShape(e.payload, SeenIds(earlier)) && ReplacesWithObject(e.payload)))
      <==>
      InPlace(rows, i)
  {
    PreviousSpelled(rows, i);
    SeenExactly(rows, i);
    ShapeExactly(rows, i);
    hide Strip, SeenIds, SeenKeys, IdOf, KeyOf, CorrectionHolds, CorrectionShape, ReplacesWithObject, IsCorrection, PreviousHash, Ascii;
  }

  lemma PreviousSpelled(rows: seq<Row>, i: nat)
    requires i < |rows| && forall j :: 0 <= j < i ==> rows[j].Event?
    ensures PreviousHash(rows[..i]) == if i == 0 then None else Some(rows[i - 1].eventHash)
  {
  }

  lemma SeenExactly(rows: seq<Row>, i: nat)
    requires i < |rows|
    requires forall j :: 0 <= j < i ==>
      rows[j].Event? && IdOf(rows[j]) == Some(Strip(rows[j].eventId)) && KeyOf(rows[j]) == Some(Strip(rows[j].names.key))
    ensures forall t :: t in SeenIds(rows[..i]) <==> exists j :: 0 <= j < i && Strip(rows[j].eventId) == t
    ensures forall t :: t in SeenKeys(rows[..i]) <==> exists j :: 0 <= j < i && Strip(rows[j].names.key) == t
  {
    hide Strip, IdOf, KeyOf;
    var earlier := rows[..i];
    assert forall j :: 0 <= j < i ==> earlier[j] == rows[j];
  }

  lemma ShapeExactly(rows: seq<Row>, i: nat)
    requires i < |rows| && rows[i].Event? && rows[i].payload.Obj? && forall j :: 0 <= j < i ==> rows[j].Event?
    requires forall t :: t in SeenIds(rows[..i]) <==> exists j :: 0 <= j < i && Strip(rows[j].eventId) == t
    ensures CorrectionHolds(rows, i) <==>
      CorrectionShape(rows[i].payload, SeenIds(rows[..i])) && ReplacesWithObject(rows[i].payload)
  {
    hide Strip, SeenIds, Lookup, Ascii;
  }

  /** Rows pass `verify` if and only if each of them holds in its place. */
  lemma VerifiedExactly(env: Env, rows: seq<Row>)
    requires ClockOk(env)
    ensures Verified(env, rows) <==> forall i :: 0 <= i < |rows| ==> RowHolds(env, rows, i)
  {
    hide Linked, FieldsHold, ReplacesWithObject, CorrectionHolds, SoundAlone, ClockOk, NormalizeText;
    if Verified(env, rows) {
      forall i | 0 <= i < |rows| ensures RowHolds(env, rows, i) {
        forall j | 0 <= j < i ensures FieldsHold(env, rows[j]) {
          assert Linked(env, rows[..j], rows[j]);
          LinkedHolds(env, rows[..j], rows[j]);
        }
        assert Linked(env, rows[..i], rows[i]);
        RowExactly(env, rows, i);
      }
    }
    if forall i :: 0 <= i < |rows| ==> RowHolds(env, rows, i) {
      forall i | 0 <= i < |rows|
        ensures Linked(env, rows[..i], rows[i]) && (IsCorrection(rows[i]) ==> ReplacesWithObject(rows[i].payload))
      {
        forall j | 0 <= j < i ensures FieldsHold(env, rows[j]) { assert RowHolds(env, rows, j); }
        RowExactly(env, rows, i);
      }
    }
  }

  lemma LinkedHolds(env: Env, earlier: seq<Row>, e: Row)
    requires ClockOk(env) && Linked(env, earlier, e)
    ensures FieldsHold(env, e)
  {
    FieldsExactly(env, e);
    hide FieldsHold, SoundAlone, CorrectionShape, SeenIds, SeenKeys;
  }

  // ------------------------------------------------------------------ what one head fixes

  ghost predicate PayloadsCollisionFree(env: Env, a: seq<Row>, b: seq<Row>) {
    forall i, j :: 0 <= i < |a| && 0 <= j < |b| && a[i].Event? && b[j].Event? && env.sha(a[i].payloadText) == env.sha(b[j].payloadText)
      ==> a[i].payloadText == b[j].payloadText
  }

  /** Two rows that agree on all the head hash fixes. */
  ghost predicate SameEvent(d: Row, e: Row) {
    && d.Event? && e.Event? && d.schemaVersion == e.schemaVersion && d.sequence == e.sequence
    && Strip(d.eventId) == Strip(e.eventId) && Strip(d.names.eventType) == Strip(e.names.eventType)
    && Strip(d.names.entityType) == Strip(e.names.entityType) && Strip(d.names.entityId) == Strip(e.names.entityId)
    && Stripped(d.names.entityVersion) == Stripped(e.names.entityVersion)
    && Actor(StrippedNames(d.names)) == Actor(StrippedNames(e.names))
    && d.payloadText == e.payloadText && Meaning(d.payload) == Meaning(e.payload) && d.payloadSha == e.payloadSha
    && d.previous == e.previous && d.eventHash == e.eventHash && d.occurredAt == e.occurredAt
  }

  /** One head, one history: without a collision two verified ledgers with the same head have the same length and agree
      at every position on number, stripped id, type, entity, actor, payload text and value, links and time. */
  lemma {:induction false} HeadBindsEvents(env: Env, a: seq<Row>, b: seq<Row>)
    requires ClockOk(env) && Verified(env, a) && Verified(env, b) && HeadHash(a) == HeadHash(b)
    requires CollisionFree(env, a, b) && PayloadsCollisionFree(env, a, b)
    ensures |a| == |b| && forall i :: 0 <= i < |a| ==> SameEvent(a[i], b[i])
  {
    HeadBindsHistory(env, a, b);
    VerifiedExactly(env, a);
    VerifiedExactly(env, b);
    hide Verified, SameEvent, RowHolds, BoundFields, CollisionFree, ClockOk;
    forall i | 0 <= i < |a| ensures SameEvent(a[i], b[i]) {
      assert RowHolds(env, a, i) && RowHolds(env, b, i);
      EventBound(env, a, b, i);
    }
  }

  lemma EventBound(env: Env, a: seq<Row>, b: seq<Row>, i: nat)
    requires i < |a| && i < |b| && RowHolds(env, a, i) && RowHolds(env, b, i) && PayloadsCollisionFree(env, a, b)
    requires a[i].Event? && b[i].Event? && BoundFields(env, a[i]).Some? && BoundFields(env, a[i]) == BoundFields(env, b[i])
    ensures SameEvent(a[i], b[i])
  {
    var d, e := a[i], b[i];
    HoldsFacts(env, a, i);
    HoldsFacts(env, b, i);
    PreviousMeans(env, a, b, i);
    hide RowHolds, FieldsHold;
    BoundFieldsMean(env, d, e);
    NamesMean(d, e);
    hide BoundFields, Strip, Meaning, ActorField, NamesWithin, Within, Ascii, StrippedNames, NormalizeOptional, NormalizeText, Actor, Stripped,
      EventLine;
    SameLine(d.previous, d.eventId, d.names, e.eventId, e.names, d.payloadSha, d.occurredAt);
  }

  lemma HoldsFacts(env: Env, rows: seq<Row>, i: nat)
    requires i < |rows| && RowHolds(env, rows, i)
    ensures var e := rows[i];
      && e.Event? && e.schemaVersion == Ascii("1.1.0") && Within(e.eventId, 128) && NamesWithin(e.names) && e.sequence == i + 1
      && env.parse(e.payloadText).Some? && Meaning(env.parse(e.payloadText).value) == Meaning(e.payload)
      && e.payloadSha == env.sha(e.payloadText) && env.timestamp(e.occurredAt) == Some(e.occurredAt)
      && e.eventHash == env.sha(EventLine(e.previous, Strip(e.eventId), StrippedNames(e.names), e.payloadSha, e.occurredAt))
  {
    hide CorrectionHolds, CleanNames, Clean, RequestText, NamesEncodable, Strip, Meaning, NamesWithin, IsHash, Ascii, StrippedNames, EventLine;
  }

  lemma NamesMean(d: Row, e: Row)
    requires d.Event? && e.Event? && Within(d.eventId, 128) && Within(e.eventId, 128) && NamesWithin(d.names) && NamesWithin(e.names)
    requires NormalizeText(d.eventId, 128) == NormalizeText(e.eventId, 128)
    requires NormalizeText(d.names.eventType, 128) == NormalizeText(e.names.eventType, 128)
    requires NormalizeText(d.names.entityType, 128) == NormalizeText(e.names.entityType, 128)
    requires NormalizeText(d.names.entityId, 512) == NormalizeText(e.names.entityId, 512)
    requires NormalizeOptional(d.names.entityVersion, 128) == NormalizeOptional(e.names.entityVersion, 128)
    requires ActorField(d.names.actorDid, d.names.actorRef).Some?
    requires ActorField(d.names.actorDid, d.names.actorRef) == ActorField(e.names.actorDid, e.names.actorRef)
    ensures Strip(d.eventId) == Strip(e.eventId) && Strip(d.names.eventType) == Strip(e.names.eventType)
    ensures Strip(d.names.entityType) == Strip(e.names.entityType) && Strip(d.names.entityId) == Strip(e.names.entityId)
    ensures Stripped(d.names.entityVersion) == Stripped(e.names.entityVersion)
    ensures Actor(StrippedNames(d.names)) == Actor(StrippedNames(e.names))
  {
    hide Strip;
  }

  lemma PreviousMeans(env: Env, a: seq<Row>, b: seq<Row>, i: nat)
    requires i < |a| && i < |b| && RowHolds(env, a, i) && RowHolds(env, b, i)
    requires a[i].Event? && b[i].Event? && BoundFields(env, a[i]).Some? && BoundFields(env, a[i]) == BoundFields(env, b[i])
    ensures a[i].previous == b[i].previous && ActorField(a[i].names.actorDid, a[i].names.actorRef).Some?
  {
    Restored.FieldsOf(env, a[i]);
    Restored.FieldsOf(env, b[i]);
    hide BoundFields, FieldsHold, CorrectionHolds, Strip, Ascii, IsHash, HashField, OptionalHashField, ActorField;
    var f, g := BoundFields(env, a[i]).value, BoundFields(env, b[i]).value;
    assert f[0] == g[0];
  }

  lemma SameLine(previous: Option<Text>, idA: Text, n: Names, idB: Text, m: Names, payloadSha: Text, stamp: Text)
    requires Strip(idA) == Strip(idB) && Strip(n.eventType) == Strip(m.eventType) && Strip(n.entityType) == Strip(m.entityType)
    requires Strip(n.entityId) == Strip(m.entityId) && Stripped(n.entityVersion) == Stripped(m.entityVersion)
    requires Actor(StrippedNames(n)) == Actor(StrippedNames(m))
    ensures EventLine(previous, Strip(idA), StrippedNames(n), payloadSha, stamp)
      == EventLine(previous, Strip(idB), StrippedNames(m), payloadSha, stamp)
  {
    hide Strip, Actor;
  }

  // ------------------------------------------------------------------ what the full-state digest covers

  /** A row is written with each of its seventeen fields under its own key. */
  lemma RowWritten(e: Row)
    requires e.Event?
    ensures RowDoc(e) == Obj([
      Member(Ascii("actor_did"), OptionalText(e.names.actorDid)), Member(Ascii("actor_ref"), OptionalText(e.names.actorRef)),
      Member(Ascii("entity_id"), Str(e.names.entityId)), Member(Ascii("entity_type"), Str(e.names.entityType)),
      Member(Ascii("entity_version"), OptionalText(e.names.entityVersion)), Member(Ascii("event_hash"), Str(e.eventHash)),
      Member(Ascii("event_id"), Str(e.eventId)), Member(Ascii("event_type"), Str(e.names.eventType)),
      Member(Ascii("idempotency_key"), Str(e.names.key)), Member(Ascii("occurred_at"), Str(e.occurredAt)),
      Member(Ascii("payload"), e.payload), Member(Ascii("payload_jsonb_text"), Str(e.payloadText)),
      Member(Ascii("payload_sha256"), Str(e.payloadSha)), Member(Ascii("previous_event_hash"), OptionalText(e.previous)),
      Member(Ascii("request_sha256"), Str(e.requestSha)), Member(Ascii("schema_version"), Str(e.schemaVersion)),
      Member(Ascii("sequence"), Num(Decimal(e.sequence)))])
  {
    hide Ascii, Decimal;
  }

  /** The digest is that of the canonical text of the list of all rows. */
  lemma StateDigestWritten(env: Env, rows: seq<Row>)
    ensures exists docs: seq<Doc> ::
      && |docs| == |rows| && (forall i :: 0 <= i < |rows| ==> docs[i] == RowDoc(rows[i]))
      && StateDigest(env, rows)
         == (if Encodable(CanonicalText(Python, Arr(docs))) then Some(env.sha(CanonicalText(Python, Arr(docs)))) else None)
  {
    var docs := RowDocs(rows);
    hide CanonicalText, RowDoc, Encodable;
    assert StateDigest(env, rows)
      == (if Encodable(CanonicalText(Python, Arr(docs))) then Some(env.sha(CanonicalText(Python, Arr(docs)))) else None);
  }

  /** A restore succeeds exactly when every row holds in its place, the expected head is the last event hash, or the zero
      hash without rows, and the expected state digest is that of the rows. */
  lemma RestoreOutcome(env: Env, rows: seq<Row>, head: Text, state: Text)
    requires ClockOk(env)
    ensures RestoreAccepts(env, rows, head, state) <==>
      && (forall i :: 0 <= i < |rows| ==> RowHolds(env, rows, i))
      && IsHash(head) && IsHash(state)
      && head == (if rows == [] || !rows[|rows| - 1].Event? then Repeat('0' as int, 64) else rows[|rows| - 1].eventHash)
      && Encodable(StateText(rows)) && state == env.sha(StateText(rows))
  {
    VerifiedExactly(env, rows);
    hide Verified, RowHolds, IsHash, StateText, Encodable, ClockOk;
  }

  /** The restored ledger has exactly the rows, the ids of its rows, and for each key the request digest and number of
      its row. */
  lemma RestoredOutcome(env: Env, rows: seq<Row>)
    requires ClockOk(env) && Verified(env, rows)
    ensures var st := RestoredState(rows);
      && st.rows == rows
      && (forall id :: id in st.ids <==> exists i :: 0 <= i < |rows| && rows[i].Event? && rows[i].eventId == id)
      && (forall k :: k in st.index <==> exists i :: 0 <= i < |rows| && rows[i].Event? && rows[i].names.key == k)
      && (forall i :: 0 <= i < |rows| ==>
            && rows[i].Event? && rows[i].names.key in st.index
            && st.index[rows[i].names.key] == (rows[i].requestSha, i + 1))
  {
    hide Verified, ClockOk, IndexOf;
    RowsKeyed(env, rows);
    IndexIsLinearSearch(rows);
  }

  lemma RowsKeyed(env: Env, rows: seq<Row>)
    requires ClockOk(env) && Verified(env, rows)
    ensures Keyed(rows)
  {
    VerifiedExactly(env, rows);
    hide Verified, ClockOk, FieldsHold, CorrectionHolds, Strip;
    forall i | 0 <= i < |rows|
      ensures rows[i].Event? && rows[i].sequence == i + 1
      ensures forall j :: 0 <= j < i ==> rows[j].Event? && rows[j].names.key != rows[i].names.key
    {
      assert RowHolds(env, rows, i);
      FieldsTexts(env, rows[i]);
    }
  }
}
