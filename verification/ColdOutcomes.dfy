/** What a cold export holds of each row, and exactly which documents the cold verifier accepts. */
module ColdOutcomes {
  import opened Prelude
  import opened Json
  import opened CanonicalForm
  import opened PythonText
  import opened Records
  import opened LedgerModel
  import opened LedgerRuns
  import opened LedgerIntegrity
  import opened ColdExport
  import JsonSpelling

  /** The text a receipt's hash covers: each of its other fields under its own key. */
  lemma ReceiptTextSpelled(r: Receipt)
    requires r.Receipt?
    ensures ReceiptText(r) == CanonicalText(Python, Obj([
      Member(Ascii("entity_ref_sha256"), Str(r.entityRefSha)), Member(Ascii("event_hash"), Str(r.eventHash)),
      Member(Ascii("event_id_sha256"), Str(r.eventIdSha)), Member(Ascii("event_type_sha256"), Str(r.eventTypeSha)),
      Member(Ascii("occurred_at"), Str(r.occurredAt)), Member(Ascii("payload_sha256"), Str(r.payloadSha)),
      Member(Ascii("previous_event_hash"), Str(r.previousEventHash)),
      Member(Ascii("previous_receipt_hash"), Str(r.previousReceiptHash)),
      Member(Ascii("sequence"), Num(Decimal(r.sequence)))]))
  {
    hide Ascii, CanonicalText, Decimal;
    var ms := Record(RECEIPT_KEYS, ReceiptValues(r));
    assert ms == [
      Member(Ascii("entity_ref_sha256"), Str(r.entityRefSha)), Member(Ascii("event_hash"), Str(r.eventHash)),
      Member(Ascii("event_id_sha256"), Str(r.eventIdSha)), Member(Ascii("event_type_sha256"), Str(r.eventTypeSha)),
      Member(Ascii("occurred_at"), Str(r.occurredAt)), Member(Ascii("payload_sha256"), Str(r.payloadSha)),
      Member(Ascii("previous_event_hash"), Str(r.previousEventHash)),
      Member(Ascii("previous_receipt_hash"), Str(r.previousReceiptHash)),
      Member(Ascii("sequence"), Num(Decimal(r.sequence)))];
  }

  /** How a receipt is written. */
  lemma ReceiptWritten(r: Receipt)
    requires r.Receipt?
    ensures ReceiptDoc(r) == Obj([
      Member(Ascii("entity_ref_sha256"), Str(r.entityRefSha)), Member(Ascii("event_hash"), Str(r.eventHash)),
      Member(Ascii("event_id_sha256"), Str(r.eventIdSha)), Member(Ascii("event_type_sha256"), Str(r.eventTypeSha)),
      Member(Ascii("occurred_at"), Str(r.occurredAt)), Member(Ascii("payload_sha256"), Str(r.payloadSha)),
      Member(Ascii("previous_event_hash"), Str(r.previousEventHash)),
      Member(Ascii("previous_receipt_hash"), Str(r.previousReceiptHash)),
      Member(Ascii("receipt_hash"), Str(r.receiptHash)), Member(Ascii("sequence"), Num(Decimal(r.sequence)))])
  {
    hide Ascii, Decimal;
    var v := ReceiptValues(r);
    assert v[..8] + [Str(r.receiptHash)] + v[8..] == [Str(r.entityRefSha), Str(r.eventHash), Str(r.eventIdSha), Str(r.eventTypeSha),
      Str(r.occurredAt), Str(r.payloadSha), Str(r.previousEventHash), Str(r.previousReceiptHash), Str(r.receiptHash),
      Num(Decimal(r.sequence))];
  }

  lemma IntegrityWritten(d: Document)
    requires d.Document?
    ensures IntegrityDoc(d) == Obj([
      Member(Ascii("event_count"), Num(Decimal(d.eventCount))), Member(Ascii("first_sequence"), d.firstSequence),
      Member(Ascii("head_hash"), Str(d.headHash)), Member(Ascii("last_sequence"), d.lastSequence),
      Member(Ascii("receipt_head_hash"), Str(d.receiptHeadHash)),
      Member(Ascii("source_verification"), Str(d.sourceVerification))])
  {
    hide Ascii, Decimal;
  }

  /** How the document around the receipts is written. */
  lemma DocumentWritten(d: Document)
    requires d.Document?
    ensures DocumentDoc(d) == Obj([
      Member(Ascii("created_at"), Str(d.createdAt)), Member(Ascii("format"), Str(d.format)),
      Member(Ascii("integrity"), Obj([
        Member(Ascii("event_count"), Num(Decimal(d.eventCount))), Member(Ascii("first_sequence"), d.firstSequence),
        Member(Ascii("head_hash"), Str(d.headHash)), Member(Ascii("last_sequence"), d.lastSequence),
        Member(Ascii("receipt_head_hash"), Str(d.receiptHeadHash)),
        Member(Ascii("source_verification"), Str(d.sourceVerification))])),
      Member(Ascii("receipts"), ReceiptsDoc(d.receipts)), Member(Ascii("receipts_sha256"), Str(d.receiptsSha)),
      Member(Ascii("schema_version"), Str(d.schemaVersion))])
    ensures ReceiptsDoc(d.receipts).Arr? && |ReceiptsDoc(d.receipts).items| == |d.receipts|
    ensures forall i :: 0 <= i < |d.receipts| ==> ReceiptsDoc(d.receipts).items[i] == ReceiptDoc(d.receipts[i])
  {
    IntegrityWritten(d);
    hide Ascii, Decimal, IntegrityDoc, ReceiptDoc;
  }

  /** A printed integer is found equal to a number exactly when it is that number; `null` exactly to none. */
  lemma EqualsNumberExactly(k: int, n: Option<int>)
    ensures EqualsNumber(Num(Decimal(k)), n) <==> n == Some(k)
    ensures EqualsNumber(Null, n) <==> n.None?
  {
    if n.Some? { DecimalUnique(k, n.value); }
    hide Decimal;
  }

  lemma DecimalUnique(k: int, n: int)
    ensures Decimal(k) == Decimal(n) ==> k == n
    ensures Decimal(k) != Decimal(n) + Ascii(".0")
  {
    JsonSpelling.DecimalSpelled(k);
    JsonSpelling.DecimalSpelled(n);
    hide Decimal, JsonSpelling.ValueOf;
    var t := Decimal(n) + Ascii(".0");
    assert t[|t| - 2] == '.' as int;
    if Decimal(k) == Decimal(n) { assert k < 0 <==> n < 0; }
  }

  /** The receipt of a row: digests of its very id, type and entity, its own payload digest, links and time, and a hash
      over all of that which names the hash of the receipt before it. */
  ghost predicate ReceiptOf(env: Env, e: Row, previous: Text, r: Receipt) {
    && e.Event? && r.Receipt?
    && r.sequence == e.sequence && r.eventIdSha == env.sha(e.eventId) && r.eventTypeSha == env.sha(e.names.eventType)
    && r.entityRefSha == env.sha(e.names.entityType + Ascii("|") + (e.names.entityId + Ascii("|")
         + (if e.names.entityVersion.Some? then e.names.entityVersion.value else [])))
    && r.occurredAt == e.occurredAt && r.payloadSha == e.payloadSha && r.eventHash == e.eventHash
    && r.previousEventHash == (if e.previous.Some? then e.previous.value else Ascii("GENESIS"))
    && r.previousReceiptHash == previous && r.receiptHash == env.sha(ReceiptText(r))
  }

  lemma EntitySpelled(e: Row)
    requires e.Event?
    ensures EntityRef(e) == e.names.entityType + Ascii("|") + (e.names.entityId + Ascii("|")
      + (if e.names.entityVersion.Some? then e.names.entityVersion.value else []))
  {
    var t, i, v := e.names.entityType, e.names.entityId, if e.names.entityVersion.Some? then e.names.entityVersion.value else [];
    assert [t, i, v][1..] == [i, v] && [i, v][1..] == [v];
    JoinSpelled([t, i, v]);
    JoinSpelled([i, v]);
    hide JoinBar, Ascii;
    assert i + (Ascii("|") + v) == i + Ascii("|") + v;
    assert t + (Ascii("|") + (i + Ascii("|") + v)) == t + Ascii("|") + (i + Ascii("|") + v);
  }

  lemma MadeExactly(env: Env, e: Row, previous: Text)
    requires e.Event? && MakeReceipt(env, e, previous).Some?
    ensures ReceiptOf(env, e, previous, MakeReceipt(env, e, previous).value)
  {
    EntitySpelled(e);
    hide Encodable, CanonicalText, EntityRef, Ascii;
    var r := MakeReceipt(env, e, previous).value;
    assert ReceiptText(r) == ReceiptText(r.(receiptHash := []));
  }

  lemma {:induction false} ReceiptsExactly(env: Env, rows: seq<Row>)
    requires (forall i :: 0 <= i < |rows| ==> rows[i].Event?) && Receipts(env, rows).Some?
    ensures var rs := Receipts(env, rows).value;
      |rs| == |rows| && forall i :: 0 <= i < |rs| ==> ReceiptOf(env, rows[i], LastReceiptHash(rs[..i]), rs[i])
  {
    hide MakeReceipt, ReceiptOf, LastReceiptHash;
    if rows != [] {
      var n := |rows| - 1;
      ReceiptsExactly(env, rows[..n]);
      var before := Receipts(env, rows[..n]).value;
      MadeExactly(env, rows[n], LastReceiptHash(before));
      OneMoreReceipt(env, rows, before, MakeReceipt(env, rows[n], LastReceiptHash(before)).value);
    }
  }

  lemma OneMoreReceipt(env: Env, rows: seq<Row>, before: seq<Receipt>, r: Receipt)
    requires |rows| == |before| + 1 && ReceiptOf(env, rows[|before|], LastReceiptHash(before), r)
    requires forall i :: 0 <= i < |before| ==> ReceiptOf(env, rows[..|before|][i], LastReceiptHash(before[..i]), before[i])
    ensures forall i :: 0 <= i < |rows| ==> ReceiptOf(env, rows[i], LastReceiptHash((before + [r])[..i]), (before + [r])[i])
  {
    hide ReceiptOf, LastReceiptHash;
    var rs := before + [r];
    forall i | 0 <= i < |rows| ensures ReceiptOf(env, rows[i], LastReceiptHash(rs[..i]), rs[i]) {
      if i < |before| {
        assert rs[..i] == before[..i] && rs[i] == before[i] && rows[..|before|][i] == rows[i];
      } else {
        assert rs[..i] == before;
      }
    }
  }

  /** The document of an export, field by field. */
  ghost predicate DocumentOf(env: Env, rows: seq<Row>, createdAt: Text, d: Document)
    requires forall i :: 0 <= i < |rows| ==> rows[i].Event?
  {
    && d.Document? && d.format == Ascii("chlom.dail.cold-export") && d.schemaVersion == Ascii("1.1.0")
    && Some(d.createdAt) == env.timestamp(createdAt) && d.sourceVerification == Ascii("pass")
    && d.eventCount == |rows| == |d.receipts|
    && d.firstSequence == (if rows == [] then Null else Num(Decimal(1)))
    && d.lastSequence == (if rows == [] then Null else Num(Decimal(|rows|)))
    && d.headHash == (if rows == [] then ZERO_HASH else rows[|rows| - 1].eventHash)
    && d.receiptHeadHash == LastReceiptHash(d.receipts)
    && d.receiptsSha == env.sha(CanonicalText(Python, ReceiptsDoc(d.receipts)))
    && forall i :: 0 <= i < |rows| ==> ReceiptOf(env, rows[i], LastReceiptHash(d.receipts[..i]), d.receipts[i])
  }

  /** The export of a verified ledger: that document, and its digest. */
  lemma ExportOutcome(env: Env, rows: seq<Row>, createdAt: Text)
    requires ClockOk(env) && AllLinked(env, rows) && env.timestamp(createdAt).Some?
    ensures forall i :: 0 <= i < |rows| ==> rows[i].Event?
    ensures Export(env, rows, createdAt).Some?
    ensures var (d, sha) := Export(env, rows, createdAt).value;
      DocumentOf(env, rows, createdAt, d) && sha == env.sha(CanonicalText(Python, DocumentDoc(d)))
  {
    hide AllLinked, Receipts, ReceiptOf, ClockOk, Encodable, CanonicalText, ReceiptsDoc, DocumentDoc, Decimal, Ascii, ColdAccepts,
      ExportDocument, DocumentOf;
    ExportIsAccepted(env, rows, createdAt);
    ReceiptsExactly(env, rows);
    DocumentIs(env, rows, Receipts(env, rows).value, createdAt);
  }

  lemma DocumentIs(env: Env, rows: seq<Row>, rs: seq<Receipt>, createdAt: Text)
    requires (forall i :: 0 <= i < |rows| ==> rows[i].Event?) && |rs| == |rows|
    requires env.timestamp(createdAt).Some? && ReceiptsDigest(env, rs).Some?
    requires forall i :: 0 <= i < |rs| ==> ReceiptOf(env, rows[i], LastReceiptHash(rs[..i]), rs[i])
    ensures DocumentOf(env, rows, createdAt, ExportDocument(env, rows, rs, createdAt))
  {
    hide ReceiptOf, LastReceiptHash, Encodable, CanonicalText, ReceiptsDoc, Decimal, Ascii;
  }

  /** The head of a list of receipts: the last receipt hash, or sixty-four zeros without receipts. */
  lemma LastReceiptSpelled(rs: seq<Receipt>)
    ensures rs != [] && rs[|rs| - 1].Receipt? ==> LastReceiptHash(rs) == rs[|rs| - 1].receiptHash
    ensures rs == [] ==> LastReceiptHash(rs) == Repeat('0' as int, 64)
  {
  }

  /** A receipt in its place: every digest well formed, numbered by position, canonical time, both links, own hash. */
  ghost predicate ReceiptHolds(env: Env, rs: seq<Receipt>, i: nat)
    requires i < |rs|
  {
    var r := rs[i];
    && r.Receipt? && r.sequence == i + 1 && env.timestamp(r.occurredAt) == Some(r.occurredAt)
    && IsHash(r.eventIdSha) && IsHash(r.eventTypeSha) && IsHash(r.entityRefSha) && IsHash(r.payloadSha) && IsHash(r.eventHash)
    && (if i == 0 then r.previousEventHash == Ascii("GENESIS") && r.previousReceiptHash == ZERO_HASH
        else
          && rs[i - 1].Receipt? && r.previousEventHash == rs[i - 1].eventHash
          && r.previousReceiptHash == rs[i - 1].receiptHash)
    && Encodable(ReceiptText(r)) && r.receiptHash == env.sha(ReceiptText(r))
  }

  /** The fields around the receipts: the digest the document is held to, format and version, count and span, and the
      digest of the list of receipts. */
  ghost predicate DocumentHolds(env: Env, d: Document, expectedExport: Text) {
    && d.Document?
    && Encodable(CanonicalText(Python, DocumentDoc(d))) && env.sha(CanonicalText(Python, DocumentDoc(d))) == expectedExport
    && d.format == Ascii("chlom.dail.cold-export") && d.schemaVersion == Ascii("1.1.0")
    && env.timestamp(d.createdAt) == Some(d.createdAt) && d.sourceVerification == Ascii("pass")
    && d.eventCount == |d.receipts|
    && Encodable(CanonicalText(Python, ReceiptsDoc(d.receipts)))
    && env.sha(CanonicalText(Python, ReceiptsDoc(d.receipts))) == d.receiptsSha
    && EqualsNumber(d.firstSequence, if d.receipts == [] then None else Some(1))
    && EqualsNumber(d.lastSequence, if d.receipts == [] then None else Some(|d.receipts|))
  }

  /** Its head is the one expected and that of its last receipt, and so is its receipt head. */
  ghost predicate HeadsHold(d: Document, expectedHead: Text) {
    && d.Document? && d.headHash == expectedHead
    && if d.receipts == [] then d.headHash == ZERO_HASH && d.receiptHeadHash == ZERO_HASH
       else
         var last := d.receipts[|d.receipts| - 1];
         last.Receipt? && d.headHash == last.eventHash && d.receiptHeadHash == last.receiptHash
  }

  /** The cold verifier accepts a document exactly when its fields, its heads and each of its receipts hold. */
  lemma ColdAcceptsExactly(env: Env, d: Document, expectedExport: Text, expectedHead: Text)
    ensures ColdAccepts(env, d, expectedExport, expectedHead) <==>
      && IsHash(expectedExport) && IsHash(expectedHead) && DocumentHolds(env, d, expectedExport) && HeadsHold(d, expectedHead)
      && forall i :: 0 <= i < |d.receipts| ==> ReceiptHolds(env, d.receipts, i)
  {
    if d.Document? { ChainExactly(env, d.receipts); }
    DocumentExactly(env, d, expectedExport, expectedHead);
    hide ReceiptHolds, ReceiptChain, IsHash, DocumentHolds, DocumentFields, HeadsHold;
    if d.Document? && forall i :: 0 <= i < |d.receipts| ==> ReceiptHolds(env, d.receipts, i) { HeadsExactly(env, d, expectedHead); }
  }

  lemma DocumentExactly(env: Env, d: Document, expectedExport: Text, expectedHead: Text)
    ensures DocumentFields(env, d, expectedExport, expectedHead) <==>
      IsHash(expectedExport) && IsHash(expectedHead) && DocumentHolds(env, d, expectedExport)
  {
    hide IsHash, Encodable, CanonicalText, ReceiptsDoc, DocumentDoc, EqualsNumber, Ascii;
  }

  lemma HeadsExactly(env: Env, d: Document, expectedHead: Text)
    requires d.Document? && forall i :: 0 <= i < |d.receipts| ==> ReceiptHolds(env, d.receipts, i)
    ensures HeadsHold(d, expectedHead) <==>
      && d.headHash == expectedHead
      && d.headHash == (if d.receipts == [] then ZERO_HASH else LastEventHash(d.receipts))
      && d.receiptHeadHash == LastReceiptHash(d.receipts)
  {
    if d.receipts != [] {
      assert ReceiptHolds(env, d.receipts, |d.receipts| - 1);
      hide IsHash, Encodable, ReceiptText;
    }
  }

  lemma ChainExactly(env: Env, rs: seq<Receipt>)
    ensures ReceiptChain(env, rs) <==> forall i :: 0 <= i < |rs| ==> ReceiptHolds(env, rs, i)
  {
    hide ReceiptLinked, ReceiptHolds;
    if ReceiptChain(env, rs) {
      forall i | 0 <= i < |rs| ensures ReceiptHolds(env, rs, i) {
        assert ReceiptLinked(env, rs[..i], rs[i]);
        if i > 0 { assert ReceiptLinked(env, rs[..i - 1], rs[i - 1]); LinkedReceiptHash(env, rs[..i - 1], rs[i - 1]); }
        LinkedToHolds(env, rs, i);
      }
    }
    if forall i :: 0 <= i < |rs| ==> ReceiptHolds(env, rs, i) {
      forall i | 0 <= i < |rs| ensures ReceiptLinked(env, rs[..i], rs[i]) {
        assert ReceiptHolds(env, rs, i);
        if i > 0 { assert ReceiptHolds(env, rs, i - 1); }
        HoldsToLinked(env, rs, i);
      }
    }
  }

  lemma LinkedToHolds(env: Env, rs: seq<Receipt>, i: nat)
    requires i < |rs| && ReceiptLinked(env, rs[..i], rs[i]) && (i > 0 ==> rs[i - 1].Receipt?)
    ensures ReceiptHolds(env, rs, i)
  {
    hide ReceiptText, IsHash, Encodable;
    if i > 0 { assert rs[..i][i - 1] == rs[i - 1]; }
  }

  lemma HoldsToLinked(env: Env, rs: seq<Receipt>, i: nat)
    requires i < |rs| && ReceiptHolds(env, rs, i) && (i > 0 ==> ReceiptHolds(env, rs, i - 1))
    ensures ReceiptLinked(env, rs[..i], rs[i])
  {
    hide ReceiptText, Encodable, IsHash;
    if i > 0 { assert rs[..i][i - 1] == rs[i - 1]; }
    ZeroIsHash();
  }

  lemma ZeroIsHash()
    ensures IsHash(ZERO_HASH)
  {
  }
}
