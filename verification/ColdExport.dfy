/**
 The sanitised cold export: receipts of digests on a hash chain of their own, the document
 around them, and the cold verifier, which never sees the ledger.
 */
module ColdExport {
  import opened Prelude
  import opened Json
  import opened CanonicalForm
  import opened PythonText
  import opened Records
  import opened LedgerModel
  import opened LedgerIntegrity

  const FORMAT: Text := Ascii("chlom.dail.cold-export")
  const PASS: Text := Ascii("pass")

  /** A receipt: an object with exactly the public fields, or any other JSON value. */
  datatype Receipt =
    | Receipt(
        sequence: int, eventIdSha: Text, eventTypeSha: Text, entityRefSha: Text, occurredAt: Text,
        payloadSha: Text, previousEventHash: Text, eventHash: Text, previousReceiptHash: Text, receiptHash: Text)
    | OtherReceipt(doc: JsonDoc)

  datatype Document =
    | Document(
        format: Text, schemaVersion: Text, createdAt: Text, sourceVerification: Text, eventCount: int,
        firstSequence: JsonDoc, lastSequence: JsonDoc, headHash: Text, receiptHeadHash: Text,
        receipts: seq<Receipt>, receiptsSha: Text)
    | OtherDocument(doc: JsonDoc)

  // ------------------------------------------------------------------ serialisation

  /** The receipt fields without the receipt hash, as `sort_keys` writes them. */
  const RECEIPT_KEYS: seq<Text> := [
    Ascii("entity_ref_sha256"), Ascii("event_hash"), Ascii("event_id_sha256"), Ascii("event_type_sha256"),
    Ascii("occurred_at"), Ascii("payload_sha256"), Ascii("previous_event_hash"), Ascii("previous_receipt_hash"),
    Ascii("sequence")]

  function ReceiptValues(r: Receipt): (v: seq<Doc>)
    requires r.Receipt?
    ensures |v| == 9
  {
    DigestValues(r) + LinkValues(r)
  }

  function DigestValues(r: Receipt): seq<Doc>
    requires r.Receipt?
  {
    [Str(r.entityRefSha), Str(r.eventHash), Str(r.eventIdSha), Str(r.eventTypeSha), Str(r.occurredAt)]
  }

  function LinkValues(r: Receipt): seq<Doc>
    requires r.Receipt?
  {
    [Str(r.payloadSha), Str(r.previousEventHash), Str(r.previousReceiptHash), Num(Decimal(r.sequence))]
  }

  /** The text whose digest is the receipt hash. */
  function ReceiptText(r: Receipt): Text {
    if r.Receipt? then CanonicalText(Python, Obj(Record(RECEIPT_KEYS, ReceiptValues(r)))) else []
  }

  const FULL_RECEIPT_KEYS: seq<Text> := RECEIPT_KEYS[..8] + [Ascii("receipt_hash")] + RECEIPT_KEYS[8..]

  function ReceiptDoc(r: Receipt): Doc {
    if r.Receipt? then
      var v := ReceiptValues(r);
      Obj(Record(FULL_RECEIPT_KEYS, v[..8] + [Str(r.receiptHash)] + v[8..]))
    else r.doc
  }

  function ReceiptsDoc(rs: seq<Receipt>): Doc {
    Arr(seq(|rs|, i requires 0 <= i < |rs| => ReceiptDoc(rs[i])))
  }

  function OptionalNumber(n: Option<int>): (d: Doc)
    ensures ValidDoc(d) && EncodableDoc(d)
  {
    if n.None? then Null else Num(Decimal(n.value))
  }

  /** Python's `==` between a JSON value and an integer or `None`: `true` equals 1, and so does `1.0`.
      A float below 10^16 with an integral value prints as that integer followed by `.0`. */
  predicate EqualsNumber(d: Doc, n: Option<int>) {
    match d
    case Null => n.None?
    case Bool(b) => n == Some(if b then 1 else 0)
    case Num(t) =>
      n.Some? && (t == Decimal(n.value) || (-LARGE_FLOAT < n.value < LARGE_FLOAT && t == Decimal(n.value) + Ascii(".0")))
    case _ => false
  }

  const LARGE_FLOAT: int := 10_000_000_000_000_000

  const INTEGRITY_KEYS: seq<Text> := [
    Ascii("event_count"), Ascii("first_sequence"), Ascii("head_hash"), Ascii("last_sequence"),
    Ascii("receipt_head_hash"), Ascii("source_verification")]

  const DOCUMENT_KEYS: seq<Text> := [
    Ascii("created_at"), Ascii("format"), Ascii("integrity"), Ascii("receipts"), Ascii("receipts_sha256"),
    Ascii("schema_version")]

  function IntegrityDoc(d: Document): Doc
    requires d.Document?
  {
    Obj(Record(INTEGRITY_KEYS, [
      Num(Decimal(d.eventCount)), d.firstSequence, Str(d.headHash),
      d.lastSequence, Str(d.receiptHeadHash), Str(d.sourceVerification)]))
  }

  function DocumentDoc(d: Document): Doc {
    if d.Document? then
      Obj(Record(DOCUMENT_KEYS, [
        Str(d.createdAt), Str(d.format), IntegrityDoc(d), ReceiptsDoc(d.receipts), Str(d.receiptsSha), Str(d.schemaVersion)]))
    else d.doc
  }

  function DocumentDigest(env: Env, d: Document): Option<Hash> {
    Sha256(env, CanonicalText(Python, DocumentDoc(d)))
  }

  function ReceiptsDigest(env: Env, rs: seq<Receipt>): Option<Hash> {
    Sha256(env, CanonicalText(Python, ReceiptsDoc(rs)))
  }

  // ------------------------------------------------------------------ exporting

  function EntityRef(e: Row): Text
    requires e.Event?
  {
    JoinBar([e.names.entityType, e.names.entityId,
             if e.names.entityVersion.Some? then e.names.entityVersion.value else []])
  }

  function PreviousMarker(e: Row): Text
    requires e.Event?
  {
    if e.previous.Some? then e.previous.value else GENESIS
  }

  function MakeReceipt(env: Env, e: Row, previousReceiptHash: Text): Option<Receipt>
    requires e.Event?
  {
    var id :- Sha256(env, e.eventId);
    var kind :- Sha256(env, e.names.eventType);
    var ref :- Sha256(env, EntityRef(e));
    var draft := Receipt(e.sequence, id, kind, ref, e.occurredAt, e.payloadSha, PreviousMarker(e), e.eventHash,
      previousReceiptHash, []);
    var digest :- Sha256(env, ReceiptText(draft));
    Some(draft.(receiptHash := digest))
  }

  function LastReceiptHash(rs: seq<Receipt>): Text {
    if rs == [] || !rs[|rs| - 1].Receipt? then ZERO_HASH else rs[|rs| - 1].receiptHash
  }

  /** The receipts of the rows, in order, each carrying the hash of the one before. */
  function Receipts(env: Env, rows: seq<Row>): Option<seq<Receipt>>
    requires forall i :: 0 <= i < |rows| ==> rows[i].Event?
  {
    if rows == [] then Some([])
    else
      var before :- Receipts(env, rows[..|rows| - 1]);
      var receipt :- MakeReceipt(env, rows[|rows| - 1], LastReceiptHash(before));
      Some(before + [receipt])
  }

  function ExportDocument(env: Env, rows: seq<Row>, receipts: seq<Receipt>, createdAt: Text): Document
    requires env.timestamp(createdAt).Some? && ReceiptsDigest(env, receipts).Some?
  {
    var n := |rows|;
    Document(FORMAT, SCHEMA, env.timestamp(createdAt).value, PASS, n,
      OptionalNumber(if n > 0 then Some(1) else None), OptionalNumber(if n > 0 then Some(n) else None),
      HeadHash(rows), LastReceiptHash(receipts), receipts, ReceiptsDigest(env, receipts).value)
  }

  /** The document and its out-of-band digest; `None` is an exception. */
  function Export(env: Env, rows: seq<Row>, createdAt: Text): Option<(Document, Hash)>
    requires forall i :: 0 <= i < |rows| ==> rows[i].Event?
  {
    var receipts :- Receipts(env, rows);
    if env.timestamp(createdAt).None? || ReceiptsDigest(env, receipts).None? then None
    else
      var d := ExportDocument(env, rows, receipts, createdAt);
      var digest :- DocumentDigest(env, d);
      Some((d, digest))
  }

  // ------------------------------------------------------------------ the cold verifier

  function LastEventHash(rs: seq<Receipt>): Text {
    if rs == [] || !rs[|rs| - 1].Receipt? then GENESIS else rs[|rs| - 1].eventHash
  }

  predicate ReceiptFields(r: Receipt) {
    && r.Receipt?
    && IsHash(r.eventIdSha) && IsHash(r.eventTypeSha) && IsHash(r.entityRefSha) && IsHash(r.payloadSha)
    && IsHash(r.eventHash) && IsHash(r.previousReceiptHash) && IsHash(r.receiptHash)
    && (r.previousEventHash == GENESIS || IsHash(r.previousEventHash))
  }

  predicate ReceiptLinked(env: Env, earlier: seq<Receipt>, r: Receipt) {
    && ReceiptFields(r)
    && r.sequence == |earlier| + 1
    && env.timestamp(r.occurredAt) == Some(r.occurredAt)
    && r.previousEventHash == LastEventHash(earlier)
    && r.previousReceiptHash == LastReceiptHash(earlier)
    && Sha256(env, ReceiptText(r)) == Some(r.receiptHash)
  }

  ghost predicate ReceiptChain(env: Env, rs: seq<Receipt>) {
    forall i :: 0 <= i < |rs| ==> ReceiptLinked(env, rs[..i], rs[i])
  }

  /** The checks of the document around the receipts. */
  predicate DocumentFields(env: Env, d: Document, expectedExport: Text, expectedHead: Text) {
    && IsHash(expectedExport) && IsHash(expectedHead)
    && d.Document?
    && DocumentDigest(env, d) == Some(expectedExport)
    && d.format == FORMAT && d.schemaVersion == SCHEMA
    && env.timestamp(d.createdAt) == Some(d.createdAt)
    && d.sourceVerification == PASS
    && d.eventCount == |d.receipts|
    && ReceiptsDigest(env, d.receipts) == Some(d.receiptsSha)
    && EqualsNumber(d.firstSequence, if d.receipts == [] then None else Some(1))
    && EqualsNumber(d.lastSequence, if d.receipts == [] then None else Some(|d.receipts|))
  }

  /** The document is accepted under the two anchors. */
  ghost predicate ColdAccepts(env: Env, d: Document, expectedExport: Text, expectedHead: Text) {
    && DocumentFields(env, d, expectedExport, expectedHead)
    && ReceiptChain(env, d.receipts)
    && d.headHash == expectedHead
    && d.headHash == (if d.receipts == [] then ZERO_HASH else LastEventHash(d.receipts))
    && d.receiptHeadHash == LastReceiptHash(d.receipts)
  }

  // ------------------------------------------------------------------ every verified ledger exports

  lemma AsciiEncodable(s: string)
    ensures Encodable(Ascii(s))
  {
  }

  lemma HashEncodable(h: Text)
    requires IsHash(h)
    ensures Encodable(h)
  {
  }

  /** The texts a receipt digests are encodable because the event hash was computed at all. */
  lemma EventEncodable(env: Env, earlier: seq<Row>, e: Row)
    requires ClockOk(env) && Linked(env, earlier, e)
    ensures e.Event? && Encodable(e.eventId) && Encodable(e.names.eventType) && Encodable(EntityRef(e))
    ensures Encodable(e.occurredAt) && IsHash(e.payloadSha) && IsHash(e.eventHash)
    ensures env.timestamp(e.occurredAt) == Some(e.occurredAt)
    ensures e.previous == PreviousHash(earlier) && e.sequence == |earlier| + 1
  {
    LinkedHash(env, earlier, e);
    LinkedDigest(env, earlier, e);
    hide Linked, BoundFields, HashField, EntityRef, Encodable;
    BoundFieldsParts(env, e);
    JoinEncodable(BoundFields(env, e).value);
    FieldEncodable(e.eventId, 128);
    FieldEncodable(e.names.eventType, 128);
    EntityRefEncodable(env, e);
  }

  lemma EntityRefEncodable(env: Env, e: Row)
    requires e.Event? && BoundFields(env, e).Some? && Encodable(JoinBar(BoundFields(env, e).value))
    ensures Encodable(EntityRef(e))
  {
    hide BoundFields, HashField, Encodable;
    BoundFieldsParts(env, e);
    JoinEncodable(BoundFields(env, e).value);
    FieldEncodable(e.names.entityType, 128);
    FieldEncodable(e.names.entityId, 512);
    var version := if e.names.entityVersion.Some? then e.names.entityVersion.value else [];
    assert Encodable(version) by {
      if e.names.entityVersion.Some? { FieldEncodable(version, 128); } else { AsciiEncodable(""); assert Ascii("") == []; }
    }
    JoinOfEncodable([e.names.entityType, e.names.entityId, version]);
  }

  lemma LinkedDigest(env: Env, earlier: seq<Row>, e: Row)
    requires ClockOk(env) && Linked(env, earlier, e)
    ensures e.Event? && BoundFields(env, e).Some? && Encodable(JoinBar(BoundFields(env, e).value))
    ensures IsHash(e.payloadSha) && env.timestamp(e.occurredAt) == Some(e.occurredAt) && Encodable(e.occurredAt)
    ensures e.sequence == |earlier| + 1
  {
    hide BoundFields, CorrectionShape, CanonicalText, RequestDigest, NormalizeNames, NormalizeText;
    assert Canonical(env, env.timestamp(e.occurredAt).value);
  }

  lemma FieldEncodable(t: Text, maximum: nat)
    requires HashField(t, maximum).Some? && Encodable(HashField(t, maximum).value)
    ensures Encodable(t)
  {
    StripEncodable(t);
  }

  lemma RecordEncodable(keys: seq<Text>, values: seq<Doc>)
    requires |keys| == |values|
    requires forall i :: 0 <= i < |keys| ==> Encodable(keys[i]) && EncodableDoc(values[i])
    ensures EncodableDoc(Obj(Record(keys, values)))
  {
  }

  ghost predicate EncodableReceipt(r: Receipt) {
    r.Receipt? && Encodable(r.occurredAt) && ReceiptFields(r)
  }

  lemma ReceiptValuesEncodable(r: Receipt)
    requires r.Receipt? && Encodable(r.occurredAt) && ReceiptFields(r.(receiptHash := ZERO_HASH))
    ensures forall i :: 0 <= i < 9 ==> EncodableDoc(ReceiptValues(r)[i]) && Encodable(RECEIPT_KEYS[i])
    ensures Encodable(ReceiptText(r))
  {
    HashEncodable(r.eventIdSha);
    HashEncodable(r.eventTypeSha);
    HashEncodable(r.entityRefSha);
    HashEncodable(r.payloadSha);
    HashEncodable(r.eventHash);
    HashEncodable(r.previousReceiptHash);
    AsciiEncodable("GENESIS");
    forall s: string ensures Encodable(Ascii(s)) { AsciiEncodable(s); }
    hide Encodable, Ascii, IsHash;
    RecordEncodable(RECEIPT_KEYS, ReceiptValues(r));
    CanonicalEncodable(Obj(Record(RECEIPT_KEYS, ReceiptValues(r))));
  }

  lemma MakeReceiptLinked(env: Env, rows: seq<Row>, e: Row, rs: seq<Receipt>)
    requires ClockOk(env) && Linked(env, rows, e)
    requires |rs| == |rows| && IsHash(LastReceiptHash(rs))
    requires LastEventHash(rs) == (if PreviousHash(rows).Some? then PreviousHash(rows).value else GENESIS)
    requires PreviousHash(rows).Some? ==> IsHash(PreviousHash(rows).value)
    ensures e.Event? && MakeReceipt(env, e, LastReceiptHash(rs)).Some?
    ensures var r := MakeReceipt(env, e, LastReceiptHash(rs)).value;
      ReceiptLinked(env, rs, r) && EncodableReceipt(r) && r.eventHash == e.eventHash
  {
    EventEncodable(env, rows, e);
    hide Linked, BoundFields;
    var draft := Receipt(e.sequence, env.sha(e.eventId), env.sha(e.names.eventType), env.sha(EntityRef(e)),
      e.occurredAt, e.payloadSha, PreviousMarker(e), e.eventHash, LastReceiptHash(rs), []);
    ReceiptValuesEncodable(draft);
    var r := draft.(receiptHash := env.sha(ReceiptText(draft)));
    assert ReceiptValues(r) == ReceiptValues(draft);
  }

  lemma {:induction false} ReceiptsLinked(env: Env, rows: seq<Row>)
    requires ClockOk(env) && AllLinked(env, rows)
    ensures forall i :: 0 <= i < |rows| ==> rows[i].Event?
    ensures Receipts(env, rows).Some?
    ensures var rs := Receipts(env, rows).value;
      && |rs| == |rows| && ReceiptChain(env, rs)
      && (forall i :: 0 <= i < |rs| ==> EncodableReceipt(rs[i]))
      && LastEventHash(rs) == (if PreviousHash(rows).Some? then PreviousHash(rows).value else GENESIS)
  {
    hide Linked, ReceiptLinked, MakeReceipt;
    LinkedSequence(env, rows);
    if rows != [] {
      var n := |rows| - 1;
      var init, e := rows[..n], rows[n];
      AllLinkedPrefix(env, rows, n);
      ReceiptsLinked(env, init);
      assert Linked(env, rows[..n], rows[n]);
      PreviousIsHash(env, init);
      var rs := Receipts(env, init).value;
      assert IsHash(LastReceiptHash(rs)) by {
        if rs != [] { assert EncodableReceipt(rs[|rs| - 1]); }
      }
      MakeReceiptLinked(env, init, e, rs);
      var r := MakeReceipt(env, e, LastReceiptHash(rs)).value;
      ExtendChain(env, rs, r);
    }
  }

  lemma PreviousIsHash(env: Env, rows: seq<Row>)
    requires AllLinked(env, rows)
    ensures PreviousHash(rows).Some? ==> IsHash(PreviousHash(rows).value)
    ensures PreviousHash(rows).Some? <==> rows != []
  {
    hide Linked;
    if rows != [] {
      var n := |rows| - 1;
      assert Linked(env, rows[..n], rows[n]);
      LinkedHash(env, rows[..n], rows[n]);
    }
  }

  lemma ExtendChain(env: Env, rs: seq<Receipt>, r: Receipt)
    requires ReceiptChain(env, rs) && ReceiptLinked(env, rs, r)
    ensures ReceiptChain(env, rs + [r])
  {
    hide ReceiptLinked;
    var all := rs + [r];
    forall i | 0 <= i < |all| ensures ReceiptLinked(env, all[..i], all[i]) {
      if i < |rs| {
        assert all[..i] == rs[..i];
        assert ReceiptLinked(env, rs[..i], rs[i]);
      } else {
        assert all[..i] == rs;
      }
    }
  }

  lemma ReceiptsEncodable(rs: seq<Receipt>)
    requires forall i :: 0 <= i < |rs| ==> EncodableReceipt(rs[i])
    ensures EncodableDoc(ReceiptsDoc(rs)) && Encodable(CanonicalText(Python, ReceiptsDoc(rs)))
  {
    forall i | 0 <= i < |rs| ensures EncodableDoc(ReceiptDoc(rs[i])) {
      FullReceiptEncodable(rs[i]);
    }
    CanonicalEncodable(ReceiptsDoc(rs));
  }

  lemma FullReceiptEncodable(r: Receipt)
    requires EncodableReceipt(r)
    ensures EncodableDoc(ReceiptDoc(r))
  {
    ReceiptValuesEncodable(r);
    HashEncodable(r.receiptHash);
    AsciiEncodable("receipt_hash");
    hide Encodable, Ascii, IsHash, ReceiptValues, ReceiptText;
    var v := ReceiptValues(r);
    RecordEncodable(FULL_RECEIPT_KEYS, v[..8] + [Str(r.receiptHash)] + v[8..]);
  }

  lemma IntegrityEncodable(d: Document)
    requires d.Document? && EncodableDoc(d.firstSequence) && EncodableDoc(d.lastSequence)
    requires Encodable(d.sourceVerification) && Encodable(d.headHash) && Encodable(d.receiptHeadHash)
    ensures EncodableDoc(IntegrityDoc(d))
  {
    forall s: string ensures Encodable(Ascii(s)) { AsciiEncodable(s); }
    hide Encodable, Ascii, Decimal;
    RecordEncodable(INTEGRITY_KEYS, [
      Num(Decimal(d.eventCount)), d.firstSequence, Str(d.headHash),
      d.lastSequence, Str(d.receiptHeadHash), Str(d.sourceVerification)]);
  }

  lemma DocumentKeysEncodable()
    ensures forall i :: 0 <= i < |DOCUMENT_KEYS| ==> Encodable(DOCUMENT_KEYS[i])
  {
    forall s: string ensures Encodable(Ascii(s)) { AsciiEncodable(s); }
    hide Encodable, Ascii;
  }

  lemma DocumentEncodable(d: Document)
    requires d.Document? && EncodableDoc(ReceiptsDoc(d.receipts))
    requires EncodableDoc(d.firstSequence) && EncodableDoc(d.lastSequence)
    requires Encodable(d.format) && Encodable(d.schemaVersion) && Encodable(d.createdAt) && Encodable(d.receiptsSha)
    requires Encodable(d.sourceVerification) && Encodable(d.headHash) && Encodable(d.receiptHeadHash)
    ensures Encodable(CanonicalText(Python, DocumentDoc(d)))
  {
    IntegrityEncodable(d);
    DocumentKeysEncodable();
    hide Encodable, Ascii, Decimal, IntegrityDoc, ReceiptsDoc, CanonicalText, Record;
    RecordEncodable(DOCUMENT_KEYS, [Str(d.createdAt), Str(d.format), IntegrityDoc(d),
      ReceiptsDoc(d.receipts), Str(d.receiptsSha), Str(d.schemaVersion)]);
    CanonicalEncodable(DocumentDoc(d));
  }

  /** The export of any ledger that passes `verify`, empty or not, is produced and is accepted by
      the cold verifier under its own digest and the ledger's own head. */
  lemma ExportIsAccepted(env: Env, rows: seq<Row>, createdAt: Text)
    requires ClockOk(env) && AllLinked(env, rows) && env.timestamp(createdAt).Some?
    ensures forall i :: 0 <= i < |rows| ==> rows[i].Event?
    ensures Export(env, rows, createdAt).Some?
    ensures var (d, sha) := Export(env, rows, createdAt).value; ColdAccepts(env, d, sha, HeadHash(rows))
  {
    hide Linked, Receipts, ReceiptChain, AllLinked, ColdAccepts, ReceiptsDoc, CanonicalText, ClockOk, Canonical,
      DocumentDigest, ReceiptsDigest, ExportDocument, Encodable, IsHash, HeadHash, LastReceiptHash, LastEventHash,
      EncodableDoc;
    ReceiptsReady(env, rows);
    DocumentExports(env, rows, Receipts(env, rows).value, createdAt);
  }

  lemma ReceiptsReady(env: Env, rows: seq<Row>)
    requires ClockOk(env) && AllLinked(env, rows)
    ensures forall i :: 0 <= i < |rows| ==> rows[i].Event?
    ensures Receipts(env, rows).Some?
    ensures var rs := Receipts(env, rows).value;
      && |rs| == |rows| && ReceiptChain(env, rs) && EncodableDoc(ReceiptsDoc(rs))
      && Encodable(CanonicalText(Python, ReceiptsDoc(rs)))
      && IsHash(HeadHash(rows)) && IsHash(LastReceiptHash(rs))
      && HeadHash(rows) == (if rs == [] then ZERO_HASH else LastEventHash(rs))
  {
    ReceiptsLinked(env, rows);
    hide Linked, ReceiptLinked, Receipts, ReceiptChain, ReceiptsDoc, CanonicalText, Encodable;
    var rs := Receipts(env, rows).value;
    ReceiptsEncodable(rs);
    PreviousIsHash(env, rows);
    LastReceiptIsHash(rs);
  }

  lemma LastReceiptIsHash(rs: seq<Receipt>)
    requires forall i :: 0 <= i < |rs| ==> EncodableReceipt(rs[i])
    ensures IsHash(LastReceiptHash(rs))
  {
    if rs != [] { assert EncodableReceipt(rs[|rs| - 1]); }
  }

  lemma StampEncodable(env: Env, t: Text)
    requires ClockOk(env) && env.timestamp(t).Some?
    ensures Encodable(env.timestamp(t).value) && env.timestamp(env.timestamp(t).value) == env.timestamp(t)
  {
    assert Canonical(env, env.timestamp(t).value);
  }

  lemma ExportDigests(env: Env, rows: seq<Row>, rs: seq<Receipt>, createdAt: Text)
    requires ClockOk(env) && env.timestamp(createdAt).Some?
    requires EncodableDoc(ReceiptsDoc(rs)) && Encodable(CanonicalText(Python, ReceiptsDoc(rs)))
    requires IsHash(HeadHash(rows)) && IsHash(LastReceiptHash(rs))
    ensures ReceiptsDigest(env, rs).Some? && DocumentDigest(env, ExportDocument(env, rows, rs, createdAt)).Some?
  {
    StampEncodable(env, createdAt);
    HashEncodable(HeadHash(rows));
    HashEncodable(LastReceiptHash(rs));
    HashEncodable(env.sha(CanonicalText(Python, ReceiptsDoc(rs))));
    AsciiEncodable("1.1.0");
    AsciiEncodable("pass");
    AsciiEncodable("chlom.dail.cold-export");
    hide ReceiptsDoc, Encodable, CanonicalText, DocumentDoc, IsHash, HeadHash, LastReceiptHash, Ascii;
    DocumentEncodable(ExportDocument(env, rows, rs, createdAt));
  }

  lemma DocumentExports(env: Env, rows: seq<Row>, rs: seq<Receipt>, createdAt: Text)
    requires ClockOk(env) && env.timestamp(createdAt).Some?
    requires |rs| == |rows| && ReceiptChain(env, rs) && EncodableDoc(ReceiptsDoc(rs))
    requires Encodable(CanonicalText(Python, ReceiptsDoc(rs)))
    requires IsHash(HeadHash(rows)) && IsHash(LastReceiptHash(rs))
    requires HeadHash(rows) == (if rs == [] then ZERO_HASH else LastEventHash(rs))
    ensures ReceiptsDigest(env, rs).Some?
    ensures var d := ExportDocument(env, rows, rs, createdAt);
      DocumentDigest(env, d).Some? && ColdAccepts(env, d, DocumentDigest(env, d).value, HeadHash(rows))
  {
    hide ReceiptChain, ReceiptsDoc, Encodable, CanonicalText, DocumentDigest, ReceiptsDigest, IsHash, HeadHash,
      LastReceiptHash, LastEventHash;
    ExportDigests(env, rows, rs, createdAt);
    StampEncodable(env, createdAt);
  }

  // ------------------------------------------------------------------ the receipt head binds the receipts

  lemma ReceiptKeysAscend()
    ensures Ascending(RECEIPT_KEYS)
  {
    hide Ascii, Less;
    AsciiLess("entity_ref_sha256", "event_hash", 1);
    AsciiLess("event_hash", "event_id_sha256", 6);
    AsciiLess("event_id_sha256", "event_type_sha256", 6);
    AsciiLess("event_type_sha256", "occurred_at", 0);
    AsciiLess("occurred_at", "payload_sha256", 0);
    AsciiLess("payload_sha256", "previous_event_hash", 1);
    AsciiLess("previous_event_hash", "previous_receipt_hash", 9);
    AsciiLess("previous_receipt_hash", "sequence", 0);
    AdjacentAscending(RECEIPT_KEYS);
  }

  lemma SameRecordText(keys: seq<Text>, u: seq<Doc>, v: seq<Doc>)
    requires Ascending(keys) && |keys| == |u| == |v|
    requires forall i :: 0 <= i < |keys| ==> ValidDoc(u[i]) && ValidDoc(v[i])
    requires CanonicalText(Python, Obj(Record(keys, u))) == CanonicalText(Python, Obj(Record(keys, v)))
    ensures forall i :: 0 <= i < |keys| ==> Normal(u[i]) == Normal(v[i])
  {
    hide CanonicalText, Ascending, Record, Normal, ValidDoc;
    RecordValid(keys, u);
    RecordValid(keys, v);
    CanonicalTextIsValue(Python, Obj(Record(keys, u)), Obj(Record(keys, v)));
    RecordsEqual(keys, u, v);
  }

  lemma ReceiptTextValues(r: Receipt, s: Receipt)
    requires r.Receipt? && s.Receipt? && ReceiptText(r) == ReceiptText(s)
    ensures forall i :: 0 <= i < 9 ==> Normal(ReceiptValues(r)[i]) == Normal(ReceiptValues(s)[i])
  {
    ReceiptKeysAscend();
    hide CanonicalText, Ascending, Record, Ascii, Normal;
    SameRecordText(RECEIPT_KEYS, ReceiptValues(r), ReceiptValues(s));
  }

  /** Equal receipt texts come from receipts that agree on everything but, so far, the sequence and own hash. */
  lemma ReceiptTextBinds(r: Receipt, s: Receipt)
    requires r.Receipt? && s.Receipt? && ReceiptText(r) == ReceiptText(s)
    ensures r.(sequence := 0, receiptHash := []) == s.(sequence := 0, receiptHash := [])
  {
    ReceiptTextValues(r, s);
    hide ReceiptText, Normal;
    var u, v := ReceiptValues(r), ReceiptValues(s);
    forall i | 0 <= i < 5 ensures Normal(DigestValues(r)[i]) == Normal(DigestValues(s)[i]) {
      assert u[i] == DigestValues(r)[i] && v[i] == DigestValues(s)[i];
    }
    forall i | 0 <= i < 4 ensures Normal(LinkValues(r)[i]) == Normal(LinkValues(s)[i]) {
      assert u[5 + i] == LinkValues(r)[i] && v[5 + i] == LinkValues(s)[i];
    }
    DigestValuesEqual(r, s);
    LinkValuesEqual(r, s);
  }

  lemma DigestValuesEqual(r: Receipt, s: Receipt)
    requires r.Receipt? && s.Receipt?
    requires forall i :: 0 <= i < 5 ==> Normal(DigestValues(r)[i]) == Normal(DigestValues(s)[i])
    ensures DigestValues(r) == DigestValues(s)
    ensures r.entityRefSha == s.entityRefSha && r.eventHash == s.eventHash && r.eventIdSha == s.eventIdSha
    ensures r.eventTypeSha == s.eventTypeSha && r.occurredAt == s.occurredAt
  {
    var u, v := DigestValues(r), DigestValues(s);
    assert u[0] == v[0] && u[1] == v[1] && u[2] == v[2] && u[3] == v[3] && u[4] == v[4];
  }

  lemma LinkValuesEqual(r: Receipt, s: Receipt)
    requires r.Receipt? && s.Receipt?
    requires forall i :: 0 <= i < 4 ==> Normal(LinkValues(r)[i]) == Normal(LinkValues(s)[i])
    ensures r.payloadSha == s.payloadSha && r.previousEventHash == s.previousEventHash
    ensures r.previousReceiptHash == s.previousReceiptHash
  {
    var u, v := LinkValues(r), LinkValues(s);
    assert u[0] == v[0] && u[1] == v[1] && u[2] == v[2];
  }

  ghost predicate ReceiptsCollisionFree(env: Env, a: seq<Receipt>, b: seq<Receipt>) {
    && (forall i, j :: 0 <= i < |a| && 0 <= j < |b| && env.sha(ReceiptText(a[i])) == env.sha(ReceiptText(b[j]))
          ==> ReceiptText(a[i]) == ReceiptText(b[j]))
    && (forall i :: 0 <= i < |a| ==> env.sha(ReceiptText(a[i])) != ZERO_HASH)
    && (forall j :: 0 <= j < |b| ==> env.sha(ReceiptText(b[j])) != ZERO_HASH)
  }

  lemma ChainPrefix(env: Env, rs: seq<Receipt>, n: nat)
    requires ReceiptChain(env, rs) && n <= |rs|
    ensures ReceiptChain(env, rs[..n])
  {
    hide ReceiptLinked;
    forall i | 0 <= i < n ensures ReceiptLinked(env, rs[..n][..i], rs[..n][i]) {
      assert rs[..n][..i] == rs[..i];
      assert ReceiptLinked(env, rs[..i], rs[i]);
    }
  }

  lemma LinkedReceiptHash(env: Env, earlier: seq<Receipt>, r: Receipt)
    requires ReceiptLinked(env, earlier, r)
    ensures r.Receipt? && r.receiptHash == env.sha(ReceiptText(r)) && r.sequence == |earlier| + 1
    ensures r.previousReceiptHash == LastReceiptHash(earlier)
  {
    hide ReceiptText;
  }

  /** Backwards along the receipt chain: one receipt head, one receipt list. */
  lemma {:induction false} ReceiptHeadBinds(env: Env, a: seq<Receipt>, b: seq<Receipt>)
    requires ReceiptChain(env, a) && ReceiptChain(env, b)
    requires ReceiptsCollisionFree(env, a, b) && LastReceiptHash(a) == LastReceiptHash(b)
    ensures a == b
    decreases |a| + |b|
  {
    hide ReceiptLinked, ReceiptText;
    var m, n := |a| - 1, |b| - 1;
    if a != [] { LinkedReceiptHash(env, a[..m], a[m]); }
    if b != [] { LinkedReceiptHash(env, b[..n], b[n]); }
    if a != [] && b != [] {
      ReceiptTextBinds(a[m], b[n]);
      ChainPrefix(env, a, m);
      ChainPrefix(env, b, n);
      ReceiptHeadBinds(env, a[..m], b[..n]);
      assert a == a[..m] + [a[m]] && b == b[..n] + [b[n]];
    }
  }

  /** Two accepted exports with the same receipt head have identical receipt lists. */
  lemma AcceptedExportsAgree(
      env: Env, d: Document, e: Document, exportD: Text, exportE: Text, headD: Text, headE: Text)
    requires ColdAccepts(env, d, exportD, headD) && ColdAccepts(env, e, exportE, headE)
    requires d.receiptHeadHash == e.receiptHeadHash
    requires ReceiptsCollisionFree(env, d.receipts, e.receipts)
    ensures d.receipts == e.receipts && d.headHash == e.headHash && headD == headE
  {
    hide ReceiptText, DocumentDigest, ReceiptsDigest;
    ReceiptHeadBinds(env, d.receipts, e.receipts);
  }
}
