/** The checkpoint pallet: a single chain of ranges over the ledger's sequence, and external anchors of its roots. */
module CheckpointModel {
  import opened Prelude

  datatype Checkpoint = Checkpoint(
    start: U64, end: U64, count: U32, firstHash: Id32, lastHash: Id32, previousRoot: Option<Id32>, root: Id32,
    signatureHash: Id32, verified: bool, rawIncluded: bool, recordHash: Id32)

  datatype Intent = Intent(
    checkpointId: Id32, root: Id32, family: Id32, network: Id32, gated: bool, rawIncluded: bool, recordHash: Id32)

  datatype Receipt = Receipt(
    intentId: Id32, root: Id32, provider: Id32, network: Id32, transactionHash: Id32, blockHash: Id32,
    receiptHash: Id32, readback: bool, recordHash: Id32)

  datatype CheckpointError =
    | InvalidIdentifier | InvalidRange | RecordAlreadyExists | PriorCheckpointMissing | PriorCheckpointMismatch
    | CheckpointMissing | IntentMissing | PrivateEvidenceForbidden | SignatureRequired | ProviderReadbackRequired
    | NetworkMismatch

  datatype State = State(
    checkpoints: map<Id32, Checkpoint>, head: Option<Id32>, intents: map<Id32, Intent>, receipts: map<Id32, Receipt>)

  const EMPTY: State := State(map[], None, map[], map[])

  predicate OneBoundary(c: Checkpoint) {
    if c.count == 1 then c.start == c.end && c.firstHash == c.lastHash else c.firstHash != c.lastHash
  }

  function RangeError(s: State, id: Id32, c: Checkpoint): Option<CheckpointError> {
    if id == ZERO_ID || c.firstHash == ZERO_ID || c.lastHash == ZERO_ID || c.root == ZERO_ID
       || c.signatureHash == ZERO_ID || c.recordHash == ZERO_ID then Some(InvalidIdentifier)
    else if !(c.start > 0 && c.end >= c.start && c.count > 0) then Some(InvalidRange)
    else if c.end - c.start + 1 > U64_MAX then Some(InvalidRange)
    else if c.count > c.end - c.start + 1 then Some(InvalidRange)
    else if !OneBoundary(c) then Some(InvalidRange)
    else if id in s.checkpoints then Some(RecordAlreadyExists)
    else if !c.verified then Some(SignatureRequired)
    else if c.rawIncluded then Some(PrivateEvidenceForbidden)
    else match s.head
      case None => if c.previousRoot.Some? then Some(PriorCheckpointMismatch) else None
      case Some(h) =>
        if h !in s.checkpoints then Some(PriorCheckpointMissing)
        else if c.start <= s.checkpoints[h].end then Some(InvalidRange)
        else if c.previousRoot != Some(s.checkpoints[h].root) then Some(PriorCheckpointMismatch)
        else None
  }

  function RecordCheckpoint(s: State, id: Id32, c: Checkpoint): State {
    if RangeError(s, id, c).Some? then s else s.(checkpoints := s.checkpoints[id := c], head := Some(id))
  }

  /** `i.root` is not an argument of the call: the pallet fills it from the checkpoint. */
  function IntentError(s: State, id: Id32, i: Intent): Option<CheckpointError> {
    if id == ZERO_ID || i.checkpointId == ZERO_ID || i.family == ZERO_ID || i.network == ZERO_ID || i.recordHash == ZERO_ID then
      Some(InvalidIdentifier)
    else if id in s.intents then Some(RecordAlreadyExists)
    else if i.rawIncluded then Some(PrivateEvidenceForbidden)
    else if i.checkpointId !in s.checkpoints then Some(CheckpointMissing)
    else None
  }

  function RecordIntent(s: State, id: Id32, i: Intent): State {
    if IntentError(s, id, i).Some? then s
    else s.(intents := s.intents[id := i.(root := s.checkpoints[i.checkpointId].root)])
  }

  function ReceiptError(s: State, id: Id32, r: Receipt): Option<CheckpointError> {
    if id == ZERO_ID || r.intentId == ZERO_ID || r.provider == ZERO_ID || r.network == ZERO_ID || r.transactionHash == ZERO_ID
       || r.blockHash == ZERO_ID || r.receiptHash == ZERO_ID || r.recordHash == ZERO_ID then Some(InvalidIdentifier)
    else if id in s.receipts then Some(RecordAlreadyExists)
    else if !r.readback then Some(ProviderReadbackRequired)
    else if r.intentId !in s.intents then Some(IntentMissing)
    else if r.network != s.intents[r.intentId].network then Some(NetworkMismatch)
    else None
  }

  function RecordReceipt(s: State, id: Id32, r: Receipt): State {
    if ReceiptError(s, id, r).Some? then s
    else s.(receipts := s.receipts[id := r.(root := s.intents[r.intentId].root)])
  }

  datatype Call =
    | CheckpointCall(id: Id32, checkpoint: Checkpoint) | IntentCall(id: Id32, intent: Intent) | ReceiptCall(id: Id32, receipt: Receipt)

  function Apply(s: State, c: Call): State {
    match c
    case CheckpointCall(id, v) => RecordCheckpoint(s, id, v)
    case IntentCall(id, i) => RecordIntent(s, id, i)
    case ReceiptCall(id, r) => RecordReceipt(s, id, r)
  }

  function Run(s: State, calls: seq<Call>): State {
    if calls == [] then s else Apply(Run(s, calls[..|calls| - 1]), calls[|calls| - 1])
  }
}
