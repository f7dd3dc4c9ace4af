/** The checkpoint pallet as it runs. */
module CheckpointPallet {
  import opened Prelude
  import opened CheckpointModel
  import Proofs = CheckpointProofs

  class CheckpointPallet {
    var checkpoints: map<Id32, Checkpoint>
    var head: Option<Id32>
    var intents: map<Id32, Intent>
    var receipts: map<Id32, Receipt>

    ghost function Storage(): State
      reads this
    {
      State(checkpoints, head, intents, receipts)
    }

    constructor ()
      ensures Storage() == EMPTY && Proofs.Valid(Storage())
    {
      checkpoints, head, intents, receipts := map[], None, map[], map[];
      new;
      Proofs.EmptyValid();
    }

    method RecordCheckpoint(id: Id32, c: Checkpoint) returns (outcome: Result<(), CheckpointError>)
      requires Proofs.Valid(Storage())
      modifies this
      ensures outcome == Outcome(RangeError(old(Storage()), id, c))
      ensures Storage() == CheckpointModel.RecordCheckpoint(old(Storage()), id, c) && Proofs.Valid(Storage())
    {
      hide Proofs.Valid;
      Proofs.CheckpointKeeps(Storage(), id, c);
      if id == ZERO_ID || c.firstHash == ZERO_ID || c.lastHash == ZERO_ID || c.root == ZERO_ID
         || c.signatureHash == ZERO_ID || c.recordHash == ZERO_ID {
        return Err(InvalidIdentifier);
      }
      if !(c.start > 0 && c.end >= c.start && c.count > 0) { return Err(InvalidRange); }
      var difference: U64 := c.end - c.start;
      if difference == U64_MAX { return Err(InvalidRange); }
      var span: U64 := difference + 1;
      if c.count > span { return Err(InvalidRange); }
      if !(if c.count == 1 then c.start == c.end && c.firstHash == c.lastHash else c.firstHash != c.lastHash) {
        return Err(InvalidRange);
      }
      if id in checkpoints { return Err(RecordAlreadyExists); }
      if !c.verified { return Err(SignatureRequired); }
      if c.rawIncluded { return Err(PrivateEvidenceForbidden); }
      match head {
        case None => if c.previousRoot.Some? { return Err(PriorCheckpointMismatch); }
        case Some(priorId) =>
          if priorId !in checkpoints { return Err(PriorCheckpointMissing); }
          var prior := checkpoints[priorId];
          if c.start <= prior.end { return Err(InvalidRange); }
          if c.previousRoot != Some(prior.root) { return Err(PriorCheckpointMismatch); }
      }
      checkpoints := checkpoints[id := c];
      head := Some(id);
      return Ok(());
    }

    method RecordAnchorIntent(id: Id32, i: Intent) returns (outcome: Result<(), CheckpointError>)
      requires Proofs.Valid(Storage())
      modifies this
      ensures outcome == Outcome(IntentError(old(Storage()), id, i))
      ensures Storage() == RecordIntent(old(Storage()), id, i) && Proofs.Valid(Storage())
    {
      hide Proofs.Valid;
      Proofs.IntentKeeps(Storage(), id, i);
      if id == ZERO_ID || i.checkpointId == ZERO_ID || i.family == ZERO_ID || i.network == ZERO_ID || i.recordHash == ZERO_ID {
        return Err(InvalidIdentifier);
      }
      if id in intents { return Err(RecordAlreadyExists); }
      if i.rawIncluded { return Err(PrivateEvidenceForbidden); }
      if i.checkpointId !in checkpoints { return Err(CheckpointMissing); }
      var checkpoint := checkpoints[i.checkpointId];
      intents := intents[id := Intent(i.checkpointId, checkpoint.root, i.family, i.network, i.gated, i.rawIncluded, i.recordHash)];
      return Ok(());
    }

    method RecordAnchorReceipt(id: Id32, r: Receipt) returns (outcome: Result<(), CheckpointError>)
      requires Proofs.Valid(Storage())
      modifies this
      ensures outcome == Outcome(ReceiptError(old(Storage()), id, r))
      ensures Storage() == RecordReceipt(old(Storage()), id, r) && Proofs.Valid(Storage())
    {
      hide Proofs.Valid;
      Proofs.ReceiptKeeps(Storage(), id, r);
      if id == ZERO_ID || r.intentId == ZERO_ID || r.provider == ZERO_ID || r.network == ZERO_ID || r.transactionHash == ZERO_ID
         || r.blockHash == ZERO_ID || r.receiptHash == ZERO_ID || r.recordHash == ZERO_ID {
        return Err(InvalidIdentifier);
      }
      if id in receipts { return Err(RecordAlreadyExists); }
      if !r.readback { return Err(ProviderReadbackRequired); }
      if r.intentId !in intents { return Err(IntentMissing); }
      var intent := intents[r.intentId];
      if r.network != intent.network { return Err(NetworkMismatch); }
      receipts := receipts[id := r.(root := intent.root)];
      return Ok(());
    }
  }
}
