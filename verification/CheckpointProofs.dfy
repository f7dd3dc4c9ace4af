/** All checkpoints ever stored form one chain of disjoint ranges, and every anchor carries its checkpoint's root. */
module CheckpointProofs {
  import opened Prelude
  import opened CheckpointModel

  ghost predicate RangeSound(c: Checkpoint) {
    0 < c.start <= c.end && 1 <= c.count <= c.end - c.start + 1 && c.verified && !c.rawIncluded && OneBoundary(c)
  }

  /** `order` lists every stored checkpoint once, ends at the head, links by root, and ascends. */
  ghost predicate Chained(s: State, order: seq<Id32>) {
    && (forall id :: id in order <==> id in s.checkpoints)
    && (forall i, j :: 0 <= i < j < |order| ==> order[i] != order[j])
    && s.head == (if order == [] then None else Some(order[|order| - 1]))
    && Linked(s, order)
  }

  ghost predicate Linked(s: State, order: seq<Id32>) {
    forall i: nat :: LinkAt(s, order, i)
  }

  ghost predicate LinkAt(s: State, order: seq<Id32>, i: nat) {
    i < |order| ==>
      && order[i] in s.checkpoints && RangeSound(s.checkpoints[order[i]])
      && (i == 0 ==> s.checkpoints[order[i]].previousRoot.None?)
      && (i > 0 ==>
            && order[i - 1] in s.checkpoints
            && s.checkpoints[order[i]].previousRoot == Some(s.checkpoints[order[i - 1]].root)
            && s.checkpoints[order[i - 1]].end < s.checkpoints[order[i]].start)
  }

  ghost predicate IntentSound(s: State, i: Intent) {
    i.checkpointId in s.checkpoints && i.root == s.checkpoints[i.checkpointId].root && !i.rawIncluded
  }

  ghost predicate ReceiptSound(s: State, r: Receipt) {
    && r.intentId in s.intents && r.network == s.intents[r.intentId].network && r.readback
    && s.intents[r.intentId].checkpointId in s.checkpoints
    && r.root == s.checkpoints[s.intents[r.intentId].checkpointId].root
  }

  ghost predicate Anchored(s: State) {
    && (forall id :: id in s.intents ==> IntentSound(s, s.intents[id]))
    && (forall id :: id in s.receipts ==> ReceiptSound(s, s.receipts[id]))
  }

  ghost predicate Valid(s: State) {
    (exists order :: Chained(s, order)) && Anchored(s)
  }

  ghost predicate Extends(s: State, t: State) {
    && (forall id :: id in s.checkpoints ==> id in t.checkpoints && t.checkpoints[id] == s.checkpoints[id])
    && (forall id :: id in s.intents ==> id in t.intents && t.intents[id] == s.intents[id])
    && (forall id :: id in s.receipts ==> id in t.receipts && t.receipts[id] == s.receipts[id])
  }

  lemma EmptyValid()
    ensures Valid(EMPTY)
  {
    assert Chained(EMPTY, []);
  }

  // ------------------------------------------------------------------ one step

  lemma ChainGrows(s: State, order: seq<Id32>, id: Id32, c: Checkpoint)
    requires Chained(s, order) && RangeError(s, id, c).None?
    ensures Chained(RecordCheckpoint(s, id, c), order + [id])
  {
    var t, later := RecordCheckpoint(s, id, c), order + [id];
    assert later[|order|] == id && forall i :: 0 <= i < |order| ==> later[i] == order[i];
    assert id !in order;
    forall i: nat ensures LinkAt(t, later, i) {
      if i < |order| { assert LinkAt(s, order, i); }
      else if i == |order| && i > 0 { assert LinkAt(s, order, i - 1); }
    }
    assert forall x :: x in later <==> x in order || x == id;
  }

  lemma CheckpointKeeps(s: State, id: Id32, c: Checkpoint)
    requires Valid(s)
    ensures Valid(RecordCheckpoint(s, id, c)) && Extends(s, RecordCheckpoint(s, id, c))
  {
    var t := RecordCheckpoint(s, id, c);
    if RangeError(s, id, c).None? {
      hide Chained;
      var order :| Chained(s, order);
      ChainGrows(s, order, id, c);
      forall i | i in t.intents ensures IntentSound(t, t.intents[i]) { assert IntentSound(s, s.intents[i]); }
      forall i | i in t.receipts ensures ReceiptSound(t, t.receipts[i]) { assert ReceiptSound(s, s.receipts[i]); }
    }
  }

  lemma SameChain(s: State, t: State)
    requires Valid(s) && t.checkpoints == s.checkpoints && t.head == s.head && Anchored(t)
    ensures Valid(t)
  {
    var order :| Chained(s, order);
    forall i: nat ensures LinkAt(t, order, i) { assert LinkAt(s, order, i); }
    assert Chained(t, order);
  }

  lemma IntentKeeps(s: State, id: Id32, i: Intent)
    requires Valid(s)
    ensures Valid(RecordIntent(s, id, i)) && Extends(s, RecordIntent(s, id, i))
  {
    hide Chained;
    var t := RecordIntent(s, id, i);
    forall k | k in t.intents ensures IntentSound(t, t.intents[k]) { if k in s.intents { assert IntentSound(s, s.intents[k]); } }
    forall k | k in t.receipts ensures ReceiptSound(t, t.receipts[k]) { assert ReceiptSound(s, s.receipts[k]); }
    SameChain(s, t);
  }

  lemma ReceiptKeeps(s: State, id: Id32, r: Receipt)
    requires Valid(s)
    ensures Valid(RecordReceipt(s, id, r)) && Extends(s, RecordReceipt(s, id, r))
  {
    hide Chained;
    var t := RecordReceipt(s, id, r);
    forall k | k in t.intents ensures IntentSound(t, t.intents[k]) { assert IntentSound(s, s.intents[k]); }
    if ReceiptError(s, id, r).None? { assert IntentSound(s, s.intents[r.intentId]); }
    forall k | k in t.receipts ensures ReceiptSound(t, t.receipts[k]) { if k in s.receipts { assert ReceiptSound(s, s.receipts[k]); } }
    SameChain(s, t);
  }

  /** Over any run there is one chain, every anchor is sound, and nothing recorded changes. */
  lemma {:induction false} RunKeeps(s: State, calls: seq<Call>)
    requires Valid(s)
    ensures Valid(Run(s, calls)) && Extends(s, Run(s, calls))
  {
    hide Valid;
    if calls != [] {
      var before := Run(s, calls[..|calls| - 1]);
      RunKeeps(s, calls[..|calls| - 1]);
      match calls[|calls| - 1] {
        case CheckpointCall(id, c) => CheckpointKeeps(before, id, c);
        case IntentCall(id, i) => IntentKeeps(before, id, i);
        case ReceiptCall(id, r) => ReceiptKeeps(before, id, r);
      }
    }
  }

  // ------------------------------------------------------------------ arithmetic over the chain

  predicate Stored(s: State, order: seq<Id32>) {
    forall i :: 0 <= i < |order| ==> order[i] in s.checkpoints
  }

  function EventCount(s: State, order: seq<Id32>): nat
    requires Stored(s, order)
  {
    if order == [] then 0 else EventCount(s, order[..|order| - 1]) + s.checkpoints[order[|order| - 1]].count
  }

  /** An earlier checkpoint ends before a later one starts. */
  lemma {:induction false} Ascending(s: State, order: seq<Id32>, i: nat, j: nat)
    requires i < j < |order| && Stored(s, order) && Linked(s, order)
    ensures s.checkpoints[order[i]].end < s.checkpoints[order[j]].start
    decreases j
  {
    assert LinkAt(s, order, j) && LinkAt(s, order, i) && LinkAt(s, order, j - 1);
    if i < j - 1 { Ascending(s, order, i, j - 1); }
  }

  lemma {:induction false} CountsFit(s: State, order: seq<Id32>)
    requires order != [] && Stored(s, order) && Linked(s, order)
    ensures EventCount(s, order) <= s.checkpoints[order[|order| - 1]].end - s.checkpoints[order[0]].start + 1
  {
    var n := |order| - 1;
    assert LinkAt(s, order, n);
    if n > 0 {
      var init := order[..n];
      forall k: nat ensures LinkAt(s, init, k) { assert LinkAt(s, order, k); }
      CountsFit(s, init);
    } else {
      assert order[..n] == [];
    }
  }

  /** What any run leaves behind: one chain of every checkpoint ending at the head, ranges disjoint
      and ascending, and event counts that together fit in what the chain spans, so in 64 bits. */
  lemma ChainOfEverything(calls: seq<Call>) returns (order: seq<Id32>)
    ensures var s := Run(EMPTY, calls);
      && Chained(s, order) && Stored(s, order)
      && (forall i, j :: 0 <= i < j < |order| ==> s.checkpoints[order[i]].end < s.checkpoints[order[j]].start)
      && EventCount(s, order) <= U64_MAX
      && (order != [] ==>
            EventCount(s, order) <= s.checkpoints[order[|order| - 1]].end - s.checkpoints[order[0]].start + 1)
  {
    var s := Run(EMPTY, calls);
    EmptyValid();
    RunKeeps(EMPTY, calls);
    order :| Chained(s, order);
    assert Stored(s, order);
    forall i, j | 0 <= i < j < |order| ensures s.checkpoints[order[i]].end < s.checkpoints[order[j]].start {
      Ascending(s, order, i, j);
    }
    if order != [] {
      CountsFit(s, order);
      assert LinkAt(s, order, 0);
    }
  }

  /** No ledger position is ever covered by two checkpoints. */
  lemma CoveredOnce(calls: seq<Call>, a: Id32, b: Id32, n: U64)
    requires a in Run(EMPTY, calls).checkpoints && b in Run(EMPTY, calls).checkpoints
    requires var s := Run(EMPTY, calls);
      s.checkpoints[a].start <= n <= s.checkpoints[a].end && s.checkpoints[b].start <= n <= s.checkpoints[b].end
    ensures a == b
  {
    var order := ChainOfEverything(calls);
    var i :| 0 <= i < |order| && order[i] == a;
    var j :| 0 <= j < |order| && order[j] == b;
  }

  /** Every receipt carries, for ever, the root of the checkpoint its intent names, on the intended network. */
  lemma ReceiptsAnchorRoots(calls: seq<Call>, later: seq<Call>, id: Id32)
    requires id in Run(EMPTY, calls).receipts
    ensures var s := Run(Run(EMPTY, calls), later);
      id in s.receipts && s.receipts[id] == Run(EMPTY, calls).receipts[id] && ReceiptSound(s, s.receipts[id])
  {
    hide Run, Chained;
    EmptyValid();
    RunKeeps(EMPTY, calls);
    RunKeeps(Run(EMPTY, calls), later);
  }

  // ------------------------------------------------------------------ what a call does

  /** A checkpoint in any state a run can reach: refused with the first check that fails, otherwise stored as given
      and made the head. */
  lemma CheckpointOutcome(s: State, id: Id32, c: Checkpoint)
    requires Valid(s)
    ensures var named := id != ZERO_ID && c.firstHash != ZERO_ID && c.lastHash != ZERO_ID && c.root != ZERO_ID
        && c.signatureHash != ZERO_ID && c.recordHash != ZERO_ID;
      var ranged := 1 <= c.start <= c.end && 1 <= c.count <= c.end - c.start + 1 <= 0xFFFF_FFFF_FFFF_FFFF
        && (c.count == 1 ==> c.start == c.end) && (c.count == 1 <==> c.firstHash == c.lastHash);
      var unused := id !in s.checkpoints;
      var after := s.head.Some? && s.head.value in s.checkpoints ==> s.checkpoints[s.head.value].end < c.start;
      var linked := c.previousRoot
        == if s.head.Some? && s.head.value in s.checkpoints then Some(s.checkpoints[s.head.value].root) else None;
      match RangeError(s, id, c)
      case Some(InvalidIdentifier) => !named
      case Some(InvalidRange) => named && (!ranged || (unused && c.verified && !c.rawIncluded && !after))
      case Some(RecordAlreadyExists) => named && ranged && !unused
      case Some(SignatureRequired) => named && ranged && unused && !c.verified
      case Some(PrivateEvidenceForbidden) => named && ranged && unused && c.verified && c.rawIncluded
      case Some(PriorCheckpointMismatch) => named && ranged && unused && c.verified && !c.rawIncluded && after && !linked
      case Some(_) => false
      case None => named && ranged && unused && c.verified && !c.rawIncluded && after && linked
    ensures RangeError(s, id, c).None? ==>
      RecordCheckpoint(s, id, c) == State(s.checkpoints[id := c], Some(id), s.intents, s.receipts)
    ensures RangeError(s, id, c).Some? ==> RecordCheckpoint(s, id, c) == s
  {
    var order :| Chained(s, order);
    if order != [] { assert LinkAt(s, order, |order| - 1); }
  }

  /** An anchor intent: an accepted one holds the call's fields and the root of the checkpoint it names. */
  lemma IntentOutcome(s: State, id: Id32, i: Intent)
    ensures var named := id != ZERO_ID && i.checkpointId != ZERO_ID && i.family != ZERO_ID && i.network != ZERO_ID
        && i.recordHash != ZERO_ID;
      var unused := id !in s.intents;
      match IntentError(s, id, i)
      case Some(InvalidIdentifier) => !named
      case Some(RecordAlreadyExists) => named && !unused
      case Some(PrivateEvidenceForbidden) => named && unused && i.rawIncluded
      case Some(CheckpointMissing) => named && unused && !i.rawIncluded && i.checkpointId !in s.checkpoints
      case Some(_) => false
      case None => named && unused && !i.rawIncluded && i.checkpointId in s.checkpoints
    ensures var t := RecordIntent(s, id, i);
      && t.checkpoints == s.checkpoints && t.head == s.head && t.receipts == s.receipts
      && if IntentError(s, id, i).Some? then t.intents == s.intents
         else
           && id in t.intents && t.intents == s.intents[id := t.intents[id]] && i.checkpointId in s.checkpoints
           && var v := t.intents[id];
              v.checkpointId == i.checkpointId && v.root == s.checkpoints[i.checkpointId].root && v.family == i.family
              && v.network == i.network && v.gated == i.gated && !v.rawIncluded && v.recordHash == i.recordHash
  {
  }

  /** An anchor receipt: an accepted one holds the call's fields and the root of the intent it names. */
  lemma ReceiptOutcome(s: State, id: Id32, r: Receipt)
    ensures var named := id != ZERO_ID && r.intentId != ZERO_ID && r.provider != ZERO_ID && r.network != ZERO_ID
        && r.transactionHash != ZERO_ID && r.blockHash != ZERO_ID && r.receiptHash != ZERO_ID && r.recordHash != ZERO_ID;
      var unused := id !in s.receipts;
      var intended := r.intentId in s.intents;
      match ReceiptError(s, id, r)
      case Some(InvalidIdentifier) => !named
      case Some(RecordAlreadyExists) => named && !unused
      case Some(ProviderReadbackRequired) => named && unused && !r.readback
      case Some(IntentMissing) => named && unused && r.readback && !intended
      case Some(NetworkMismatch) => named && unused && r.readback && intended && s.intents[r.intentId].network != r.network
      case Some(_) => false
      case None => named && unused && r.readback && intended && s.intents[r.intentId].network == r.network
    ensures var t := RecordReceipt(s, id, r);
      && t.checkpoints == s.checkpoints && t.head == s.head && t.intents == s.intents
      && if ReceiptError(s, id, r).Some? then t.receipts == s.receipts
         else
           && id in t.receipts && t.receipts == s.receipts[id := t.receipts[id]] && r.intentId in s.intents
           && var v := t.receipts[id];
              v.intentId == r.intentId && v.root == s.intents[r.intentId].root && v.provider == r.provider
              && v.network == r.network && v.transactionHash == r.transactionHash && v.blockHash == r.blockHash
              && v.receiptHash == r.receiptHash && v.readback && v.recordHash == r.recordHash
  {
  }
}
