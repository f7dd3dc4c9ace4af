/**
 `WalletConnection` as the object it is: one method for each stretch of code between two
 awaits, updating the fields in the order the source does. Each one takes the step of the
 transition system that bears its name and so keeps the shown state and the proofs in agreement.
 */
module Wallet {
  import opened Prelude
  import Model = WalletModel
  import Proofs = WalletProofs

  class WalletConnection {
    var epoch: nat
    var provider: Option<nat>
    var address: Option<string>
    var chain: Option<string>
    var pending: bool
    var challenge: Option<Model.Challenge>
    var observation: Option<Model.Observation>
    /** The suspended calls, by number; the runtime's own bookkeeping of what awaits what. */
    var calls: map<nat, Model.Frame>
    var nextCall: nat
    var nextRef: nat

    function Snapshot(): Model.State
      reads this
    {
      Model.State(epoch, provider, address, chain, pending, challenge, observation, calls, nextCall, nextRef)
    }

    ghost predicate Valid()
      reads this
    {
      Proofs.Invariant(Snapshot())
    }

    constructor ()
      ensures Valid() && Snapshot() == Model.INITIAL
    {
      epoch, provider, address, chain, pending := 0, None, None, None, false;
      challenge, observation, calls, nextCall, nextRef := None, None, map[], 0, 0;
    }

    method Suspend(f: Model.Frame)
      modifies this`calls, this`nextCall
      ensures Snapshot() == Model.Suspend(old(Snapshot()), f)
    {
      calls := calls[nextCall := f];
      nextCall := nextCall + 1;
    }

    method Connect(selected: Option<nat>)
      requires Valid()
      modifies this
      ensures Valid() && Snapshot() == Model.Step(old(Snapshot()), Model.Connect(selected))
    {
      hide Proofs.Invariant;
      Proofs.StepKeeps(Snapshot(), Model.Connect(selected));
      if pending || selected.None? { return; }
      provider := None;
      epoch := epoch + 1;
      pending, address, chain, challenge, observation := true, None, None, None, None;
      Suspend(Model.ConnectAccounts(epoch, selected.value));
    }

    method AccountsArrive(call: nat, reply: Model.WalletReply)
      requires Valid()
      modifies this
      ensures Valid() && Snapshot() == Model.Step(old(Snapshot()), Model.AccountsArrive(call, reply))
    {
      hide Proofs.Invariant;
      Proofs.StepKeeps(Snapshot(), Model.AccountsArrive(call, reply));
      if call !in calls || !calls[call].ConnectAccounts? { return; }
      var f := calls[call];
      if reply.Failed? || f.epoch != epoch || Model.AddressOf(reply.text).None? {
        calls := calls - {call};
        pending := false;
        return;
      }
      calls := calls[call := Model.ConnectChain(f.epoch, f.provider, Model.AddressOf(reply.text).value)];
    }

    method ChainArrives(call: nat, reply: Model.WalletReply)
      requires Valid()
      modifies this
      ensures Valid() && Snapshot() == Model.Step(old(Snapshot()), Model.ChainArrives(call, reply))
    {
      hide Proofs.Invariant;
      Proofs.StepKeeps(Snapshot(), Model.ChainArrives(call, reply));
      if call !in calls || !calls[call].ConnectChain? { return; }
      var f := calls[call];
      if reply.Failed? || Model.NormalizeChain(reply.text).None? || f.epoch != epoch {
        calls := calls - {call};
        pending := false;
        return;
      }
      provider := Some(f.provider);
      address, chain := Some(f.account), Model.NormalizeChain(reply.text);
      calls := calls[call := Model.ConnectRefresh(Model.BeginRefresh(Snapshot()))];
    }

    method Disconnect()
      requires Valid()
      modifies this
      ensures Valid() && Snapshot() == Model.Step(old(Snapshot()), Model.Disconnect)
    {
      hide Proofs.Invariant;
      Proofs.StepKeeps(Snapshot(), Model.Disconnect);
      epoch := epoch + 1;
      provider := None;
      address, chain, pending, challenge, observation := None, None, false, None, None;
    }

    method AccountsChanged(account: Option<string>)
      requires Valid()
      modifies this
      ensures Valid() && Snapshot() == Model.Step(old(Snapshot()), Model.AccountsChanged(account))
    {
      hide Proofs.Invariant;
      Proofs.StepKeeps(Snapshot(), Model.AccountsChanged(account));
      epoch := epoch + 1;
      address := Model.AddressOf(account);
      challenge := None;
      observation := None;
      if address.Some? { BeginBackgroundRefresh(); }
    }

    method ChainChanged(id: Option<string>)
      requires Valid()
      modifies this
      ensures Valid() && Snapshot() == Model.Step(old(Snapshot()), Model.ChainChanged(id))
    {
      hide Proofs.Invariant;
      Proofs.StepKeeps(Snapshot(), Model.ChainChanged(id));
      epoch := epoch + 1;
      challenge := None;
      observation := None;
      chain := Model.NormalizeChain(id);
      if address.Some? { BeginBackgroundRefresh(); }
    }

    method BeginBackgroundRefresh()
      modifies this`calls, this`nextCall
      ensures Snapshot() == Model.Step(old(Snapshot()), Model.StartRefresh)
    {
      Suspend(Model.Background(if provider.None? || address.None? then Model.Returned else Model.AwaitWallet(epoch)));
    }

    /** The segment of `refresh` after both wallet answers, inside whichever call awaits it. */
    method RefreshArrives(call: nat, answer: Model.RefreshReply)
      requires Valid()
      modifies this
      ensures Valid() && Snapshot() == Model.Step(old(Snapshot()), Model.RefreshArrives(call, answer))
    {
      hide Proofs.Invariant;
      Proofs.StepKeeps(Snapshot(), Model.RefreshArrives(call, answer));
      if call !in calls || !Model.RefreshOf(calls[call]).AwaitWallet? { return; }
      var f := calls[call];
      if answer.RefreshFailed? {
        calls := calls[call := Model.WithRefresh(f, Model.Threw)];
        return;
      }
      if Model.RefreshOf(f).epoch != epoch {
        calls := calls[call := Model.WithRefresh(f, Model.Returned)];
        return;
      }
      var a, c := Model.AddressOf(answer.account), Model.NormalizeChain(answer.chain);
      if c.None? {
        calls := calls[call := Model.WithRefresh(f, Model.Threw)];
        return;
      }
      if Model.Fold(a) != Model.Fold(address) || c != chain {
        epoch := epoch + 1;
        challenge := None;
        observation := None;
      }
      address, chain := a, c;
      calls := calls[call := Model.WithRefresh(f, if address.Some? then Model.AwaitBalance else Model.Returned)];
    }

    method BalanceArrives(call: nat)
      requires Valid()
      modifies this
      ensures Valid() && Snapshot() == Model.Step(old(Snapshot()), Model.BalanceArrives(call))
    {
      hide Proofs.Invariant;
      Proofs.StepKeeps(Snapshot(), Model.BalanceArrives(call));
      if call in calls && Model.RefreshOf(calls[call]).AwaitBalance? {
        calls := calls[call := Model.WithRefresh(calls[call], Model.Returned)];
      }
    }

    method PrepareProof()
      requires Valid()
      modifies this
      ensures Valid() && Snapshot() == Model.Step(old(Snapshot()), Model.PrepareProof)
    {
      hide Proofs.Invariant;
      Proofs.StepKeeps(Snapshot(), Model.PrepareProof);
      if provider.None? || address.None? { return; }
      Suspend(Model.PrepareRefresh(Model.BeginRefresh(Snapshot())));
    }

    method ChallengeArrives(call: nat, reply: Model.ServiceReply)
      requires Valid()
      modifies this
      ensures Valid() && Snapshot() == Model.Step(old(Snapshot()), Model.ChallengeArrives(call, reply))
    {
      hide Proofs.Invariant;
      Proofs.StepKeeps(Snapshot(), Model.ChallengeArrives(call, reply));
      if call !in calls || !calls[call].PrepareChallenge? { return; }
      var captured := calls[call].epoch;
      calls := calls - {call};
      if reply.ServiceFailed? || captured != epoch { return; }
      if reply.address.None? || address.None? || Model.Fold(reply.address) != Model.Fold(address)
         || reply.chain != chain || !reply.wellFormed {
        return;
      }
      challenge := Some(Model.Challenge(nextRef, reply.address.value, reply.chain));
      nextRef := nextRef + 1;
      observation := None;
    }

    method SignProof(expired: bool)
      requires Valid()
      modifies this
      ensures Valid() && Snapshot() == Model.Step(old(Snapshot()), Model.SignProof(expired))
    {
      hide Proofs.Invariant;
      Proofs.StepKeeps(Snapshot(), Model.SignProof(expired));
      if challenge.None? || provider.None? || expired { return; }
      Suspend(Model.SignRefresh(challenge.value, Model.BeginRefresh(Snapshot())));
    }

    method SignatureArrives(call: nat, signed: bool)
      requires Valid()
      modifies this
      ensures Valid() && Snapshot() == Model.Step(old(Snapshot()), Model.SignatureArrives(call, signed))
    {
      hide Proofs.Invariant;
      Proofs.StepKeeps(Snapshot(), Model.SignatureArrives(call, signed));
      if call !in calls || !calls[call].SignSignature? { return; }
      var f := calls[call];
      if !signed || f.epoch != epoch {
        calls := calls - {call};
        return;
      }
      calls := calls[call := Model.SignRecheck(f.challenge, f.epoch, f.address, Model.BeginRefresh(Snapshot()))];
    }

    method VerificationArrives(call: nat, reply: Model.ServiceReply)
      requires Valid()
      modifies this
      ensures Valid() && Snapshot() == Model.Step(old(Snapshot()), Model.VerificationArrives(call, reply))
    {
      hide Proofs.Invariant;
      Proofs.StepKeeps(Snapshot(), Model.VerificationArrives(call, reply));
      if call !in calls || !calls[call].SignVerify? { return; }
      var f := calls[call];
      calls := calls - {call};
      if reply.ServiceFailed? || f.epoch != epoch { return; }
      if reply.address.None? || f.address.None? || Model.Fold(reply.address) != Model.Fold(f.address)
         || reply.chain != chain || !reply.wellFormed {
        return;
      }
      observation := Some(Model.Observation(reply.address.value, reply.chain));
      challenge := None;
    }

    /** What runs after an awaited `refresh` has returned or thrown. */
    method Resume(call: nat)
      requires Valid()
      modifies this
      ensures Valid() && Snapshot() == Model.Step(old(Snapshot()), Model.Resume(call))
    {
      hide Proofs.Invariant;
      Proofs.StepKeeps(Snapshot(), Model.Resume(call));
      if call !in calls { return; }
      var f := calls[call];
      var r := Model.RefreshOf(f);
      match f {
        case ConnectRefresh(_) =>
          if r.Returned? || r.Threw? {
            calls := calls - {call};
            pending := false;
          }
        case Background(_) =>
          if r.Returned? || r.Threw? { calls := calls - {call}; }
        case PrepareRefresh(_) =>
          if r.Returned? && address.Some? {
            calls := calls[call := Model.PrepareChallenge(epoch)];
          } else if r.Returned? || r.Threw? {
            calls := calls - {call};
          }
        case SignRefresh(c, _) =>
          if r.Returned? && challenge == Some(c) && provider.Some? {
            calls := calls[call := Model.SignSignature(c, epoch, address)];
          } else if r.Returned? || r.Threw? {
            calls := calls - {call};
          }
        case SignRecheck(c, e, a, _) =>
          if r.Returned? && e == epoch && challenge == Some(c) {
            calls := calls[call := Model.SignVerify(c, e, a)];
          } else if r.Returned? || r.Threw? {
            calls := calls - {call};
          }
        case _ =>
      }
    }
  }
}
