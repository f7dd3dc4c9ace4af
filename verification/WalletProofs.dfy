/**
 Safety of the wallet connection over every interleaving: what is shown as proved always
 belongs to the shown account and network, and a stored observation was signed for by the
 account it names with nothing having changed in between.
 */
module WalletProofs {
  import opened Prelude
  import opened WalletModel

  // ------------------------------------------------------------------ the invariant

  /** A held challenge or observation agrees with the shown address, ignoring case, and chain. */
  ghost predicate Agrees(s: State) {
    && (s.challenge.Some? ==>
          Fold(Some(s.challenge.value.address)) == Fold(s.address) && s.challenge.value.chain == s.chain)
    && (s.observation.Some? ==>
          Fold(Some(s.observation.value.address)) == Fold(s.address) && s.observation.value.chain == s.chain)
  }

  ghost predicate Connecting(f: Frame, epoch: nat) {
    (f.ConnectAccounts? || f.ConnectChain?) && f.epoch == epoch
  }

  ghost predicate Signing(f: Frame) {
    f.SignSignature? || f.SignRecheck? || f.SignVerify?
  }

  /** A frame whose later segment will act on the state if the epoch is still `epoch`. */
  ghost predicate ActsAt(f: Frame, epoch: nat) {
    || (f.PrepareChallenge? && f.epoch == epoch)
    || (Signing(f) && f.epoch == epoch)
    || (RefreshOf(f).AwaitWallet? && RefreshOf(f).epoch == epoch)
  }

  ghost predicate FrameOk(s: State, f: Frame) {
    && (f.ConnectAccounts? || f.ConnectChain? || f.PrepareChallenge? || Signing(f) ==> f.epoch <= s.epoch)
    && (RefreshOf(f).AwaitWallet? ==> RefreshOf(f).epoch <= s.epoch)
    && (Signing(f) && f.epoch == s.epoch ==> f.address.Some? && Fold(f.address) == Fold(s.address))
  }

  /** While a connect of the current epoch is under way nothing is shown and nothing else can act. */
  ghost predicate ConnectAlone(s: State, call: nat) {
    call in s.calls && Connecting(s.calls[call], s.epoch) ==>
      && s.address.None? && s.challenge.None? && s.observation.None?
      && (forall c :: c in s.calls ==> !ActsAt(s.calls[c], s.epoch))
      && (forall c :: c in s.calls && Connecting(s.calls[c], s.epoch) ==> c == call)
  }

  ghost predicate Invariant(s: State) {
    && Agrees(s)
    && (forall c :: c in s.calls ==> c < s.nextCall && FrameOk(s, s.calls[c]))
    && (forall c :: c in s.calls ==> ConnectAlone(s, c))
  }

  lemma InitialInvariant()
    ensures Invariant(INITIAL)
  {
  }

  // ------------------------------------------------------------------ steps keep it

  /** Nothing suspended acts once the epoch has moved on. */
  lemma EpochMoves(s: State, t: State)
    requires Invariant(s) && t.epoch > s.epoch && t.calls == s.calls && t.nextCall == s.nextCall && Agrees(t)
    ensures Invariant(t)
    ensures forall c :: c in t.calls ==> !ActsAt(t.calls[c], t.epoch) && !Connecting(t.calls[c], t.epoch)
  {
    forall c | c in t.calls
      ensures FrameOk(t, t.calls[c]) && !ActsAt(t.calls[c], t.epoch) && !Connecting(t.calls[c], t.epoch)
    {
      assert FrameOk(s, s.calls[c]);
    }
  }

  /** The state may change under the suspended frames as long as the shown account does not. */
  lemma SameAccount(s: State, t: State)
    requires Invariant(s) && t.epoch == s.epoch && t.calls == s.calls && t.nextCall == s.nextCall && Agrees(t)
    requires Fold(t.address) == Fold(s.address)
    requires t.challenge.Some? || t.observation.Some? ==> s.address.Some?
    ensures Invariant(t)
  {
    forall c | c in t.calls ensures FrameOk(t, t.calls[c]) && ConnectAlone(t, c) {
      assert FrameOk(s, s.calls[c]) && ConnectAlone(s, c);
    }
  }

  /** A frame that starts no connect may be added or replaced when no connect of this epoch is under way. */
  lemma PlaceFrame(s: State, call: nat, f: Frame)
    requires Invariant(s) && FrameOk(s, f) && !Connecting(f, s.epoch)
    requires call <= s.nextCall
    requires ActsAt(f, s.epoch) ==> s.address.Some?
    ensures Invariant(s.(calls := s.calls[call := f], nextCall := if call == s.nextCall then call + 1 else s.nextCall))
  {
    var t := s.(calls := s.calls[call := f], nextCall := if call == s.nextCall then call + 1 else s.nextCall);
    forall c | c in t.calls ensures c < t.nextCall && FrameOk(t, t.calls[c]) && ConnectAlone(t, c) {
      if c != call { assert FrameOk(s, s.calls[c]) && ConnectAlone(s, c); }
    }
  }

  lemma DropFrame(s: State, call: nat)
    requires Invariant(s)
    ensures Invariant(Finish(s, call))
  {
    var t := Finish(s, call);
    forall c | c in t.calls ensures c < t.nextCall && FrameOk(t, t.calls[c]) && ConnectAlone(t, c) {
      assert FrameOk(s, s.calls[c]) && ConnectAlone(s, c);
    }
  }

  lemma BeginRefreshOk(s: State)
    ensures BeginRefresh(s).AwaitWallet? ==> s.address.Some? && BeginRefresh(s).epoch == s.epoch
  {
  }

  lemma ConnectKeeps(s: State, selected: Option<nat>)
    requires Invariant(s)
    ensures Invariant(ConnectCall(s, selected))
  {
    if !s.pending && selected.Some? {
      var t := s.(epoch := s.epoch + 1, provider := None, address := None, chain := None, pending := true,
                  challenge := None, observation := None);
      EpochMoves(s, t);
      var u := ConnectCall(s, selected);
      forall c | c in u.calls ensures c < u.nextCall && FrameOk(u, u.calls[c]) && ConnectAlone(u, c) {
        if c != s.nextCall { assert FrameOk(t, t.calls[c]); }
      }
    }
  }

  lemma AccountsArrivalKeeps(s: State, call: nat, reply: WalletReply)
    requires Invariant(s)
    ensures Invariant(AccountsArrival(s, call, reply))
  {
    DropFrame(s, call);
    if call in s.calls && s.calls[call].ConnectAccounts? {
      var t := AccountsArrival(s, call, reply);
      if call in t.calls {
        assert FrameOk(s, s.calls[call]) && ConnectAlone(s, call);
        forall c | c in t.calls ensures c < t.nextCall && FrameOk(t, t.calls[c]) && ConnectAlone(t, c) {
          assert FrameOk(s, s.calls[c]) && ConnectAlone(s, c);
        }
      } else {
        SameAccount(Finish(s, call), t);
      }
    }
  }

  lemma ChainArrivalKeeps(s: State, call: nat, reply: WalletReply)
    requires Invariant(s)
    ensures Invariant(ChainArrival(s, call, reply))
  {
    DropFrame(s, call);
    if call in s.calls && s.calls[call].ConnectChain? {
      var t := ChainArrival(s, call, reply);
      if call in t.calls {
        assert ConnectAlone(s, call);
        forall c | c in t.calls ensures c < t.nextCall && FrameOk(t, t.calls[c]) && ConnectAlone(t, c) {
          assert FrameOk(s, s.calls[c]) && !ActsAt(s.calls[c], s.epoch);
        }
      } else {
        SameAccount(Finish(s, call), t);
      }
    }
  }

  lemma EventKeeps(s: State, t: State)
    requires Invariant(s) && t.epoch > s.epoch && t.calls == s.calls && t.nextCall == s.nextCall
    requires t.challenge.None? && t.observation.None?
    ensures Invariant(t) && Invariant(AfterEvent(t))
  {
    EpochMoves(s, t);
    BeginRefreshOk(t);
    PlaceFrame(t, t.nextCall, Background(BeginRefresh(t)));
  }

  lemma RefreshArriveKeeps(s: State, call: nat, answer: RefreshReply)
    requires Invariant(s)
    ensures Invariant(RefreshArrive(s, call, answer))
  {
    if call in s.calls && RefreshOf(s.calls[call]).AwaitWallet? {
      var f := s.calls[call];
      assert FrameOk(s, f);
      var (t, r) := AfterWallet(s, RefreshOf(f).epoch, answer);
      if t.epoch > s.epoch { EpochMoves(s, t); } else { SameAccountOrSame(s, t, call); }
      assert FrameOk(t, f);
      assert ActsAt(WithRefresh(f, r), t.epoch) ==> t.address.Some?;
      PlaceFrame(t, call, WithRefresh(f, r));
    }
  }

  lemma SameAccountOrSame(s: State, t: State, call: nat)
    requires Invariant(s) && call in s.calls && RefreshOf(s.calls[call]).AwaitWallet?
    requires exists answer :: t == AfterWallet(s, RefreshOf(s.calls[call]).epoch, answer).0
    requires t.epoch == s.epoch
    ensures Invariant(t) && t.calls == s.calls && t.nextCall == s.nextCall
  {
    if t != s {
      SameAccount(s, t);
    }
  }

  lemma ChallengeArrivalKeeps(s: State, call: nat, reply: ServiceReply)
    requires Invariant(s)
    ensures Invariant(ChallengeArrival(s, call, reply))
  {
    DropFrame(s, call);
    if call in s.calls && s.calls[call].PrepareChallenge? {
      SameAccount(Finish(s, call), ChallengeArrival(s, call, reply));
    }
  }

  lemma SignatureArrivalKeeps(s: State, call: nat, signed: bool)
    requires Invariant(s)
    ensures Invariant(SignatureArrival(s, call, signed))
  {
    DropFrame(s, call);
    if call in s.calls && s.calls[call].SignSignature? {
      var f := s.calls[call];
      assert FrameOk(s, f);
      BeginRefreshOk(s);
      if signed && f.epoch == s.epoch {
        PlaceFrame(s, call, SignRecheck(f.challenge, f.epoch, f.address, BeginRefresh(s)));
      }
    }
  }

  lemma VerificationArrivalKeeps(s: State, call: nat, reply: ServiceReply)
    requires Invariant(s)
    ensures Invariant(VerificationArrival(s, call, reply))
  {
    DropFrame(s, call);
    if call in s.calls && s.calls[call].SignVerify? {
      assert FrameOk(s, s.calls[call]);
      SameAccount(Finish(s, call), VerificationArrival(s, call, reply));
    }
  }

  lemma ResumeKeeps(s: State, call: nat)
    requires Invariant(s)
    ensures Invariant(ResumeCall(s, call))
  {
    DropFrame(s, call);
    if call in s.calls {
      var f := s.calls[call];
      assert FrameOk(s, f);
      var t := ResumeCall(s, call);
      if call !in t.calls {
        SameAccount(Finish(s, call), t);
      } else if t != s {
        PlaceFrame(s, call, t.calls[call]);
      }
    }
  }

  lemma BalanceArriveKeeps(s: State, call: nat)
    requires Invariant(s)
    ensures Invariant(BalanceArrive(s, call))
  {
    if call in s.calls && RefreshOf(s.calls[call]).AwaitBalance? {
      assert FrameOk(s, s.calls[call]);
      PlaceFrame(s, call, WithRefresh(s.calls[call], Returned));
    }
  }

  lemma CallKeeps(s: State, expired: bool)
    requires Invariant(s)
    ensures Invariant(SignCall(s, expired)) && Invariant(PrepareCall(s))
    ensures Invariant(Suspend(s, Background(BeginRefresh(s))))
  {
    BeginRefreshOk(s);
    PlaceFrame(s, s.nextCall, Background(BeginRefresh(s)));
    PlaceFrame(s, s.nextCall, PrepareRefresh(BeginRefresh(s)));
    if s.challenge.Some? {
      PlaceFrame(s, s.nextCall, SignRefresh(s.challenge.value, BeginRefresh(s)));
    }
  }

  lemma StepKeeps(s: State, a: Action)
    requires Invariant(s)
    ensures Invariant(Step(s, a))
  {
    hide Invariant, ConnectCall, AccountsArrival, ChainArrival, RefreshArrive, BalanceArrive, ResumeCall,
      ChallengeArrival, SignatureArrival, VerificationArrival;
    match a
    case Connect(selected) => ConnectKeeps(s, selected);
    case Disconnect => EventKeeps(s, DisconnectCall(s));
    case AccountsChanged(account) =>
      EventKeeps(s, s.(epoch := s.epoch + 1, address := AddressOf(account), challenge := None, observation := None));
    case ChainChanged(chain) =>
      EventKeeps(s, s.(epoch := s.epoch + 1, chain := NormalizeChain(chain), challenge := None, observation := None));
    case StartRefresh => CallKeeps(s, true);
    case PrepareProof => CallKeeps(s, true);
    case SignProof(expired) => CallKeeps(s, expired);
    case AccountsArrive(call, reply) => AccountsArrivalKeeps(s, call, reply);
    case ChainArrives(call, reply) => ChainArrivalKeeps(s, call, reply);
    case RefreshArrives(call, answer) => RefreshArriveKeeps(s, call, answer);
    case BalanceArrives(call) => BalanceArriveKeeps(s, call);
    case Resume(call) => ResumeKeeps(s, call);
    case ChallengeArrives(call, reply) => ChallengeArrivalKeeps(s, call, reply);
    case SignatureArrives(call, signed) => SignatureArrivalKeeps(s, call, signed);
    case VerificationArrives(call, reply) => VerificationArrivalKeeps(s, call, reply);
  }

  lemma {:induction false} RunKeeps(s: State, actions: seq<Action>)
    requires Invariant(s)
    ensures Invariant(Run(s, actions))
  {
    if actions != [] {
      RunKeeps(s, actions[..|actions| - 1]);
      StepKeeps(Run(s, actions[..|actions| - 1]), actions[|actions| - 1]);
    }
  }

  /** In every interleaving from the initial state, what is held agrees with what is shown. */
  lemma AlwaysAgrees(actions: seq<Action>)
    ensures Agrees(Run(INITIAL, actions))
  {
    InitialInvariant();
    RunKeeps(INITIAL, actions);
  }

  // ------------------------------------------------------------------ what a stored observation proves

  /** An account change, a chain change, a disconnect, or a connect that is not turned away. */
  ghost predicate Interrupts(s: State, a: Action) {
    a.AccountsChanged? || a.ChainChanged? || a.Disconnect? || (a.Connect? && !s.pending && a.selected.Some?)
  }

  lemma {:induction false} EpochGrows(s: State, a: Action)
    ensures Step(s, a).epoch >= s.epoch
    ensures Interrupts(s, a) ==> Step(s, a).epoch > s.epoch
  {
    hide AddressOf, NormalizeChain, Fold;
  }

  lemma {:induction false} QuietRun(s: State, actions: seq<Action>)
    ensures Run(s, actions).epoch >= s.epoch
    ensures Run(s, actions).epoch == s.epoch ==>
      forall k :: 0 <= k < |actions| ==> !Interrupts(Run(s, actions[..k]), actions[k])
  {
    hide Step;
    if actions != [] {
      var n := |actions| - 1;
      var init := actions[..n];
      QuietRun(s, init);
      EpochGrows(Run(s, init), actions[n]);
      forall k | 0 <= k < n ensures actions[..k] == init[..k] && actions[k] == init[k] { }
    }
  }

  /** The signing call keeps the challenge, epoch and address it captured until it ends, and its number is not reused. */
  ghost predicate Carries(s: State, call: nat, c: Challenge, epoch: nat, address: Option<string>) {
    && call < s.nextCall
    && (call in s.calls ==>
          var f := s.calls[call];
          Signing(f) && f.challenge == c && f.epoch == epoch && f.address == address)
  }

  lemma StepCarries(s: State, a: Action, call: nat, c: Challenge, epoch: nat, address: Option<string>)
    requires Carries(s, call, c, epoch, address)
    ensures Carries(Step(s, a), call, c, epoch, address)
  {
    hide AddressOf, NormalizeChain, Fold;
  }

  lemma {:induction false} RunCarries(s: State, actions: seq<Action>, call: nat, c: Challenge, epoch: nat, address: Option<string>)
    requires Carries(s, call, c, epoch, address)
    ensures Carries(Run(s, actions), call, c, epoch, address)
  {
    hide Step, Carries;
    if actions != [] {
      RunCarries(s, actions[..|actions| - 1], call, c, epoch, address);
      StepCarries(Run(s, actions[..|actions| - 1]), actions[|actions| - 1], call, c, epoch, address);
    }
  }

  /** While a signing call of the current epoch is suspended, a step that keeps the epoch and the call
      keeps the shown account, ignoring case, and the shown chain. */
  lemma StepSteady(s: State, a: Action, call: nat)
    requires Invariant(s) && call in s.calls && Signing(s.calls[call]) && s.calls[call].epoch == s.epoch
    requires Step(s, a).epoch == s.epoch
    ensures Fold(Step(s, a).address) == Fold(s.address) && Step(s, a).chain == s.chain
  {
    match a
    case ChainArrives(c, reply) => NoConnect(s, call, c); ChainSteady(s, c, reply);
    case RefreshArrives(c, answer) => RefreshSteady(s, c, answer);
    case _ => OtherSteady(s, a);
  }

  /** A connect of the current epoch excludes a signing call of that epoch. */
  lemma NoConnect(s: State, call: nat, c: nat)
    requires Invariant(s) && call in s.calls && Signing(s.calls[call]) && s.calls[call].epoch == s.epoch
    ensures c in s.calls ==> !Connecting(s.calls[c], s.epoch)
  {
    if c in s.calls { assert ConnectAlone(s, c); }
  }

  lemma ChainSteady(s: State, c: nat, reply: WalletReply)
    requires c in s.calls ==> !Connecting(s.calls[c], s.epoch)
    ensures ChainArrival(s, c, reply).address == s.address && ChainArrival(s, c, reply).chain == s.chain
  {
    hide AddressOf, NormalizeChain;
  }

  lemma RefreshSteady(s: State, c: nat, answer: RefreshReply)
    requires RefreshArrive(s, c, answer).epoch == s.epoch
    ensures Fold(RefreshArrive(s, c, answer).address) == Fold(s.address) && RefreshArrive(s, c, answer).chain == s.chain
  {
    hide AddressOf, NormalizeChain, Fold;
  }

  lemma OtherSteady(s: State, a: Action)
    requires !a.ChainArrives? && !a.RefreshArrives? && Step(s, a).epoch == s.epoch
    ensures Step(s, a).address == s.address && Step(s, a).chain == s.chain
  {
    hide AddressOf, NormalizeChain, Fold;
  }

  /** A call that has ended does not come back, as its number is not reused. */
  lemma StaysEnded(s: State, a: Action, call: nat)
    requires call < s.nextCall && call in Step(s, a).calls
    ensures call in s.calls
  {
    hide AddressOf, NormalizeChain, Fold;
  }

  /** The same account, ignoring case, the same chain and the same epoch. */
  ghost predicate SteadyAt(s: State, t: State) {
    Fold(t.address) == Fold(s.address) && t.chain == s.chain && t.epoch == s.epoch
  }

  /** Over a run at whose end the signing call is still suspended in its own epoch, it was so throughout,
      and the shown account and chain never changed. */
  lemma {:induction false} RunSteady(
      s: State, actions: seq<Action>, call: nat, c: Challenge, epoch: nat, address: Option<string>)
    requires Invariant(s) && Carries(s, call, c, epoch, address) && s.epoch == epoch
    requires call in Run(s, actions).calls && Run(s, actions).epoch == epoch
    ensures forall k :: 0 <= k <= |actions| ==> SteadyAt(s, Run(s, actions[..k]))
  {
    if actions == [] {
      assert actions[..0] == [];
    } else {
      var n := |actions| - 1;
      var init := actions[..n];
      var t := Run(s, init);
      hide Step, Fold;
      RunKeeps(s, init);
      RunCarries(s, init, call, c, epoch, address);
      QuietRun(s, init);
      EpochGrows(t, actions[n]);
      StaysEnded(t, actions[n], call);
      RunSteady(s, init, call, c, epoch, address);
      StepSteady(t, actions[n], call);
      hide Invariant, Carries;
      assert actions[..|actions|] == actions && init[..n] == init;
      assert SteadyAt(s, Run(s, init[..n]));
      forall k | 0 <= k <= |actions| ensures SteadyAt(s, Run(s, actions[..k])) {
        if k <= n { assert actions[..k] == init[..k] && SteadyAt(s, Run(s, init[..k])); }
      }
    }
  }

  /** The moment `signProof` sends `personal_sign`: resuming the call suspends it on the signature. */
  ghost predicate AsksToSign(s: State, call: nat) {
    && call in s.calls && s.calls[call].SignRefresh?
    && var t := Step(s, Resume(call)); call in t.calls && t.calls[call].SignSignature?
  }

  ghost predicate Stores(s: State, call: nat, reply: ServiceReply) {
    call in s.calls && s.calls[call].SignVerify? && VerificationAccepted(s, s.calls[call], reply)
  }

  /**
   Take any moment at which `signProof` asks the wallet to sign, any later interleaving, and a reply
   of the service on which that call stores its observation. Then the observation names the address
   that was passed to `personal_sign` and the chain shown at that moment; the account (ignoring case)
   and the chain stayed as shown throughout, whatever a refresh found; and no account change, chain
   change, connect or disconnect happened between the request and the store.
   */
  lemma StoredObservationWasSigned(before: seq<Action>, call: nat, between: seq<Action>, reply: ServiceReply)
    requires AsksToSign(Run(INITIAL, before), call)
    requires var late := Run(Step(Run(INITIAL, before), Resume(call)), between);
      Stores(late, call, reply)
    ensures var asking := Run(INITIAL, before);
      var asked := Step(asking, Resume(call));
      var late := Run(asked, between);
      var stored := Step(late, VerificationArrives(call, reply)).observation;
      && call in asked.calls && asked.calls[call].SignSignature?
      && asked.calls[call].address == asking.address && asking.address.Some?
      && stored.Some? && stored.value.chain == late.chain == asking.chain
      && (forall k :: 0 <= k <= |between| ==> SteadyAt(asking, Run(asked, between[..k])))
      && Fold(Some(stored.value.address)) == Fold(asked.calls[call].address) == Fold(late.address)
      && (forall k :: 0 <= k < |between| ==> !Interrupts(Run(asked, between[..k]), between[k]))
  {
    hide Step, Invariant, Carries, Interrupts, Stores;
    var asking := Run(INITIAL, before);
    var asked := Step(asking, Resume(call));
    InitialInvariant();
    RunKeeps(INITIAL, before);
    StepKeeps(asking, Resume(call));
    RunKeeps(asked, between);
    var late := Run(asked, between);
    AskCaptures(asking, call);
    RunCarries(asked, between, call, asked.calls[call].challenge, asked.epoch, asking.address);
    QuietRun(asked, between);
    StoreAgrees(late, call, reply, asked.calls[call].challenge, asked.epoch, asking.address);
    StoresInCalls(late, call, reply);
    RunSteady(asked, between, call, asked.calls[call].challenge, asked.epoch, asking.address);
    AskShows(asking, call);
    SteadyFrom(asking, asked, between);
    assert between[..|between|] == between;
    assert SteadyAt(asking, Run(asked, between[..|between|]));
  }

  lemma StoresInCalls(s: State, call: nat, reply: ServiceReply)
    requires Stores(s, call, reply)
    ensures call in s.calls
  {
  }

  /** Asking to sign changes nothing that is shown. */
  lemma AskShows(s: State, call: nat)
    requires AsksToSign(s, call)
    ensures SteadyAt(s, Step(s, Resume(call)))
  {
  }

  lemma SteadyFrom(r: State, s: State, actions: seq<Action>)
    requires SteadyAt(r, s) && forall k :: 0 <= k <= |actions| ==> SteadyAt(s, Run(s, actions[..k]))
    ensures forall k :: 0 <= k <= |actions| ==> SteadyAt(r, Run(s, actions[..k]))
  {
    hide Run, Fold;
  }

  lemma AskCaptures(s: State, call: nat)
    requires Invariant(s) && AsksToSign(s, call)
    ensures var t := Step(s, Resume(call));
      && t.calls[call].epoch == t.epoch && t.calls[call].address == s.address && s.address.Some?
      && Carries(t, call, t.calls[call].challenge, t.epoch, s.address)
  {
  }

  lemma StoreAgrees(s: State, call: nat, reply: ServiceReply, c: Challenge, epoch: nat, address: Option<string>)
    requires Invariant(s) && Stores(s, call, reply) && Carries(s, call, c, epoch, address)
    ensures var stored := Step(s, VerificationArrives(call, reply)).observation;
      && stored.Some? && stored.value.chain == s.chain && s.epoch == epoch
      && Fold(Some(stored.value.address)) == Fold(address) == Fold(s.address)
  {
    assert FrameOk(s, s.calls[call]);
  }
}
