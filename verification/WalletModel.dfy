/**
 The wallet connection of public/wallet-connection.js as a transition system. An async
 method is cut at each `await`; what is left of it is a frame holding what it captured.
 Any number of frames are suspended at once, wallet events arrive at any time, and every
 reply of the wallet or of the verification service is arbitrary.
 */
module WalletModel {
  import opened Prelude

  // ------------------------------------------------------------------ addresses and chains

  predicate HexChar(c: char) {
    '0' <= c <= '9' || 'a' <= c <= 'f' || 'A' <= c <= 'F'
  }

  function AddressOf(raw: Option<string>): Option<string> {
    if raw.Some? && |raw.value| == 42 && raw.value[..2] == "0x"
       && forall i :: 2 <= i < 42 ==> HexChar(raw.value[i])
    then raw else None
  }

  function LowerChar(c: char): char {
    if 'A' <= c <= 'Z' then (c as int + 32) as char else c
  }

  function Lower(s: string): string {
    seq(|s|, i requires 0 <= i < |s| => LowerChar(s[i]))
  }

  function DropZeros(s: string): string {
    if s != "" && s[0] == '0' then DropZeros(s[1..]) else s
  }

  /** One to thirteen hexadecimal digits naming a positive number, printed as `toString(16)` does. */
  function NormalizeChain(raw: Option<string>): Option<string> {
    if raw.Some? && 3 <= |raw.value| <= 15 && raw.value[..2] == "0x"
       && (forall i :: 2 <= i < |raw.value| ==> HexChar(raw.value[i]))
       && DropZeros(raw.value[2..]) != ""
    then Some("0x" + Lower(DropZeros(raw.value[2..])))
    else None
  }

  /** `x?.toLowerCase()`. */
  function Fold(address: Option<string>): Option<string> {
    if address.None? then None else Some(Lower(address.value))
  }

  // ------------------------------------------------------------------ state

  /** A challenge object; `ref` is its identity, which `!==` compares. */
  datatype Challenge = Challenge(ref: nat, address: string, chain: Option<string>)

  datatype Observation = Observation(address: string, chain: Option<string>)

  /** Where a call of `refresh` stands inside the call that awaits it. */
  datatype Refresh = AwaitWallet(epoch: nat) | AwaitBalance | Returned | Threw

  datatype Frame =
    | ConnectAccounts(epoch: nat, provider: nat)
    | ConnectChain(epoch: nat, provider: nat, account: string)
    | ConnectRefresh(refresh: Refresh)
    | Background(refresh: Refresh)
    | PrepareRefresh(refresh: Refresh)
    | PrepareChallenge(epoch: nat)
    | SignRefresh(challenge: Challenge, refresh: Refresh)
    | SignSignature(challenge: Challenge, epoch: nat, address: Option<string>)
    | SignRecheck(challenge: Challenge, epoch: nat, address: Option<string>, refresh: Refresh)
    | SignVerify(challenge: Challenge, epoch: nat, address: Option<string>)

  datatype State = State(
    epoch: nat, provider: Option<nat>, address: Option<string>, chain: Option<string>, pending: bool,
    challenge: Option<Challenge>, observation: Option<Observation>,
    calls: map<nat, Frame>, nextCall: nat, nextRef: nat)

  const INITIAL: State := State(0, None, None, None, false, None, None, map[], 0, 0)

  // ------------------------------------------------------------------ replies and actions

  /** A rejected promise, or an answer; the answer of an account list is its first entry. */
  datatype WalletReply = Failed | Answer(text: Option<string>)

  datatype RefreshReply = RefreshFailed | RefreshAnswer(account: Option<string>, chain: Option<string>)

  /** `wellFormed` stands for the remaining shape checks on the service's reply. */
  datatype ServiceReply = ServiceFailed | ServiceAnswer(address: Option<string>, chain: Option<string>, wellFormed: bool)

  datatype Action =
    | Connect(selected: Option<nat>)
    | Disconnect
    | AccountsChanged(account: Option<string>)
    | ChainChanged(chain: Option<string>)
    | StartRefresh
    | PrepareProof
    | SignProof(expired: bool)
    | AccountsArrive(call: nat, reply: WalletReply)
    | ChainArrives(call: nat, reply: WalletReply)
    | RefreshArrives(call: nat, answer: RefreshReply)
    | BalanceArrives(call: nat)
    | Resume(call: nat)
    | ChallengeArrives(call: nat, service: ServiceReply)
    | SignatureArrives(call: nat, signed: bool)
    | VerificationArrives(call: nat, service: ServiceReply)

  // ------------------------------------------------------------------ frames

  function Suspend(s: State, f: Frame): State {
    s.(calls := s.calls[s.nextCall := f], nextCall := s.nextCall + 1)
  }

  function Continue(s: State, call: nat, f: Frame): State {
    s.(calls := s.calls[call := f])
  }

  function Finish(s: State, call: nat): State {
    s.(calls := s.calls - {call})
  }

  // ------------------------------------------------------------------ refresh

  function BeginRefresh(s: State): Refresh {
    if s.provider.None? || s.address.None? then Returned else AwaitWallet(s.epoch)
  }

  /** The segment of `refresh` after the wallet answered both questions. */
  function AfterWallet(s: State, epoch: nat, answer: RefreshReply): (State, Refresh) {
    if answer.RefreshFailed? then (s, Threw)
    else if epoch != s.epoch then (s, Returned)
    else
      var address := AddressOf(answer.account);
      var chain := NormalizeChain(answer.chain);
      if chain.None? then (s, Threw)
      else
        var t := if Fold(address) != Fold(s.address) || chain != s.chain
          then s.(epoch := s.epoch + 1, challenge := None, observation := None) else s;
        (t.(address := address, chain := chain), if address.Some? then AwaitBalance else Returned)
  }

  function RefreshOf(f: Frame): Refresh {
    match f
    case ConnectRefresh(r) => r
    case Background(r) => r
    case PrepareRefresh(r) => r
    case SignRefresh(_, r) => r
    case SignRecheck(_, _, _, r) => r
    case _ => Threw
  }

  function WithRefresh(f: Frame, r: Refresh): Frame {
    match f
    case ConnectRefresh(_) => ConnectRefresh(r)
    case Background(_) => Background(r)
    case PrepareRefresh(_) => PrepareRefresh(r)
    case SignRefresh(c, _) => SignRefresh(c, r)
    case SignRecheck(c, e, a, _) => SignRecheck(c, e, a, r)
    case _ => f
  }

  function RefreshArrive(s: State, call: nat, answer: RefreshReply): State {
    if call in s.calls && RefreshOf(s.calls[call]).AwaitWallet? then
      var f := s.calls[call];
      var (t, r) := AfterWallet(s, RefreshOf(f).epoch, answer);
      Continue(t, call, WithRefresh(f, r))
    else s
  }

  function BalanceArrive(s: State, call: nat): State {
    if call in s.calls && RefreshOf(s.calls[call]).AwaitBalance? then
      Continue(s, call, WithRefresh(s.calls[call], Returned))
    else s
  }

  // ------------------------------------------------------------------ connecting and wallet events

  function ConnectCall(s: State, selected: Option<nat>): State {
    if s.pending || selected.None? then s
    else
      Suspend(
        s.(epoch := s.epoch + 1, provider := None, address := None, chain := None, pending := true,
           challenge := None, observation := None),
        ConnectAccounts(s.epoch + 1, selected.value))
  }

  /** The `finally` of `connect`. */
  function EndConnect(s: State, call: nat): State {
    Finish(s, call).(pending := false)
  }

  function AccountsArrival(s: State, call: nat, reply: WalletReply): State {
    if call in s.calls && s.calls[call].ConnectAccounts? then
      var f := s.calls[call];
      if reply.Failed? || f.epoch != s.epoch || AddressOf(reply.text).None? then EndConnect(s, call)
      else Continue(s, call, ConnectChain(f.epoch, f.provider, AddressOf(reply.text).value))
    else s
  }

  function ChainArrival(s: State, call: nat, reply: WalletReply): State {
    if call in s.calls && s.calls[call].ConnectChain? then
      var f := s.calls[call];
      if reply.Failed? || NormalizeChain(reply.text).None? || f.epoch != s.epoch then EndConnect(s, call)
      else
        var t := s.(provider := Some(f.provider), address := Some(f.account), chain := NormalizeChain(reply.text));
        Continue(t, call, ConnectRefresh(BeginRefresh(t)))
    else s
  }

  function DisconnectCall(s: State): State {
    s.(epoch := s.epoch + 1, provider := None, address := None, chain := None, pending := false,
       challenge := None, observation := None)
  }

  function AfterEvent(s: State): State {
    if s.address.Some? then Suspend(s, Background(BeginRefresh(s))) else s
  }

  function AccountsEvent(s: State, account: Option<string>): State {
    AfterEvent(s.(epoch := s.epoch + 1, address := AddressOf(account), challenge := None, observation := None))
  }

  function ChainEvent(s: State, chain: Option<string>): State {
    AfterEvent(s.(epoch := s.epoch + 1, chain := NormalizeChain(chain), challenge := None, observation := None))
  }

  // ------------------------------------------------------------------ proofs

  function PrepareCall(s: State): State {
    if s.provider.None? || s.address.None? then s else Suspend(s, PrepareRefresh(BeginRefresh(s)))
  }

  function ChallengeArrival(s: State, call: nat, reply: ServiceReply): State {
    if call in s.calls && s.calls[call].PrepareChallenge? then
      if reply.ServiceFailed? || s.calls[call].epoch != s.epoch
         || reply.address.None? || s.address.None? || Fold(reply.address) != Fold(s.address)
         || reply.chain != s.chain || !reply.wellFormed
      then Finish(s, call)
      else
        Finish(s, call).(
          challenge := Some(Challenge(s.nextRef, reply.address.value, reply.chain)),
          observation := None, nextRef := s.nextRef + 1)
    else s
  }

  function SignCall(s: State, expired: bool): State {
    if s.challenge.None? || s.provider.None? || expired then s
    else Suspend(s, SignRefresh(s.challenge.value, BeginRefresh(s)))
  }

  function SignatureArrival(s: State, call: nat, signed: bool): State {
    if call in s.calls && s.calls[call].SignSignature? then
      var f := s.calls[call];
      if !signed || f.epoch != s.epoch then Finish(s, call)
      else Continue(s, call, SignRecheck(f.challenge, f.epoch, f.address, BeginRefresh(s)))
    else s
  }

  /** The checks `signProof` makes on the verification it gets back, before it stores the observation. */
  predicate VerificationAccepted(s: State, f: Frame, reply: ServiceReply)
    requires f.SignVerify?
  {
    && reply.ServiceAnswer? && f.epoch == s.epoch
    && reply.address.Some? && f.address.Some? && Fold(reply.address) == Fold(f.address)
    && reply.chain == s.chain && reply.wellFormed
  }

  function VerificationArrival(s: State, call: nat, reply: ServiceReply): State {
    if call in s.calls && s.calls[call].SignVerify? then
      if VerificationAccepted(s, s.calls[call], reply) then
        Finish(s, call).(observation := Some(Observation(reply.address.value, reply.chain)), challenge := None)
      else Finish(s, call)
    else s
  }

  /** The continuation of a call after the `refresh` it awaited has returned or thrown. */
  function ResumeCall(s: State, call: nat): State {
    if call !in s.calls then s
    else
      var f := s.calls[call];
      match f
      case ConnectRefresh(r) => if r.Returned? || r.Threw? then EndConnect(s, call) else s
      case Background(r) => if r.Returned? || r.Threw? then Finish(s, call) else s
      case PrepareRefresh(r) =>
        if r.Returned? && s.address.Some? then Continue(s, call, PrepareChallenge(s.epoch))
        else if r.Returned? || r.Threw? then Finish(s, call)
        else s
      case SignRefresh(c, r) =>
        if r.Returned? && s.challenge == Some(c) && s.provider.Some? then
          Continue(s, call, SignSignature(c, s.epoch, s.address))
        else if r.Returned? || r.Threw? then Finish(s, call)
        else s
      case SignRecheck(c, e, a, r) =>
        if r.Returned? && e == s.epoch && s.challenge == Some(c) then Continue(s, call, SignVerify(c, e, a))
        else if r.Returned? || r.Threw? then Finish(s, call)
        else s
      case _ => s
  }

  // ------------------------------------------------------------------ steps and runs

  function Step(s: State, a: Action): State {
    match a
    case Connect(selected) => ConnectCall(s, selected)
    case Disconnect => DisconnectCall(s)
    case AccountsChanged(account) => AccountsEvent(s, account)
    case ChainChanged(chain) => ChainEvent(s, chain)
    case StartRefresh => Suspend(s, Background(BeginRefresh(s)))
    case PrepareProof => PrepareCall(s)
    case SignProof(expired) => SignCall(s, expired)
    case AccountsArrive(call, reply) => AccountsArrival(s, call, reply)
    case ChainArrives(call, reply) => ChainArrival(s, call, reply)
    case RefreshArrives(call, answer) => RefreshArrive(s, call, answer)
    case BalanceArrives(call) => BalanceArrive(s, call)
    case Resume(call) => ResumeCall(s, call)
    case ChallengeArrives(call, reply) => ChallengeArrival(s, call, reply)
    case SignatureArrives(call, signed) => SignatureArrival(s, call, signed)
    case VerificationArrives(call, reply) => VerificationArrival(s, call, reply)
  }

  function Run(s: State, actions: seq<Action>): State {
    if actions == [] then s else Step(Run(s, actions[..|actions| - 1]), actions[|actions| - 1])
  }
}
