/**
 What the wallet connection shows after each event, and after each call that runs to its end,
 stated on the shown fields; and what its addresses and chain names stand for.
 */
module WalletOutcomes {
  import opened Prelude
  import opened WalletModel
  import opened WalletProofs

  // ------------------------------------------------------------------ addresses and chains

  /** The value of a hexadecimal digit of either case. */
  function DigitValue(c: char): Option<nat> {
    if '0' <= c <= '9' then Some(c as int - '0' as int)
    else if 'a' <= c <= 'f' then Some(c as int - 'a' as int + 10)
    else if 'A' <= c <= 'F' then Some(c as int - 'A' as int + 10)
    else None
  }

  predicate Hexadecimal(s: string) {
    forall i :: 0 <= i < |s| ==> DigitValue(s[i]).Some?
  }

  /** The number the digits stand for. */
  function Number(s: string): nat {
    if s == "" then 0 else 16 * Number(s[..|s| - 1]) + DigitValue(s[|s| - 1]).GetOr(0)
  }

  /** `0x` and forty hexadecimal digits. */
  predicate IsAddress(s: string) {
    |s| == 42 && s[0] == '0' && s[1] == 'x' && Hexadecimal(s[2..])
  }

  /** `0x` and one to thirteen hexadecimal digits that are not all zero. */
  predicate IsChain(s: string) {
    3 <= |s| <= 15 && s[0] == '0' && s[1] == 'x' && Hexadecimal(s[2..]) && Number(s[2..]) > 0
  }

  lemma AddressExactly(raw: Option<string>)
    ensures AddressOf(raw) == if raw.Some? && IsAddress(raw.value) then raw else None
  {
    if raw.Some? && |raw.value| == 42 {
      var s := raw.value;
      assert s[..2] == "0x" <==> s[0] == '0' && s[1] == 'x';
      HexExactly(s);
    }
  }

  lemma HexExactly(s: string)
    requires |s| >= 2
    ensures Hexadecimal(s[2..]) <==> forall i :: 2 <= i < |s| ==> HexChar(s[i])
  {
    if Hexadecimal(s[2..]) {
      forall i | 2 <= i < |s| ensures HexChar(s[i]) { assert s[2..][i - 2] == s[i]; }
    }
    if forall i :: 2 <= i < |s| ==> HexChar(s[i]) {
      forall k | 0 <= k < |s| - 2 ensures DigitValue(s[2..][k]).Some? { assert s[2..][k] == s[k + 2]; }
    }
  }

  lemma {:induction false} ZeroInFront(s: string)
    ensures Number("0" + s) == Number(s)
  {
    if s == "" {
      assert "0" + s == "0" && "0"[..0] == "";
    } else {
      var n := |s| - 1;
      ZeroInFront(s[..n]);
      assert ("0" + s)[..|s|] == "0" + s[..n];
    }
  }

  lemma {:induction false} DropZerosKeepsNumber(s: string)
    ensures Number(DropZeros(s)) == Number(s) && (DropZeros(s) != "" ==> DropZeros(s)[0] != '0')
    ensures Hexadecimal(s) ==> Hexadecimal(DropZeros(s))
  {
    if s != "" && s[0] == '0' {
      DropZerosKeepsNumber(s[1..]);
      assert s == "0" + s[1..];
      ZeroInFront(s[1..]);
    }
  }

  lemma {:induction false} LeadingDigitCounts(s: string)
    requires Hexadecimal(s) && s != "" && s[0] != '0'
    ensures Number(s) > 0
  {
    if |s| > 1 { LeadingDigitCounts(s[..|s| - 1]); }
    else { assert s[..0] == ""; }
  }

  lemma {:induction false} LowerKeepsNumber(s: string)
    ensures Number(Lower(s)) == Number(s) && |Lower(s)| == |s| && (Hexadecimal(s) ==> Hexadecimal(Lower(s)))
    ensures forall i :: 0 <= i < |s| ==> Lower(s)[i] == LowerChar(s[i])
  {
    if s != "" {
      var n := |s| - 1;
      LowerKeepsNumber(s[..n]);
      assert Lower(s)[..n] == Lower(s[..n]);
    }
  }

  /** Hexadecimal digits in lower case, the first not zero. */
  predicate IsPlain(s: string) {
    Hexadecimal(s) && (forall i :: 0 <= i < |s| ==> !('A' <= s[i] <= 'F')) && (s != "" ==> s[0] != '0')
  }

  /** A valid chain is named by its number alone: `0x` and its digits, lower case, without leading zeros. */
  lemma ChainExactly(raw: Option<string>)
    ensures NormalizeChain(raw).Some? <==> raw.Some? && IsChain(raw.value)
    ensures NormalizeChain(raw).Some? ==>
      var t := NormalizeChain(raw).value;
      |t| > 2 && t[..2] == "0x" && IsPlain(t[2..]) && Number(t[2..]) == Number(raw.value[2..])
  {
    if raw.Some? && |raw.value| >= 3 {
      var s := raw.value;
      assert s[..2] == "0x" <==> s[0] == '0' && s[1] == 'x';
      HexExactly(s);
      if Hexadecimal(s[2..]) { DigitsExactly(s[2..]); }
      var named := "0x" + Lower(DropZeros(s[2..]));
      assert named[2..] == Lower(DropZeros(s[2..])) && named[..2] == "0x";
      hide Hexadecimal, IsPlain, Number, Lower, DropZeros, HexChar;
    }
  }

  /** The digits without leading zeros, in lower case, are plain and keep the number. */
  lemma DigitsExactly(s: string)
    requires Hexadecimal(s)
    ensures DropZeros(s) != "" <==> Number(s) > 0
    ensures IsPlain(Lower(DropZeros(s))) && Number(Lower(DropZeros(s))) == Number(s) && |Lower(DropZeros(s))| == |DropZeros(s)|
  {
    var digits := DropZeros(s);
    DropZerosKeepsNumber(s);
    LowerKeepsNumber(digits);
    if digits != "" { LeadingDigitCounts(digits); }
    hide Number, DropZeros, Lower;
  }

  lemma {:induction false} PlainUnique(a: string, b: string)
    requires IsPlain(a) && IsPlain(b) && Number(a) == Number(b)
    ensures a == b
  {
    if a == "" {
      if b != "" { LeadingDigitCounts(b); }
    } else if b == "" {
      LeadingDigitCounts(a);
    } else {
      var m, n := |a| - 1, |b| - 1;
      LastDigit(Number(a[..m]), DigitValue(a[m]).value, Number(b[..n]), DigitValue(b[n]).value);
      PlainUnique(a[..m], b[..n]);
      assert a == a[..m] + [a[m]] && b == b[..n] + [b[n]];
    }
  }

  lemma LastDigit(p: nat, x: nat, q: nat, y: nat)
    requires 16 * p + x == 16 * q + y && x < 16 && y < 16
    ensures p == q && x == y
  {
  }

  /** Two valid chains have one name exactly when they are the same number. */
  lemma SameChainExactly(a: string, b: string)
    requires IsChain(a) && IsChain(b)
    ensures NormalizeChain(Some(a)) == NormalizeChain(Some(b)) <==> Number(a[2..]) == Number(b[2..])
  {
    ChainExactly(Some(a));
    ChainExactly(Some(b));
    var s, t := NormalizeChain(Some(a)).value, NormalizeChain(Some(b)).value;
    hide NormalizeChain, Number;
    if Number(a[2..]) == Number(b[2..]) {
      PlainUnique(s[2..], t[2..]);
      assert s == s[..2] + s[2..] && t == t[..2] + t[2..];
    }
  }

  lemma {:induction false} SameLengthUnique(a: string, b: string)
    requires Hexadecimal(a) && Hexadecimal(b) && |a| == |b| && Number(a) == Number(b)
    ensures Lower(a) == Lower(b)
  {
    if a != "" {
      var n := |a| - 1;
      LastDigit(Number(a[..n]), DigitValue(a[n]).value, Number(b[..n]), DigitValue(b[n]).value);
      SameLengthUnique(a[..n], b[..n]);
      SameDigit(a[n], b[n]);
      LowerLast(a);
      LowerLast(b);
    }
  }

  lemma SameDigit(c: char, d: char)
    requires DigitValue(c).Some? && DigitValue(c) == DigitValue(d)
    ensures LowerChar(c) == LowerChar(d)
  {
  }

  lemma LowerLast(s: string)
    requires s != ""
    ensures Lower(s) == Lower(s[..|s| - 1]) + [LowerChar(s[|s| - 1])]
  {
  }

  /** Two addresses agree ignoring case exactly when they are the same number. */
  lemma SameAddressExactly(a: string, b: string)
    requires IsAddress(a) && IsAddress(b)
    ensures Fold(Some(a)) == Fold(Some(b)) <==> Number(a[2..]) == Number(b[2..])
  {
    LowerKeepsNumber(a[2..]);
    LowerKeepsNumber(b[2..]);
    assert Lower(a)[2..] == Lower(a[2..]) && Lower(b)[2..] == Lower(b[2..]);
    assert Lower(a)[..2] == "0x" == Lower(b)[..2];
    assert Lower(a) == Lower(a)[..2] + Lower(a)[2..] && Lower(b) == Lower(b)[..2] + Lower(b)[2..];
    if Number(a[2..]) == Number(b[2..]) { SameLengthUnique(a[2..], b[2..]); }
  }

  // ------------------------------------------------------------------ the three events

  /** What a wallet's answer shows: an address as it is, a chain by its name, and nothing for anything else. */
  function Shown(account: Option<string>): Option<string> {
    if account.Some? && IsAddress(account.value) then account else None
  }

  predicate ValidChain(chain: Option<string>) { chain.Some? && IsChain(chain.value) }

  lemma ShownExactly(account: Option<string>, chain: Option<string>)
    ensures AddressOf(account) == Shown(account)
    ensures ValidChain(chain) <==> NormalizeChain(chain).Some?
  {
    AddressExactly(account);
    ChainExactly(chain);
  }

  /** The one call an event starts, when an account is shown: a refresh in the background, of the new epoch. */
  predicate StartsRefresh(s: State, t: State) {
    && t.nextCall == (if t.address.Some? then s.nextCall + 1 else s.nextCall)
    && t.calls == (if t.address.Some?
         then s.calls[s.nextCall := Background(if t.provider.Some? then AwaitWallet(t.epoch) else Returned)] else s.calls)
  }

  /** After accountsChanged the first account is shown when it is an address, and none otherwise. */
  lemma AccountsChangedShows(s: State, account: Option<string>)
    ensures var t := Step(s, AccountsChanged(account));
      && t.address == (if account.Some? && IsAddress(account.value) then account else None)
      && t.provider == s.provider && t.chain == s.chain && t.pending == s.pending && t.nextRef == s.nextRef
      && t.challenge.None? && t.observation.None? && t.epoch == s.epoch + 1 && StartsRefresh(s, t)
  {
    AddressExactly(account);
    hide AddressOf, IsAddress;
  }

  /** After chainChanged the new chain is shown by its name when it is one, and none otherwise. */
  lemma ChainChangedShows(s: State, chain: Option<string>)
    ensures var t := Step(s, ChainChanged(chain));
      && (t.chain.Some? <==> chain.Some? && IsChain(chain.value))
      && (t.chain.Some? ==>
            |t.chain.value| > 2 && t.chain.value[..2] == "0x" && IsPlain(t.chain.value[2..])
            && Number(t.chain.value[2..]) == Number(chain.value[2..]))
      && t.provider == s.provider && t.address == s.address && t.pending == s.pending && t.nextRef == s.nextRef
      && t.challenge.None? && t.observation.None? && t.epoch == s.epoch + 1 && StartsRefresh(s, t)
  {
    ChainExactly(chain);
    hide NormalizeChain, IsChain, IsPlain, Number;
  }

  /** After a disconnect nothing is shown and nothing is pending; suspended calls stay suspended. */
  lemma DisconnectShowsNothing(s: State)
    ensures var t := Step(s, Disconnect);
      && t.provider.None? && t.address.None? && t.chain.None? && !t.pending && t.challenge.None? && t.observation.None?
      && t.epoch == s.epoch + 1 && t.calls == s.calls && t.nextCall == s.nextCall && t.nextRef == s.nextRef
  {
  }

  // ------------------------------------------------------------------ calls that run to their end

  /** The wallet answered both questions, the chain validly. */
  predicate Refreshed(answer: RefreshReply) { answer.RefreshAnswer? && ValidChain(answer.chain) }

  /** The account or the chain is another one than shown. */
  predicate Differs(s: State, answer: RefreshReply)
    requires answer.RefreshAnswer?
  {
    Fold(Shown(answer.account)) != Fold(s.address) || NormalizeChain(answer.chain) != s.chain
  }

  /** What a refresh of the current epoch leaves: unanswered, everything; answered, the account and chain of the answer,
      without challenge and observation and in a new epoch if either is another one. */
  function AfterRefresh(s: State, answer: RefreshReply): State {
    if !Refreshed(answer) then s
    else if Differs(s, answer) then
      s.(address := Shown(answer.account), chain := NormalizeChain(answer.chain), epoch := s.epoch + 1, challenge := None,
         observation := None)
    else s.(address := Shown(answer.account), chain := NormalizeChain(answer.chain))
  }

  /** The segments of one refresh inside call `n`: the wallet's answer, then the balance. */
  function RefreshSegments(s: State, n: nat, answer: RefreshReply): State {
    Step(Step(s, RefreshArrives(n, answer)), BalanceArrives(n))
  }

  /** A call awaiting a refresh of the current epoch: after the segments it has returned, or thrown when unanswered. */
  lemma RefreshRuns(s: State, n: nat, answer: RefreshReply)
    requires n in s.calls && RefreshOf(s.calls[n]) == AwaitWallet(s.epoch)
    ensures RefreshSegments(s, n, answer)
      == AfterRefresh(s, answer).(calls := s.calls[n := WithRefresh(s.calls[n], if Refreshed(answer) then Returned else Threw)])
  {
    WalletAnswers(s, n, answer);
    var t := Step(s, RefreshArrives(n, answer));
    BalanceAnswers(t, n);
    Replaced(s.calls, n, WithRefresh(s.calls[n], AwaitBalance), WithRefresh(s.calls[n], Returned));
    hide Step, AfterRefresh, Refreshed;
  }

  lemma WalletAnswers(s: State, n: nat, answer: RefreshReply)
    requires n in s.calls && RefreshOf(s.calls[n]) == AwaitWallet(s.epoch)
    ensures Step(s, RefreshArrives(n, answer)) ==
      var r := AfterRefresh(s, answer);
      r.(calls := s.calls[n := WithRefresh(s.calls[n],
        if !Refreshed(answer) then Threw else if r.address.Some? then AwaitBalance else Returned)])
  {
    if answer.RefreshAnswer? { ShownExactly(answer.account, answer.chain); }
    hide AddressOf, NormalizeChain, Shown, ValidChain, Fold;
  }

  lemma BalanceAnswers(s: State, n: nat)
    ensures Step(s, BalanceArrives(n)) ==
      if n in s.calls && RefreshOf(s.calls[n]).AwaitBalance? then s.(calls := s.calls[n := WithRefresh(s.calls[n], Returned)]) else s
  {
  }

  /** A call whose refresh has nothing to do: the segments change nothing. */
  lemma NoRefreshRuns(s: State, n: nat, answer: RefreshReply)
    requires n in s.calls ==> !RefreshOf(s.calls[n]).AwaitWallet? && !RefreshOf(s.calls[n]).AwaitBalance?
    ensures RefreshSegments(s, n, answer) == s
  {
  }

  /** A refresh looks at and touches nothing but account, chain, epoch, challenge and observation. */
  lemma AfterRefreshElsewhere(s: State, answer: RefreshReply, calls: map<nat, Frame>, k: nat, pending: bool)
    ensures var t := AfterRefresh(s, answer);
      && t.provider == s.provider && t.pending == s.pending && t.calls == s.calls && t.nextCall == s.nextCall && t.nextRef == s.nextRef
      && AfterRefresh(s.(calls := calls, nextCall := k, pending := pending), answer) == t.(calls := calls, nextCall := k, pending := pending)
  {
  }

  lemma Removed(calls: map<nat, Frame>, n: nat, f: Frame)
    requires n !in calls
    ensures calls[n := f] - {n} == calls && calls[n := f][n := f] == calls[n := f]
  {
  }

  /** refresh(), started in the background: the shown account and chain are those of the answer. */
  lemma RefreshOutcome(s: State, answer: RefreshReply)
    requires s.nextCall !in s.calls
    ensures var n := s.nextCall;
      Step(RefreshSegments(Step(s, StartRefresh), n, answer), Resume(n))
      == (if s.provider.Some? && s.address.Some? then AfterRefresh(s, answer) else s).(nextCall := n + 1)
  {
    var n, t := s.nextCall, Step(s, StartRefresh);
    hide RefreshSegments, AfterRefresh, Refreshed;
    if s.provider.Some? && s.address.Some? { RefreshRuns(t, n, answer); } else { NoRefreshRuns(t, n, answer); }
    AfterRefreshElsewhere(s, answer, t.calls, n + 1, s.pending);
    Removed(s.calls, n, Background(Returned));
    Removed(s.calls, n, Background(Threw));
  }

  // ------------------------------------------------------------------ connect

  /** Nothing shown, in a new epoch. */
  function Cleared(s: State): State {
    s.(epoch := s.epoch + 1, provider := None, address := None, chain := None, pending := false, challenge := None,
       observation := None)
  }

  lemma ConnectAsks(s: State, p: nat)
    requires !s.pending
    ensures Step(s, Connect(Some(p))) == Cleared(s).(pending := true, nextCall := s.nextCall + 1,
      calls := s.calls[s.nextCall := ConnectAccounts(s.epoch + 1, p)])
  {
  }

  lemma ConnectAnswered(s: State, n: nat, p: nat, accounts: WalletReply)
    requires n in s.calls && s.calls[n] == ConnectAccounts(s.epoch, p)
    ensures Step(s, AccountsArrive(n, accounts)) ==
      if accounts.Answer? && Shown(accounts.text).Some?
      then s.(calls := s.calls[n := ConnectChain(s.epoch, p, accounts.text.value)])
      else s.(pending := false, calls := s.calls - {n})
  {
    if accounts.Answer? { ShownExactly(accounts.text, None); }
    hide AddressOf, IsAddress;
  }

  lemma ConnectAttaches(s: State, n: nat, p: nat, a: string, chain: WalletReply)
    requires n in s.calls && s.calls[n] == ConnectChain(s.epoch, p, a)
    ensures Step(s, ChainArrives(n, chain)) ==
      if chain.Answer? && ValidChain(chain.text)
      then s.(provider := Some(p), address := Some(a), chain := NormalizeChain(chain.text),
              calls := s.calls[n := ConnectRefresh(AwaitWallet(s.epoch))])
      else s.(pending := false, calls := s.calls - {n})
  {
    if chain.Answer? { ShownExactly(None, chain.text); }
    hide NormalizeChain, ValidChain;
  }

  /** The segments of connect() after it asked for the accounts. */
  function ConnectSegments(s: State, n: nat, accounts: WalletReply, chain: WalletReply, answer: RefreshReply): State {
    Step(RefreshSegments(Step(Step(s, AccountsArrive(n, accounts)), ChainArrives(n, chain)), n, answer), Resume(n))
  }

  lemma GoneDoesNothing(s: State, n: nat, chain: WalletReply, answer: RefreshReply)
    requires n !in s.calls
    ensures Step(s, ChainArrives(n, chain)) == s && RefreshSegments(s, n, answer) == s && Step(s, Resume(n)) == s
  {
  }

  lemma ConnectEnds(s: State, n: nat, answer: RefreshReply)
    requires n in s.calls && s.calls[n] == ConnectRefresh(AwaitWallet(s.epoch))
    ensures Step(RefreshSegments(s, n, answer), Resume(n)) == AfterRefresh(s, answer).(pending := false, calls := s.calls - {n})
  {
    RefreshRuns(s, n, answer);
    AfterRefreshElsewhere(s, answer, s.calls, s.nextCall, s.pending);
    hide RefreshSegments, AfterRefresh, Refreshed;
    var f := WithRefresh(s.calls[n], if Refreshed(answer) then Returned else Threw);
    assert s.calls[n := f] - {n} == s.calls - {n};
  }

  /** connect() of provider `p`: while it runs it is pending; with a valid account and chain they are shown and
      refreshed once, otherwise nothing is shown; then nothing is pending and no call is left over. */
  lemma ConnectOutcome(s: State, p: nat, accounts: WalletReply, chain: WalletReply, answer: RefreshReply)
    requires !s.pending && s.nextCall !in s.calls
    ensures var n := s.nextCall; var asked := Step(s, Connect(Some(p))); var idle := Cleared(s).(nextCall := n + 1);
      && asked.pending && asked.address.None?
      && ConnectSegments(asked, n, accounts, chain, answer) ==
           if accounts.Answer? && Shown(accounts.text).Some? && chain.Answer? && ValidChain(chain.text)
           then AfterRefresh(idle.(provider := Some(p), address := accounts.text, chain := NormalizeChain(chain.text)), answer)
           else idle
  {
    var n, asked, idle := s.nextCall, Step(s, Connect(Some(p))), Cleared(s).(nextCall := s.nextCall + 1);
    ConnectAsks(s, p);
    ConnectAnswered(asked, n, p, accounts);
    var first := Step(asked, AccountsArrive(n, accounts));
    hide Step, Shown, NormalizeChain, ValidChain, RefreshSegments, AfterRefresh;
    Removed(s.calls, n, ConnectAccounts(s.epoch + 1, p));
    if accounts.Answer? && Shown(accounts.text).Some? {
      var a := accounts.text.value;
      ConnectAttaches(first, n, p, a, chain);
      Removed(s.calls, n, ConnectChain(s.epoch + 1, p, a));
      var second := Step(first, ChainArrives(n, chain));
      if chain.Answer? && ValidChain(chain.text) {
        var shown := idle.(provider := Some(p), address := accounts.text, chain := NormalizeChain(chain.text));
        ConnectEnds(second, n, answer);
        Removed(s.calls, n, ConnectRefresh(AwaitWallet(s.epoch + 1)));
        AfterRefreshElsewhere(shown, answer, second.calls, n + 1, true);
      } else {
        GoneDoesNothing(second, n, chain, answer);
      }
    } else {
      GoneDoesNothing(first, n, chain, answer);
    }
  }

  // ------------------------------------------------------------------ preparing and signing a proof

  /** The service's answer is well formed and about that account, ignoring case, and that chain. */
  predicate Names(reply: ServiceReply, address: Option<string>, chain: Option<string>) {
    && reply.ServiceAnswer? && reply.wellFormed && reply.address.Some? && address.Some?
    && Fold(reply.address) == Fold(address) && reply.chain == chain
  }

  lemma PrepareResumes(s: State, n: nat, r: Refresh)
    requires n in s.calls && s.calls[n] == PrepareRefresh(r) && (r.Returned? || r.Threw?)
    ensures Step(s, Resume(n)) ==
      if r.Returned? && s.address.Some? then s.(calls := s.calls[n := PrepareChallenge(s.epoch)]) else s.(calls := s.calls - {n})
  {
  }

  lemma ChallengeAnswered(s: State, n: nat, reply: ServiceReply)
    requires n in s.calls ==> s.calls[n] == PrepareChallenge(s.epoch)
    ensures Step(s, ChallengeArrives(n, reply)) ==
      if n in s.calls && Names(reply, s.address, s.chain)
      then s.(calls := s.calls - {n}, challenge := Some(Challenge(s.nextRef, reply.address.value, reply.chain)), observation := None,
              nextRef := s.nextRef + 1)
      else s.(calls := s.calls - {n})
  {
    hide Fold;
  }

  lemma SignResumes(s: State, n: nat, c: Challenge, r: Refresh)
    requires n in s.calls && s.calls[n] == SignRefresh(c, r) && (r.Returned? || r.Threw?) && s.provider.Some?
    ensures Step(s, Resume(n)) ==
      if r.Returned? && s.challenge == Some(c) then s.(calls := s.calls[n := SignSignature(c, s.epoch, s.address)])
      else s.(calls := s.calls - {n})
  {
  }

  lemma RecheckResumes(s: State, n: nat, c: Challenge, e: nat, a: Option<string>, r: Refresh)
    requires n in s.calls && s.calls[n] == SignRecheck(c, e, a, r) && (r.Returned? || r.Threw?)
    ensures Step(s, Resume(n)) ==
      if r.Returned? && e == s.epoch && s.challenge == Some(c) then s.(calls := s.calls[n := SignVerify(c, e, a)])
      else s.(calls := s.calls - {n})
  {
  }

  lemma VerificationAnswered(s: State, n: nat, c: Challenge, a: Option<string>, reply: ServiceReply)
    requires n in s.calls ==> s.calls[n] == SignVerify(c, s.epoch, a)
    ensures Step(s, VerificationArrives(n, reply)) ==
      if n in s.calls && Names(reply, a, s.chain)
      then s.(calls := s.calls - {n}, observation := Some(Observation(reply.address.value, reply.chain)), challenge := None)
      else s.(calls := s.calls - {n})
  {
    hide Fold;
  }

  /** Replacing a call's frame and dropping the call, whatever the frame before. */
  lemma Replaced(calls: map<nat, Frame>, n: nat, f: Frame, g: Frame)
    ensures calls[n := f][n := g] == calls[n := g] && calls[n := f] - {n} == calls - {n} && (n !in calls ==> calls - {n} == calls)
  {
  }

  /** prepareProof(): after the refresh a challenge is stored exactly when an account is still shown and the answer is
      about it and the shown chain. */
  lemma PrepareOutcome(s: State, answer: RefreshReply, reply: ServiceReply)
    requires s.provider.Some? && s.address.Some? && s.nextCall !in s.calls
    ensures var n := s.nextCall; var r := AfterRefresh(s, answer).(nextCall := n + 1);
      Step(Step(RefreshSegments(Step(s, PrepareProof), n, answer), Resume(n)), ChallengeArrives(n, reply)) ==
        if Refreshed(answer) && Names(reply, r.address, r.chain)
        then r.(challenge := Some(Challenge(s.nextRef, reply.address.value, reply.chain)), observation := None,
                nextRef := s.nextRef + 1)
        else r
  {
    var n, t := s.nextCall, Step(s, PrepareProof);
    RefreshRuns(t, n, answer);
    AfterRefreshElsewhere(s, answer, t.calls, n + 1, s.pending);
    var u := RefreshSegments(t, n, answer);
    var back := if Refreshed(answer) then Returned else Threw;
    assert u == AfterRefresh(s, answer).(nextCall := n + 1, calls := s.calls[n := PrepareRefresh(back)]) by {
      Replaced(s.calls, n, PrepareRefresh(AwaitWallet(s.epoch)), PrepareRefresh(back));
      hide AfterRefresh, RefreshSegments, Refreshed;
    }
    PrepareResumes(u, n, back);
    Replaced(s.calls, n, PrepareRefresh(back), PrepareChallenge(u.epoch));
    Replaced(s.calls, n, PrepareChallenge(u.epoch), PrepareChallenge(u.epoch));
    hide Step, RefreshSegments, AfterRefresh, Refreshed, Names;
    ChallengeAnswered(Step(u, Resume(n)), n, reply);
  }

  /** signProof() up to the signature: it goes on, for the account then shown, exactly when the refresh was answered and
      the challenge is still the one it started with. */
  lemma SignAsks(s: State, first: RefreshReply)
    requires s.challenge.Some? && s.provider.Some? && s.address.Some? && s.nextCall !in s.calls
    ensures var n := s.nextCall; var r := AfterRefresh(s, first).(nextCall := n + 1);
      Step(RefreshSegments(Step(s, SignProof(false)), n, first), Resume(n)) ==
        if Refreshed(first) && r.challenge == s.challenge
        then r.(calls := s.calls[n := SignSignature(s.challenge.value, r.epoch, r.address)])
        else r
  {
    var n, t, c := s.nextCall, Step(s, SignProof(false)), s.challenge.value;
    RefreshRuns(t, n, first);
    AfterRefreshElsewhere(s, first, t.calls, n + 1, s.pending);
    var u := RefreshSegments(t, n, first);
    var back := if Refreshed(first) then Returned else Threw;
    assert u == AfterRefresh(s, first).(nextCall := n + 1, calls := s.calls[n := SignRefresh(c, back)]) by {
      Replaced(s.calls, n, SignRefresh(c, AwaitWallet(s.epoch)), SignRefresh(c, back));
      hide AfterRefresh, RefreshSegments, Refreshed;
    }
    SignResumes(u, n, c, back);
    Replaced(s.calls, n, SignRefresh(c, back), SignSignature(c, u.epoch, u.address));
    hide Step, RefreshSegments, AfterRefresh, Refreshed;
  }

  /** The rest of it: the observation is stored exactly when the account signed, the second refresh was answered with the
      same account and chain, and the answer names the account that signed and the shown chain. */
  lemma SignEnds(s: State, n: nat, c: Challenge, signed: bool, second: RefreshReply, reply: ServiceReply)
    requires n in s.calls && s.calls[n] == SignSignature(c, s.epoch, s.address)
    requires s.challenge == Some(c) && s.provider.Some? && s.address.Some?
    ensures var idle := s.(calls := s.calls - {n});
      var r := AfterRefresh(idle, second);
      Step(Step(RefreshSegments(Step(s, SignatureArrives(n, signed)), n, second), Resume(n)), VerificationArrives(n, reply)) ==
        if !signed then idle
        else if Refreshed(second) && r.epoch == s.epoch && Names(reply, s.address, r.chain)
        then r.(observation := Some(Observation(reply.address.value, reply.chain)), challenge := None)
        else r
  {
    var idle, t := s.(calls := s.calls - {n}), Step(s, SignatureArrives(n, signed));
    if signed {
      var back := if Refreshed(second) then Returned else Threw;
      SecondRefresh(s, n, c, second);
      EpochTells(idle, second);
      var u := RefreshSegments(t, n, second);
      RecheckResumes(u, n, c, s.epoch, s.address, back);
      Replaced(s.calls, n, SignRecheck(c, s.epoch, s.address, back), SignVerify(c, s.epoch, s.address));
      Replaced(s.calls, n, SignVerify(c, s.epoch, s.address), SignVerify(c, s.epoch, s.address));
      hide Step, RefreshSegments, AfterRefresh, Refreshed, Names;
      assert s.calls - {n} - {n} == s.calls - {n};
      VerificationAnswered(Step(u, Resume(n)), n, c, s.address, reply);
    } else {
      NoRefreshRuns(t, n, second);
    }
  }

  lemma SecondRefresh(s: State, n: nat, c: Challenge, second: RefreshReply)
    requires n in s.calls && s.calls[n] == SignSignature(c, s.epoch, s.address) && s.provider.Some? && s.address.Some?
    ensures var t := Step(s, SignatureArrives(n, true)); var r := AfterRefresh(s.(calls := s.calls - {n}), second);
      && RefreshSegments(t, n, second)
         == r.(calls := s.calls[n := SignRecheck(c, s.epoch, s.address, if Refreshed(second) then Returned else Threw)])
      && r.calls == s.calls - {n}
  {
    var t := Step(s, SignatureArrives(n, true));
    RefreshRuns(t, n, second);
    AfterRefreshElsewhere(s.(calls := s.calls - {n}), second, t.calls, s.nextCall, s.pending);
    Replaced(s.calls, n, SignRecheck(c, s.epoch, s.address, AwaitWallet(s.epoch)),
      SignRecheck(c, s.epoch, s.address, if Refreshed(second) then Returned else Threw));
    hide AfterRefresh, RefreshSegments, Refreshed;
  }

  lemma EpochTells(s: State, answer: RefreshReply)
    ensures AfterRefresh(s, answer).epoch == s.epoch ==> AfterRefresh(s, answer).challenge == s.challenge
  {
  }

  // ------------------------------------------------------------------ calls turned away, and segments that come late

  /** connect() while one is pending or without a wallet, prepareProof() without an account, signProof() without a
      challenge or a provider or with an expired one: nothing changes. */
  lemma CallsTurnedAway(s: State, selected: Option<nat>, expired: bool)
    ensures s.pending || selected.None? ==> Step(s, Connect(selected)) == s
    ensures s.provider.None? || s.address.None? ==> Step(s, PrepareProof) == s
    ensures s.challenge.None? || s.provider.None? || expired ==> Step(s, SignProof(expired)) == s
  {
  }

  /** In a later epoch than the one a segment belongs to it ends or resumes its own call and shows nothing; only a
      connect's also stops being pending. */
  lemma LateSegments(s: State, n: nat, wallet: WalletReply, service: ServiceReply, signed: bool)
    requires n in s.calls
    ensures var f := s.calls[n]; var gone := s.(calls := s.calls - {n});
      && (f.ConnectAccounts? && f.epoch != s.epoch ==> Step(s, AccountsArrive(n, wallet)) == gone.(pending := false))
      && (f.ConnectChain? && f.epoch != s.epoch ==> Step(s, ChainArrives(n, wallet)) == gone.(pending := false))
      && (f.PrepareChallenge? && f.epoch != s.epoch ==> Step(s, ChallengeArrives(n, service)) == gone)
      && (f.SignSignature? && f.epoch != s.epoch ==> Step(s, SignatureArrives(n, signed)) == gone)
      && (f.SignVerify? && f.epoch != s.epoch ==> Step(s, VerificationArrives(n, service)) == gone)
  {
    hide AddressOf, NormalizeChain, Fold;
  }

  lemma LateRefresh(s: State, n: nat, answer: RefreshReply)
    requires n in s.calls && RefreshOf(s.calls[n]).AwaitWallet? && RefreshOf(s.calls[n]).epoch != s.epoch
    ensures Step(s, RefreshArrives(n, answer))
      == s.(calls := s.calls[n := WithRefresh(s.calls[n], if answer.RefreshFailed? then Threw else Returned)])
  {
    hide AddressOf, NormalizeChain, Fold;
  }
}
