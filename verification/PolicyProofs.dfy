/** Whole-run properties of the policy registry: the past is final and nothing revoked comes back. */
module PolicyProofs {
  import opened Prelude
  import opened Primitives
  import opened PolicyModel

  // ------------------------------------------------------------------ the invariant

  /** The index of a scope is exactly 1..n, and exactly those versions are stored. */
  ghost predicate IndexAt(env: Env, s: State, sid: Id32) {
    && |Index(s, sid)| <= env.maxVersions
    && (forall i :: 0 <= i < |Index(s, sid)| ==> Index(s, sid)[i] == i + 1)
  }

  ghost predicate VersionAt(env: Env, s: State, now: Block, sid: Id32, v: U32) {
    && ((sid, v) in s.versions <==> 1 <= v <= |Index(s, sid)|)
    && ((sid, v) in s.versions ==>
          var p := s.versions[(sid, v)];
          p.approval.version == v && env.scopeId(p.approval.scope) == sid
          && p.recordedAt <= now && p.recordedAt <= p.approval.from < p.approval.until)
    && ((sid, v) in s.revocations ==> (sid, v) in s.versions && s.revocations[(sid, v)].revokedAt <= now)
  }

  /** Later versions are effective no earlier and were recorded no earlier. */
  ghost predicate OrderAt(s: State, sid: Id32, v: U32, w: U32) {
    (v <= w && (sid, v) in s.versions && (sid, w) in s.versions) ==>
      && s.versions[(sid, v)].approval.from <= s.versions[(sid, w)].approval.from
      && s.versions[(sid, v)].recordedAt <= s.versions[(sid, w)].recordedAt
  }

  ghost predicate Valid(env: Env, c: Chain) {
    && (forall sid :: IndexAt(env, c.state, sid))
    && (forall sid, v: U32 :: VersionAt(env, c.state, c.now, sid, v))
    && (forall sid, v: U32, w: U32 :: OrderAt(c.state, sid, v, w))
  }

  /** Nothing stored changes, and whatever is new carries a block no earlier than `c.now`. */
  ghost predicate ExtendsAt(c: Chain, d: Chain, sid: Id32, v: U32) {
    && ((sid, v) in c.state.versions ==> (sid, v) in d.state.versions && d.state.versions[(sid, v)] == c.state.versions[(sid, v)])
    && ((sid, v) in d.state.versions && (sid, v) !in c.state.versions ==>
          c.now <= d.state.versions[(sid, v)].recordedAt && |Index(c.state, sid)| < v)
    && ((sid, v) in c.state.revocations ==>
          (sid, v) in d.state.revocations && d.state.revocations[(sid, v)] == c.state.revocations[(sid, v)])
    && ((sid, v) in d.state.revocations && (sid, v) !in c.state.revocations ==>
          c.now <= d.state.revocations[(sid, v)].revokedAt)
  }

  ghost predicate Extends(c: Chain, d: Chain) {
    && c.now <= d.now
    && (forall sid, v: U32 :: ExtendsAt(c, d, sid, v))
    && (forall sid :: |Index(c.state, sid)| <= |Index(d.state, sid)|)
  }

  lemma ApproveKeeps(env: Env, c: Chain, a: Approval)
    requires Valid(env, c)
    ensures Valid(env, Apply(env, c, ApproveCall(a))) && Extends(c, Apply(env, c, ApproveCall(a)))
  {
    var d := Apply(env, c, ApproveCall(a));
    if d != c {
      var sid0 := env.scopeId(a.scope);
      assert IndexAt(env, c.state, sid0);
      NewVersion(env, c, a);
      forall sid ensures IndexAt(env, d.state, sid) && |Index(c.state, sid)| <= |Index(d.state, sid)| {
        assert IndexAt(env, c.state, sid);
      }
      forall sid, v: U32 ensures VersionAt(env, d.state, d.now, sid, v) && ExtendsAt(c, d, sid, v) {
        assert VersionAt(env, c.state, c.now, sid, v);
      }
      forall sid, v: U32, w: U32 ensures OrderAt(d.state, sid, v, w) {
        OrderGrows(env, c, a, sid, v, w);
      }
    }
  }

  lemma NewVersion(env: Env, c: Chain, a: Approval)
    requires Valid(env, c) && Approve(env, c.state, c.now, a).Ok? && Approve(env, c.state, c.now, a).value != c.state
    ensures var sid := env.scopeId(a.scope); var n := |Index(c.state, sid)|;
      a.version == n + 1 && Last(Index(c.state, sid)) == n && (sid, a.version) !in c.state.versions
      && Approve(env, c.state, c.now, a).value
         == c.state.(versions := c.state.versions[(sid, a.version) := Policy(a, c.now)],
                     index := c.state.index[sid := Index(c.state, sid) + [a.version]])
  {
    assert IndexAt(env, c.state, env.scopeId(a.scope));
  }

  lemma OrderGrows(env: Env, c: Chain, a: Approval, sid: Id32, v: U32, w: U32)
    requires Valid(env, c) && Approve(env, c.state, c.now, a).Ok? && Approve(env, c.state, c.now, a).value != c.state
    ensures OrderAt(Approve(env, c.state, c.now, a).value, sid, v, w)
  {
    var s := c.state;
    var t := Approve(env, s, c.now, a).value;
    NewVersion(env, c, a);
    assert OrderAt(s, sid, v, w) && VersionAt(env, s, c.now, sid, v) && VersionAt(env, s, c.now, sid, w);
    if sid == env.scopeId(a.scope) && w == a.version && v < w && (sid, v) in t.versions {
      var last := Last(Index(s, sid));
      assert VersionAt(env, s, c.now, sid, last);
      assert OrderAt(s, sid, v, last);
    }
  }

  lemma RevokeKeeps(env: Env, c: Chain, sid: Id32, v: U32, approval: Id32, reason: Id32)
    requires Valid(env, c)
    ensures var d := Apply(env, c, RevokeCall(sid, v, approval, reason)); Valid(env, d) && Extends(c, d)
  {
    var d := Apply(env, c, RevokeCall(sid, v, approval, reason));
    forall i ensures IndexAt(env, d.state, i) { assert IndexAt(env, c.state, i); }
    forall i, k: U32 ensures VersionAt(env, d.state, d.now, i, k) && ExtendsAt(c, d, i, k) {
      assert VersionAt(env, c.state, c.now, i, k);
    }
    forall i, k: U32, l: U32 ensures OrderAt(d.state, i, k, l) { assert OrderAt(c.state, i, k, l); }
  }

  lemma BlocksKeep(env: Env, c: Chain, n: nat)
    requires Valid(env, c)
    ensures Valid(env, Apply(env, c, Blocks(n))) && Extends(c, Apply(env, c, Blocks(n)))
  {
    var d := Apply(env, c, Blocks(n));
    forall i, k: U32 ensures VersionAt(env, d.state, d.now, i, k) && ExtendsAt(c, d, i, k) {
      assert VersionAt(env, c.state, c.now, i, k);
    }
  }

  lemma EmptyValid(env: Env)
    ensures Valid(env, Chain(0, EMPTY))
  {
  }

  lemma ExtendsTransitive(c: Chain, d: Chain, e: Chain)
    requires Extends(c, d) && Extends(d, e)
    ensures Extends(c, e)
  {
    forall i, k: U32 ensures ExtendsAt(c, e, i, k) {
      assert ExtendsAt(c, d, i, k) && ExtendsAt(d, e, i, k);
      assert |Index(c.state, i)| <= |Index(d.state, i)|;
    }
    forall i ensures |Index(c.state, i)| <= |Index(e.state, i)| {
      assert |Index(c.state, i)| <= |Index(d.state, i)| <= |Index(e.state, i)|;
    }
  }

  /** Over any run the index stays 1..n with times in order, and what is stored never changes. */
  lemma {:induction false} RunKeeps(env: Env, c: Chain, calls: seq<Call>)
    requires Valid(env, c)
    ensures Valid(env, Run(env, c, calls)) && Extends(c, Run(env, c, calls))
  {
    hide Valid, Extends, Apply;
    if calls == [] {
      assert Extends(c, c) by { BlocksKeep(env, c, 0); assert Apply(env, c, Blocks(0)) == c by { ApplyNoBlocks(env, c); } }
    } else {
      var d := Run(env, c, calls[..|calls| - 1]);
      RunKeeps(env, c, calls[..|calls| - 1]);
      match calls[|calls| - 1] {
        case ApproveCall(a) => ApproveKeeps(env, d, a);
        case RevokeCall(sid, v, approval, reason) => RevokeKeeps(env, d, sid, v, approval, reason);
        case Blocks(n) => BlocksKeep(env, d, n);
      }
      ExtendsTransitive(c, d, Apply(env, d, calls[|calls| - 1]));
    }
  }

  lemma ApplyNoBlocks(env: Env, c: Chain)
    ensures Apply(env, c, Blocks(0)) == c
  {
  }

  // ------------------------------------------------------------------ the lookup over runs

  /** The answer is determined: at most one outcome is the active policy. */
  lemma ActiveUnique(s: State, sid: Id32, at: Block, r: Option<Policy>, q: Option<Policy>)
    requires IsActive(s, sid, at, r) && IsActive(s, sid, at, q)
    ensures r == q
  {
  }

  lemma SameApplicable(env: Env, c: Chain, d: Chain, sid: Id32, v: U32, at: Block)
    requires Valid(env, c) && Valid(env, d) && Extends(c, d) && at < c.now
    ensures Applicable(c.state, sid, v, at) <==> Applicable(d.state, sid, v, at)
    ensures (sid, v) in c.state.versions ==>
      (sid, v) in d.state.versions && (InForce(c.state, sid, v, at) <==> InForce(d.state, sid, v, at))
  {
    assert ExtendsAt(c, d, sid, v);
  }

  /** The past is final: for any earlier block, the answer is the same after every later run. */
  lemma {:induction false} PastIsFinal(env: Env, c: Chain, calls: seq<Call>, sid: Id32, at: Block, r: Option<Policy>)
    requires Valid(env, c) && at < c.now
    ensures IsActive(c.state, sid, at, r) <==> IsActive(Run(env, c, calls).state, sid, at, r)
  {
    hide Valid, Extends, Run, Applicable, InForce;
    var d := Run(env, c, calls);
    RunKeeps(env, c, calls);
    forall v: U32
      ensures Applicable(c.state, sid, v, at) <==> Applicable(d.state, sid, v, at)
      ensures (sid, v) in c.state.versions ==>
        (sid, v) in d.state.versions && (InForce(c.state, sid, v, at) <==> InForce(d.state, sid, v, at))
    {
      SameApplicable(env, c, d, sid, v, at);
    }
    ApplicableIsStored(c.state, sid, at);
    ApplicableIsStored(d.state, sid, at);
    forall v: U32 ensures Newest(c.state, sid, v, at) <==> Newest(d.state, sid, v, at) {}
    SameAnswer(env, c, d, sid, at, r);
  }

  lemma ApplicableIsStored(s: State, sid: Id32, at: Block)
    ensures forall v: U32 :: Applicable(s, sid, v, at) ==> (sid, v) in s.versions
  {
  }

  lemma SameAnswer(env: Env, c: Chain, d: Chain, sid: Id32, at: Block, r: Option<Policy>)
    requires Valid(env, c) && Valid(env, d) && Extends(c, d) && at < c.now
    requires forall v: U32 :: Newest(c.state, sid, v, at) <==> Newest(d.state, sid, v, at)
    ensures IsActive(c.state, sid, at, r) <==> IsActive(d.state, sid, at, r)
  {
    forall v: U32 | Newest(c.state, sid, v, at)
      ensures InForce(c.state, sid, v, at) <==> InForce(d.state, sid, v, at)
      ensures c.state.versions[(sid, v)] == d.state.versions[(sid, v)]
    {
      assert Newest(d.state, sid, v, at);
      assert ExtendsAt(c, d, sid, v);
    }
  }

  // ------------------------------------------------------------------ what can still change

  predicate Admissible(scope: Scope) {
    scope.tenant != ZERO_ID && scope.jurisdiction != ZERO_ID && scope.purpose != ZERO_ID
  }

  ghost predicate SomeActive(s: State, sid: Id32, at: Block) {
    exists p :: IsActive(s, sid, at, Some(p))
  }

  /** Another version can be recorded that is effective at `at`. */
  ghost predicate RoomFor(env: Env, s: State, sid: Id32, at: Block) {
    && |Index(s, sid)| < env.maxVersions
    && (Index(s, sid) != [] && (sid, Last(Index(s, sid))) in s.versions ==>
          s.versions[(sid, Last(Index(s, sid)))].approval.from <= at)
  }

  /** The block is not past, and something can be revoked or recorded for it. */
  ghost predicate Open(env: Env, c: Chain, sid: Id32, at: Block) {
    c.now <= at && (SomeActive(c.state, sid, at) || RoomFor(env, c.state, sid, at))
  }

  /** Revoking the version in force ends it at once, for the current block and every later one. */
  lemma RevocationEndsIt(env: Env, c: Chain, sid: Id32, v: U32, at: Block)
    requires Valid(env, c) && c.now <= at && Newest(c.state, sid, v, at) && InForce(c.state, sid, v, at)
    ensures IsActive(c.state, sid, at, Some(c.state.versions[(sid, v)]))
    ensures !IsActive(Apply(env, c, RevokeCall(sid, v, 1, 1)).state, sid, at, Some(c.state.versions[(sid, v)]))
  {
    assert VersionAt(env, c.state, c.now, sid, v);
    var t := Apply(env, c, RevokeCall(sid, v, 1, 1)).state;
    forall w: U32 ensures Applicable(t, sid, w, at) <==> Applicable(c.state, sid, w, at) {}
    assert Newest(t, sid, v, at) && !InForce(t, sid, v, at);
    assert forall w: U32 :: Newest(t, sid, w, at) ==> w == v;
  }

  /** The approval that uses the room. */
  function NextApproval(s: State, now: Block, scope: Scope, sid: Id32, at: Block): Approval
    requires |Index(s, sid)| < U32_MAX
  {
    var last := Last(Index(s, sid));
    var earliest := if (sid, last) in s.versions then s.versions[(sid, last)].approval.from else 0;
    Approval(scope, |Index(s, sid)| + 1, 1, if earliest < now then now else earliest, at + 1, 1, 1)
  }

  lemma ApprovalTakesOver(env: Env, c: Chain, scope: Scope, at: Block)
    requires Valid(env, c) && Admissible(scope) && c.now <= at && RoomFor(env, c.state, env.scopeId(scope), at)
    ensures |Index(c.state, env.scopeId(scope))| < U32_MAX
    ensures var a := NextApproval(c.state, c.now, scope, env.scopeId(scope), at);
      !IsActive(Apply(env, c, ApproveCall(a)).state, env.scopeId(scope), at, None)
  {
    var sid := env.scopeId(scope);
    var n := |Index(c.state, sid)|;
    var a := NextApproval(c.state, c.now, scope, sid, at);
    assert IndexAt(env, c.state, sid);
    if n > 0 { assert VersionAt(env, c.state, c.now, sid, n); }
    assert VersionAt(env, c.state, c.now, sid, 0);
    assert VersionAt(env, c.state, c.now, sid, n + 1);
    NextIsApproved(env, c, scope, at);
    var t := Apply(env, c, ApproveCall(a)).state;
    forall w: U32 | Applicable(t, sid, w, at) ensures w <= n + 1 { assert VersionAt(env, c.state, c.now, sid, w); }
    assert Newest(t, sid, n + 1, at) && InForce(t, sid, n + 1, at);
  }

  lemma NextIsApproved(env: Env, c: Chain, scope: Scope, at: Block)
    requires Valid(env, c) && Admissible(scope) && c.now <= at && RoomFor(env, c.state, env.scopeId(scope), at)
    requires |Index(c.state, env.scopeId(scope))| < U32_MAX
    ensures var sid := env.scopeId(scope); var a := NextApproval(c.state, c.now, scope, sid, at);
      a.from <= at < a.until
      && Approve(env, c.state, c.now, a)
         == Ok(c.state.(versions := c.state.versions[(sid, a.version) := Policy(a, c.now)],
                        index := c.state.index[sid := Index(c.state, sid) + [a.version]]))
  {
    var sid := env.scopeId(scope);
    var n := |Index(c.state, sid)|;
    assert IndexAt(env, c.state, sid);
    assert VersionAt(env, c.state, c.now, sid, n);
    assert VersionAt(env, c.state, c.now, sid, n + 1);
  }

  /** With nothing active and no room, nothing ever becomes active for that block. */
  lemma ClosedStaysEmpty(env: Env, c: Chain, d: Chain, sid: Id32, at: Block)
    requires Valid(env, c) && Valid(env, d) && Extends(c, d)
    requires !SomeActive(c.state, sid, at) && !RoomFor(env, c.state, sid, at)
    ensures IsActive(d.state, sid, at, None)
  {
    forall v: U32 | Newest(d.state, sid, v, at) ensures !InForce(d.state, sid, v, at) {
      assert ExtendsAt(c, d, sid, v) && VersionAt(env, d.state, d.now, sid, v);
      if (sid, v) in c.state.versions {
        forall w: U32 | Applicable(c.state, sid, w, at) ensures w <= v {
          assert ExtendsAt(c, d, sid, w);
          assert Applicable(d.state, sid, w, at);
        }
        assert Newest(c.state, sid, v, at);
        assert !IsActive(c.state, sid, at, Some(c.state.versions[(sid, v)]));
      } else {
        NewVersionIsLater(env, c, d, sid, v, at);
      }
    }
  }

  lemma NewVersionIsLater(env: Env, c: Chain, d: Chain, sid: Id32, v: U32, at: Block)
    requires Valid(env, c) && Valid(env, d) && Extends(c, d) && !RoomFor(env, c.state, sid, at)
    requires (sid, v) in d.state.versions && (sid, v) !in c.state.versions
    ensures !Applicable(d.state, sid, v, at)
  {
    var last := Last(Index(c.state, sid));
    assert ExtendsAt(c, d, sid, v) && VersionAt(env, d.state, d.now, sid, v);
    assert IndexAt(env, d.state, sid) && IndexAt(env, c.state, sid);
    assert ExtendsAt(c, d, sid, last) && OrderAt(d.state, sid, last, v);
  }

  lemma NothingElse(s: State, sid: Id32, at: Block)
    requires !SomeActive(s, sid, at)
    ensures IsActive(s, sid, at, None)
  {
    forall v: U32 | Newest(s, sid, v, at) ensures !InForce(s, sid, v, at) {
      assert !IsActive(s, sid, at, Some(s.versions[(sid, v)]));
    }
  }

  /** Some later run changes the answer for a block. */
  ghost predicate Changes(env: Env, c: Chain, calls: seq<Call>, sid: Id32, at: Block, r: Option<Policy>) {
    IsActive(c.state, sid, at, r) && !IsActive(Run(env, c, calls).state, sid, at, r)
  }

  lemma RunOne(env: Env, c: Chain, call: Call)
    ensures Run(env, c, [call]) == Apply(env, c, call)
  {
    assert [call][..0] == [];
    assert Run(env, c, []) == c;
  }

  lemma OpenChanges(env: Env, c: Chain, scope: Scope, at: Block) returns (calls: seq<Call>, r: Option<Policy>)
    requires Valid(env, c) && Admissible(scope) && Open(env, c, env.scopeId(scope), at)
    ensures Changes(env, c, calls, env.scopeId(scope), at, r)
  {
    hide Valid, Apply, RoomFor;
    var sid := env.scopeId(scope);
    if SomeActive(c.state, sid, at) {
      var p :| IsActive(c.state, sid, at, Some(p));
      var v: U32 :| Newest(c.state, sid, v, at) && InForce(c.state, sid, v, at) && p == c.state.versions[(sid, v)];
      RevocationEndsIt(env, c, sid, v, at);
      calls, r := [RevokeCall(sid, v, 1, 1)], Some(p);
    } else {
      NothingElse(c.state, sid, at);
      ApprovalTakesOver(env, c, scope, at);
      calls, r := [ApproveCall(NextApproval(c.state, c.now, scope, sid, at))], None;
    }
    hide IsActive;
    RunOne(env, c, calls[0]);
    assert calls == [calls[0]];
  }

  /** For a scope with proper identifiers, the answer for a block can still change if and only if the
      block is not past and either some version is active for it, or there is room for another one. */
  lemma AnswerCanChangeExactly(env: Env, c: Chain, scope: Scope, at: Block)
    requires Valid(env, c) && Admissible(scope)
    ensures (exists calls, r :: Changes(env, c, calls, env.scopeId(scope), at, r)) <==> Open(env, c, env.scopeId(scope), at)
  {
    var sid := env.scopeId(scope);
    hide Valid, Run, IsActive, RoomFor, Extends;
    if Open(env, c, sid, at) {
      var calls, r := OpenChanges(env, c, scope, at);
    } else {
      forall calls, r ensures !Changes(env, c, calls, sid, at, r) {
        if IsActive(c.state, sid, at, r) {
          if at < c.now {
            PastIsFinal(env, c, calls, sid, at, r);
          } else {
            RunKeeps(env, c, calls);
            NothingElse(c.state, sid, at);
            ActiveUnique(c.state, sid, at, r, None);
            ClosedStaysEmpty(env, c, Run(env, c, calls), sid, at);
          }
        }
      }
    }
  }

  /** The active version never decreases as the block grows. */
  lemma ActiveVersionAscends(env: Env, c: Chain, sid: Id32, at: Block, bt: Block, p: Policy, q: Policy)
    requires Valid(env, c) && at <= bt
    requires IsActive(c.state, sid, at, Some(p)) && IsActive(c.state, sid, bt, Some(q))
    ensures p.approval.version <= q.approval.version
  {
    var v: U32 :| Newest(c.state, sid, v, at) && p == c.state.versions[(sid, v)];
    var w: U32 :| Newest(c.state, sid, w, bt) && q == c.state.versions[(sid, w)];
    assert VersionAt(env, c.state, c.now, sid, v) && VersionAt(env, c.state, c.now, sid, w);
    assert Applicable(c.state, sid, v, bt);
  }

  /** Once the newest applicable version is revoked or expired, no version up to it is active at
      any later block in any later state: an older version is never revived. */
  lemma {:induction false} NeverRevived(env: Env, c: Chain, calls: seq<Call>, sid: Id32, v: U32, at: Block, bt: Block, q: Policy)
    requires Valid(env, c) && Newest(c.state, sid, v, at) && !InForce(c.state, sid, v, at) && at <= bt
    requires IsActive(Run(env, c, calls).state, sid, bt, Some(q))
    ensures v < q.approval.version
  {
    hide Run;
    var d := Run(env, c, calls);
    RunKeeps(env, c, calls);
    var w: U32 :| Newest(d.state, sid, w, bt) && InForce(d.state, sid, w, bt) && q == d.state.versions[(sid, w)];
    assert ExtendsAt(c, d, sid, v);
    assert Applicable(d.state, sid, v, bt);
    assert VersionAt(env, d.state, d.now, sid, w);
  }

  /** A recorded version becomes effective no earlier than it was recorded: the effective date alone decides. */
  lemma EffectiveImpliesRecorded(env: Env, c: Chain, sid: Id32, v: U32, at: Block)
    requires Valid(env, c) && (sid, v) in c.state.versions
    ensures Applicable(c.state, sid, v, at) <==> c.state.versions[(sid, v)].approval.from <= at
  {
    assert VersionAt(env, c.state, c.now, sid, v);
  }

  /** If no other recorded scope shares its identifier, the policy answered for a scope is that scope's own. */
  lemma AnswersOwnScope(env: Env, c: Chain, scope: Scope, at: Block, p: Policy)
    requires Valid(env, c) && IsActive(c.state, env.scopeId(scope), at, Some(p))
    requires env.scopeId(p.approval.scope) == env.scopeId(scope) ==> p.approval.scope == scope
    ensures p.approval.scope == scope
  {
    var v: U32 :| Newest(c.state, env.scopeId(scope), v, at) && p == c.state.versions[(env.scopeId(scope), v)];
    assert VersionAt(env, c.state, c.now, env.scopeId(scope), v);
  }

  /** An accepted approval can be retried at any later time: it succeeds and changes nothing. */
  lemma {:induction false} RetryIsHarmless(env: Env, c: Chain, a: Approval, calls: seq<Call>)
    requires Valid(env, c) && Approve(env, c.state, c.now, a).Ok?
    ensures var d := Run(env, Apply(env, c, ApproveCall(a)), calls);
      Approve(env, d.state, d.now, a) == Ok(d.state)
  {
    hide Run, Valid, Extends;
    var first := Apply(env, c, ApproveCall(a));
    ApproveKeeps(env, c, a);
    RunKeeps(env, first, calls);
    StaysStored(first, Run(env, first, calls), env.scopeId(a.scope), a.version);
  }

  /** ... and no other content is ever accepted under the same version of the scope. */
  lemma {:induction false} ApprovalIsNeverRewritten(env: Env, c: Chain, a: Approval, b: Approval, calls: seq<Call>)
    requires Valid(env, c) && Approve(env, c.state, c.now, a).Ok?
    requires b != a && b.scope == a.scope && b.version == a.version
    ensures var d := Run(env, Apply(env, c, ApproveCall(a)), calls);
      Approve(env, d.state, d.now, b).Err?
  {
    hide Run, Valid, Extends;
    var first := Apply(env, c, ApproveCall(a));
    ApproveKeeps(env, c, a);
    RunKeeps(env, first, calls);
    StaysStored(first, Run(env, first, calls), env.scopeId(a.scope), a.version);
  }

  lemma StaysStored(c: Chain, d: Chain, sid: Id32, v: U32)
    requires Extends(c, d) && (sid, v) in c.state.versions
    ensures (sid, v) in d.state.versions && d.state.versions[(sid, v)] == c.state.versions[(sid, v)]
  {
    assert ExtendsAt(c, d, sid, v);
  }

  // ------------------------------------------------------------------ what a call does

  /** An approval in any state a run can reach: refused with the first check that fails; a stored one with the very
      same content is accepted and changes nothing; otherwise it is stored as given at the current block, as the next version. */
  lemma ApproveOutcome(env: Env, c: Chain, a: Approval)
    requires Valid(env, c)
    ensures var s := c.state; var sid := env.scopeId(a.scope);
      var named := a.scope.tenant != ZERO_ID && a.scope.jurisdiction != ZERO_ID && a.scope.purpose != ZERO_ID
        && a.policyHash != ZERO_ID && a.approvalHash != ZERO_ID && a.evidenceHash != ZERO_ID;
      var stored := (sid, a.version) in s.versions;
      var forward := c.now <= a.from < a.until;
      var head: int := if sid in s.index then |s.index[sid]| else 0;
      var next := a.version == head + 1;
      var ordered := forall v: U32 :: (sid, v) in s.versions && v == head ==> s.versions[(sid, v)].approval.from <= a.from;
      match Approve(env, s, c.now, a)
      case Err(InvalidIdentifier) => !named
      case Err(VersionConflict) => named && stored && s.versions[(sid, a.version)].approval != a
      case Err(InvalidInterval) => named && !stored && !forward
      case Err(VersionOutOfSequence) => named && !stored && forward && !next
      case Err(EffectiveTimeRegression) => named && !stored && forward && next && !ordered
      case Err(VersionLimit) => named && !stored && forward && next && ordered && head >= env.maxVersions
      case Err(_) => false
      case Ok(t) =>
        if stored then named && s.versions[(sid, a.version)].approval == a && t == s
        else
          && named && forward && next && ordered && head < env.maxVersions
          && t.versions == s.versions[(sid, a.version) := Policy(a, c.now)]
          && t.index == s.index[sid := (if sid in s.index then s.index[sid] else []) + [a.version]]
          && t.revocations == s.revocations
  {
    var sid := env.scopeId(a.scope);
    assert IndexAt(env, c.state, sid);
    assert VersionAt(env, c.state, c.now, sid, a.version);
    assert VersionAt(env, c.state, c.now, sid, Last(Index(c.state, sid)));
  }

  /** A revocation: the first one is stored with its two hashes and the current block, the same one again is accepted
      and changes nothing, and any other one is refused. */
  lemma RevokeOutcome(s: State, now: Block, sid: Id32, version: U32, approvalHash: Id32, reasonHash: Id32)
    ensures var named := approvalHash != ZERO_ID && reasonHash != ZERO_ID;
      var stored := (sid, version) in s.versions;
      var revoked := (sid, version) in s.revocations;
      var same := revoked ==> s.revocations[(sid, version)].approvalHash == approvalHash
                              && s.revocations[(sid, version)].reasonHash == reasonHash;
      match Revoke(s, now, sid, version, approvalHash, reasonHash)
      case Err(InvalidIdentifier) => !named
      case Err(PolicyMissing) => named && !stored
      case Err(AlreadyRevoked) => named && stored && revoked && !same
      case Err(_) => false
      case Ok(t) =>
        && named && stored && same && t.versions == s.versions && t.index == s.index
        && if revoked then t.revocations == s.revocations
           else
             && (sid, version) in t.revocations
             && t.revocations == s.revocations[(sid, version) := t.revocations[(sid, version)]]
             && var r := t.revocations[(sid, version)];
                r.approvalHash == approvalHash && r.reasonHash == reasonHash && r.revokedAt == now
  {
  }

  /** The version is recorded and effective at the block, every later one is not yet, and it is neither ended nor
      revoked there. */
  ghost predicate Governs(s: State, sid: Id32, v: U32, at: Block) {
    && (sid, v) in s.versions
    && (var p := s.versions[(sid, v)]; p.recordedAt <= at && p.approval.from <= at < p.approval.until)
    && ((sid, v) in s.revocations ==> at < s.revocations[(sid, v)].revokedAt)
    && (forall w: U32 :: w > v && (sid, w) in s.versions ==>
          at < s.versions[(sid, w)].recordedAt || at < s.versions[(sid, w)].approval.from)
  }

  lemma GovernsExactly(s: State, sid: Id32, v: U32, at: Block)
    ensures Governs(s, sid, v, at) <==> Newest(s, sid, v, at) && InForce(s, sid, v, at)
  {
    if Newest(s, sid, v, at) {
      forall w: U32 | w > v && (sid, w) in s.versions
        ensures at < s.versions[(sid, w)].recordedAt || at < s.versions[(sid, w)].approval.from
      {
        assert !Applicable(s, sid, w, at);
      }
    }
  }

  lemma GovernsUnique(s: State, sid: Id32, v: U32, w: U32, at: Block)
    requires Governs(s, sid, v, at) && Governs(s, sid, w, at)
    ensures v == w
  {
    GovernsExactly(s, sid, v, at);
    GovernsExactly(s, sid, w, at);
  }

  /** The lookup in terms of the stored maps: it answers with exactly the version that governs the block. */
  lemma LookupOutcome(s: State, sid: Id32, at: Block, r: Option<Policy>, p: Policy)
    requires IsActive(s, sid, at, r)
    ensures r == Some(p) <==> exists v: U32 :: Governs(s, sid, v, at) && p == s.versions[(sid, v)]
  {
    if r.Some? {
      var w: U32 :| Newest(s, sid, w, at) && InForce(s, sid, w, at) && r.value == s.versions[(sid, w)];
      GovernsExactly(s, sid, w, at);
      hide Newest, InForce, Governs;
      if v: U32 :| Governs(s, sid, v, at) && p == s.versions[(sid, v)] { GovernsUnique(s, sid, v, w, at); }
    } else if v: U32 :| Governs(s, sid, v, at) {
      GovernsExactly(s, sid, v, at);
    }
  }
}
