/**
 The policy registry: numbered approvals per scope, revocations, and a lookup by block that
 scans the versions newest first. Scope identifiers are hashes: any function will do.
 */
module PolicyModel {
  import opened Prelude
  import opened Primitives

  datatype Scope = Scope(tenant: Id32, jurisdiction: Id32, purpose: Id32)

  datatype Approval = Approval(
    scope: Scope, version: U32, policyHash: Id32, from: Block, until: Block, approvalHash: Id32, evidenceHash: Id32)

  datatype Policy = Policy(approval: Approval, recordedAt: Block)

  datatype Revocation = Revocation(approvalHash: Id32, reasonHash: Id32, revokedAt: Block)

  datatype PolicyError =
    | InvalidIdentifier | InvalidInterval | VersionOutOfSequence | VersionConflict | VersionLimit
    | EffectiveTimeRegression | PolicyMissing | AlreadyRevoked

  datatype Env = Env(scopeId: Scope -> Id32, maxVersions: U32)

  datatype State = State(
    versions: map<(Id32, U32), Policy>, index: map<Id32, seq<U32>>, revocations: map<(Id32, U32), Revocation>)

  const EMPTY: State := State(map[], map[], map[])

  function Index(s: State, sid: Id32): seq<U32> {
    if sid in s.index then s.index[sid] else []
  }

  function Last(index: seq<U32>): U32 {
    if index == [] then 0 else index[|index| - 1]
  }

  // ------------------------------------------------------------------ the extrinsics

  function Approve(env: Env, s: State, now: Block, a: Approval): Result<State, PolicyError> {
    var sid := env.scopeId(a.scope);
    var index := Index(s, sid);
    var previous := Last(index);
    if a.scope.tenant == ZERO_ID || a.scope.jurisdiction == ZERO_ID || a.scope.purpose == ZERO_ID
       || a.policyHash == ZERO_ID || a.approvalHash == ZERO_ID || a.evidenceHash == ZERO_ID then Err(InvalidIdentifier)
    else if (sid, a.version) in s.versions then
      if s.versions[(sid, a.version)].approval.(version := a.version) == a then Ok(s) else Err(VersionConflict)
    else if a.from < now || a.until <= a.from then Err(InvalidInterval)
    else if previous == U32_MAX || previous + 1 != a.version then Err(VersionOutOfSequence)
    else if previous != 0 && (sid, previous) !in s.versions then Err(PolicyMissing)
    else if previous != 0 && a.from < s.versions[(sid, previous)].approval.from then Err(EffectiveTimeRegression)
    else if |index| >= env.maxVersions then Err(VersionLimit)
    else Ok(s.(versions := s.versions[(sid, a.version) := Policy(a, now)], index := s.index[sid := index + [a.version]]))
  }

  function Revoke(s: State, now: Block, sid: Id32, version: U32, approvalHash: Id32, reasonHash: Id32)
    : Result<State, PolicyError>
  {
    if approvalHash == ZERO_ID || reasonHash == ZERO_ID then Err(InvalidIdentifier)
    else if (sid, version) !in s.versions then Err(PolicyMissing)
    else if (sid, version) in s.revocations then
      var prior := s.revocations[(sid, version)];
      if prior.approvalHash == approvalHash && prior.reasonHash == reasonHash then Ok(s) else Err(AlreadyRevoked)
    else Ok(s.(revocations := s.revocations[(sid, version) := Revocation(approvalHash, reasonHash, now)]))
  }

  // ------------------------------------------------------------------ the lookup

  predicate Applicable(s: State, sid: Id32, version: U32, at: Block) {
    && (sid, version) in s.versions
    && s.versions[(sid, version)].approval.from <= at && s.versions[(sid, version)].recordedAt <= at
  }

  predicate RevokedBy(s: State, sid: Id32, version: U32, at: Block) {
    (sid, version) in s.revocations && s.revocations[(sid, version)].revokedAt <= at
  }

  /** Neither expired nor revoked at `at`. */
  predicate InForce(s: State, sid: Id32, version: U32, at: Block)
    requires (sid, version) in s.versions
  {
    at < s.versions[(sid, version)].approval.until && !RevokedBy(s, sid, version, at)
  }

  /** The greatest version recorded and effective at `at`. */
  ghost predicate Newest(s: State, sid: Id32, version: U32, at: Block) {
    Applicable(s, sid, version, at) && forall v: U32 :: Applicable(s, sid, v, at) ==> v <= version
  }

  /** What the lookup promises: the newest applicable version when it is in force, and nothing otherwise. */
  ghost predicate IsActive(s: State, sid: Id32, at: Block, r: Option<Policy>) {
    match r
    case Some(p) =>
      exists v: U32 :: Newest(s, sid, v, at) && InForce(s, sid, v, at) && p == s.versions[(sid, v)]
    case None =>
      forall v: U32 :: Newest(s, sid, v, at) ==> !InForce(s, sid, v, at)
  }

  // ------------------------------------------------------------------ runs

  datatype Call =
    | ApproveCall(approval: Approval)
    | RevokeCall(sid: Id32, version: U32, approvalHash: Id32, reasonHash: Id32)
    | Blocks(n: nat)

  datatype Chain = Chain(now: Block, state: State)

  function Apply(env: Env, c: Chain, call: Call): Chain {
    match call
    case ApproveCall(a) => c.(state := Settled(Approve(env, c.state, c.now, a), c.state))
    case RevokeCall(sid, v, approval, reason) => c.(state := Settled(Revoke(c.state, c.now, sid, v, approval, reason), c.state))
    case Blocks(n) => c.(now := c.now + n)
  }

  function Run(env: Env, c: Chain, calls: seq<Call>): Chain {
    if calls == [] then c else Apply(env, Run(env, c, calls[..|calls| - 1]), calls[|calls| - 1])
  }
}
