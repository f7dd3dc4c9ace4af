/** The policy pallet as it runs: storage maps updated in place and the reverse scan of the lookup. */
module PolicyPallet {
  import opened Prelude
  import opened Primitives
  import opened PolicyModel
  import Proofs = PolicyProofs

  class PolicyPallet {
    const env: Env
    var versions: map<(Id32, U32), Policy>
    var index: map<Id32, seq<U32>>
    var revocations: map<(Id32, U32), Revocation>

    ghost function Storage(): State
      reads this
    {
      State(versions, index, revocations)
    }

    ghost predicate Valid(now: Block)
      reads this
    {
      Proofs.Valid(env, Chain(now, Storage()))
    }

    constructor (env: Env)
      ensures this.env == env && Storage() == EMPTY && Valid(0)
    {
      this.env := env;
      versions, index, revocations := map[], map[], map[];
      new;
      Proofs.EmptyValid(env);
    }

    method ApproveVersion(now: Block, a: Approval) returns (outcome: Result<(), PolicyError>)
      requires Valid(now)
      modifies this
      ensures Valid(now)
      ensures match Approve(env, old(Storage()), now, a)
        case Ok(after) => outcome == Ok(()) && Storage() == after
        case Err(e) => outcome == Err(e) && Storage() == old(Storage())
    {
      hide Proofs.Valid;
      Proofs.ApproveKeeps(env, Chain(now, Storage()), a);
      if a.scope.tenant == ZERO_ID || a.scope.jurisdiction == ZERO_ID || a.scope.purpose == ZERO_ID
         || a.policyHash == ZERO_ID || a.approvalHash == ZERO_ID || a.evidenceHash == ZERO_ID {
        return Err(InvalidIdentifier);
      }
      var sid := env.scopeId(a.scope);
      if (sid, a.version) in versions {
        var existing := versions[(sid, a.version)].approval;
        if existing.scope == a.scope && existing.policyHash == a.policyHash && existing.from == a.from
           && existing.until == a.until && existing.approvalHash == a.approvalHash && existing.evidenceHash == a.evidenceHash {
          return Ok(());
        }
        return Err(VersionConflict);
      }
      if !(a.from >= now && a.until > a.from) { return Err(InvalidInterval); }
      var list: seq<U32> := if sid in index then index[sid] else [];
      var previous: U32 := Last(list);
      if previous == U32_MAX || previous + 1 != a.version { return Err(VersionOutOfSequence); }
      if previous != 0 {
        if (sid, previous) !in versions { return Err(PolicyMissing); }
        if a.from < versions[(sid, previous)].approval.from { return Err(EffectiveTimeRegression); }
      }
      if |list| >= env.maxVersions { return Err(VersionLimit); }
      versions := versions[(sid, a.version) := Policy(a, now)];
      index := index[sid := list + [a.version]];
      return Ok(());
    }

    method RevokeVersion(now: Block, sid: Id32, version: U32, approvalHash: Id32, reasonHash: Id32)
      returns (outcome: Result<(), PolicyError>)
      requires Valid(now)
      modifies this
      ensures Valid(now)
      ensures match Revoke(old(Storage()), now, sid, version, approvalHash, reasonHash)
        case Ok(after) => outcome == Ok(()) && Storage() == after
        case Err(e) => outcome == Err(e) && Storage() == old(Storage())
    {
      hide Proofs.Valid;
      Proofs.RevokeKeeps(env, Chain(now, Storage()), sid, version, approvalHash, reasonHash);
      if approvalHash == ZERO_ID || reasonHash == ZERO_ID { return Err(InvalidIdentifier); }
      if (sid, version) !in versions { return Err(PolicyMissing); }
      if (sid, version) in revocations {
        var prior := revocations[(sid, version)];
        if prior.approvalHash != approvalHash || prior.reasonHash != reasonHash { return Err(AlreadyRevoked); }
        return Ok(());
      }
      revocations := revocations[(sid, version) := Revocation(approvalHash, reasonHash, now)];
      return Ok(());
    }

    /** The scan answers with the newest applicable version if it is in force, and with nothing otherwise. */
    method ActivePolicy(now: Block, scope: Scope, at: Block) returns (r: Option<Policy>)
      requires Valid(now)
      ensures IsActive(Storage(), env.scopeId(scope), at, r)
    {
      var sid := env.scopeId(scope);
      ghost var c := Chain(now, Storage());
      var list: seq<U32> := if sid in index then index[sid] else [];
      assert Proofs.IndexAt(env, Storage(), sid);
      forall v: U32 | Applicable(Storage(), sid, v, at) ensures 1 <= v <= |list| {
        assert Proofs.VersionAt(env, Storage(), now, sid, v);
      }
      var i := |list|;
      while i > 0
        invariant 0 <= i <= |list|
        invariant forall v: U32 :: Applicable(Storage(), sid, v, at) ==> 1 <= v <= i
      {
        i := i - 1;
        var version := list[i];
        assert Proofs.VersionAt(env, Storage(), now, sid, version);
        if (sid, version) !in versions { return None; }
        var policy := versions[(sid, version)];
        if policy.approval.from > at || policy.recordedAt > at { continue; }
        assert Newest(Storage(), sid, version, at);
        if policy.approval.until <= at { return None; }
        if (sid, version) in revocations && revocations[(sid, version)].revokedAt <= at { return None; }
        return Some(policy);
      }
      return None;
    }
  }
}
