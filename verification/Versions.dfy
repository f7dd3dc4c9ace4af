/**
 Versioned record families as the licensing pallet stores them: a head per id and one
 immutable record per (id, version), each carrying the hash of the record before it.
 */
module Versions {
  import opened Prelude

  datatype Versioned<+T> = Versioned(version: U32, body: T, previous: Option<Id32>, hash: Id32)

  datatype Family<T> = Family(heads: map<Id32, U32>, versions: map<(Id32, U32), Versioned<T>>)

  datatype VersionError = InvalidVersion | PreviousHashMismatch

  function Empty<T>(): Family<T> { Family(map[], map[]) }

  function Stored<T>(f: Family<T>, id: Id32, version: U32): Option<Versioned<T>> {
    if (id, version) in f.versions then Some(f.versions[(id, version)]) else None
  }

  /** The record at the head, if there is one. */
  function Current<T>(f: Family<T>, id: Id32): Option<Versioned<T>> {
    if id in f.heads then Stored(f, id, f.heads[id]) else None
  }

  function HashOf<T>(v: Option<Versioned<T>>): Option<Id32> {
    if v.Some? then Some(v.value.hash) else None
  }

  /** `validate_version`: the next number (which saturates) and the hash of the head record. */
  function ValidateVersion<T>(f: Family<T>, id: Id32, version: U32, previous: Option<Id32>): Option<VersionError> {
    if id !in f.heads then
      if version == 1 && previous.None? then None else Some(InvalidVersion)
    else if version != SaturatingAdd32(f.heads[id], 1) then Some(InvalidVersion)
    else if previous != HashOf(Stored(f, id, f.heads[id])) then Some(PreviousHashMismatch)
    else None
  }

  function Put<T>(f: Family<T>, id: Id32, v: Versioned<T>): Family<T> {
    Family(f.heads[id := v.version], f.versions[(id, v.version) := v])
  }

  predicate Accepts<T>(f: Family<T>, id: Id32, v: Versioned<T>) {
    (id, v.version) !in f.versions && ValidateVersion(f, id, v.version, v.previous).None?
  }

  // ------------------------------------------------------------------ the invariant

  /** The record at (id, k) exists exactly when `k` is in 1..head, and then names its predecessor's hash. */
  ghost predicate LinkedAt<T>(f: Family<T>, id: Id32, k: U32) {
    && ((id, k) in f.versions <==> id in f.heads && 1 <= k <= f.heads[id])
    && ((id, k) in f.versions ==>
          && f.versions[(id, k)].version == k
          && (k == 1 ==> f.versions[(id, k)].previous.None?)
          && (k > 1 ==> f.versions[(id, k)].previous == HashOf(Stored(f, id, k - 1))))
  }

  /** Each id with a head `h` has exactly the versions 1..h, each carrying its predecessor's hash. */
  ghost predicate Dense<T>(f: Family<T>) {
    && (forall id :: id in f.heads ==> 1 <= f.heads[id])
    && (forall id, k: U32 :: LinkedAt(f, id, k))
  }

  /** Nothing stored is ever changed or removed, and heads only grow. */
  ghost predicate Grows<T>(f: Family<T>, g: Family<T>) {
    && (forall id, k: U32 :: (id, k) in f.versions ==> (id, k) in g.versions && g.versions[(id, k)] == f.versions[(id, k)])
    && (forall id :: id in f.heads ==> id in g.heads && f.heads[id] <= g.heads[id])
  }

  lemma NextVersion<T>(f: Family<T>, id: Id32, v: Versioned<T>)
    requires Dense(f) && Accepts(f, id, v)
    ensures id in f.heads ==> f.heads[id] < v.version == f.heads[id] + 1
    ensures id !in f.heads ==> v.version == 1
    ensures v.previous == HashOf(Current(f, id))
  {
    if id in f.heads { assert LinkedAt(f, id, f.heads[id]); }
  }

  lemma PutKeepsDense<T>(f: Family<T>, id: Id32, v: Versioned<T>)
    requires Dense(f) && Accepts(f, id, v)
    ensures Dense(Put(f, id, v)) && Grows(f, Put(f, id, v))
  {
    var g := Put(f, id, v);
    NextVersion(f, id, v);
    forall i, k: U32 ensures LinkedAt(g, i, k) {
      assert LinkedAt(f, i, k);
      if i == id && k == v.version && k > 1 { assert LinkedAt(f, id, k - 1); }
    }
  }

  /** At the last number the successor saturates: the version check alone then accepts the stored
      head again, so only the already-exists check stops the overwrite. This is the only such case. */
  lemma OnlySaturationAcceptsAStoredVersion<T>(f: Family<T>, id: Id32, version: U32, previous: Option<Id32>)
    requires Dense(f)
    ensures (ValidateVersion(f, id, version, previous).None? && (id, version) in f.versions)
            <==> (id in f.heads && f.heads[id] == U32_MAX && version == U32_MAX
                  && previous == HashOf(Current(f, id)))
  {
    assert LinkedAt(f, id, version);
  }

  /** `allowed` relates version k of the record to version k + 1. */
  ghost predicate StepAt<T(!new)>(f: Family<T>, allowed: (T, T) -> bool, id: Id32, k: U32) {
    (k < U32_MAX && (id, k) in f.versions && (id, k + 1) in f.versions) ==>
      allowed(f.versions[(id, k)].body, f.versions[(id, k + 1)].body)
  }

  ghost predicate Steps<T(!new)>(f: Family<T>, allowed: (T, T) -> bool) {
    forall id, k: U32 :: StepAt(f, allowed, id, k)
  }

  /** A rule checked between the head and each new version holds along the whole line. */
  lemma PutKeepsSteps<T(!new)>(f: Family<T>, id: Id32, v: Versioned<T>, allowed: (T, T) -> bool)
    requires Dense(f) && Accepts(f, id, v) && Steps(f, allowed)
    requires Current(f, id).Some? ==> allowed(Current(f, id).value.body, v.body)
    ensures Steps(Put(f, id, v), allowed)
  {
    var g := Put(f, id, v);
    NextVersion(f, id, v);
    forall i, k: U32 ensures StepAt(g, allowed, i, k) {
      assert StepAt(f, allowed, i, k) && LinkedAt(f, i, k);
      if k < U32_MAX { assert LinkedAt(f, i, k + 1); }
    }
  }

  /** What every allowed step passes on holds from version `j` to every later version. */
  lemma {:induction false} Carried<T(!new)>(f: Family<T>, allowed: (T, T) -> bool, p: T -> bool, id: Id32, j: U32, k: U32)
    requires Dense(f) && Steps(f, allowed) && j <= k && (id, j) in f.versions && (id, k) in f.versions
    requires forall a, b :: p(a) && allowed(a, b) ==> p(b)
    requires p(f.versions[(id, j)].body)
    ensures p(f.versions[(id, k)].body)
    decreases k - j
  {
    if j < k {
      assert LinkedAt(f, id, k) && LinkedAt(f, id, j) && LinkedAt(f, id, k - 1);
      Carried(f, allowed, p, id, j, k - 1);
      assert StepAt(f, allowed, id, k - 1);
    }
  }
}
