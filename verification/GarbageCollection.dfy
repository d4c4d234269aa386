/**
 * The garbage collector over the blob store (src/services/gc.service.ts): which candidates may really be deleted, the
 * run over them, and what that means for pinned blobs over whole runs of the node. What the replicas answer, the
 * clock, the free disk space and the order of the metadata directory are parameters.
 */
module GarbageCollection {
  import opened Sequences
  import opened Storage
  import opened Candidates
  import ReplicaVerification
  import Sharding

  datatype Config = Config(
    policy: Policy, replicationFactor: int, shardCount: nat, nodeShards: Sharding.Shards, hash48: string -> nat)

  /** What a run sees of the outside: for every blob the answers of its replicas, the clock, the disk, the directory. */
  datatype World = World(
    answers: string -> ReplicaVerification.Answers, now: int, free: nat, readdir: set<string> -> seq<string>)

  /** A directory listing names every file once. */
  ghost predicate GoodWorld(world: World)
  {
    forall names :: NoDup(world.readdir(names)) && Elements(world.readdir(names)) == names
  }

  /** A record that cannot be read yields no verdict: the check throws. */
  datatype Verdict = Allowed | Unreadable | IsPinned | ShardMismatch | InsufficientReplicas

  datatype GCResult = GCResult(
    checked: nat, deleted: nat, skippedPinned: nat, skippedInsufficientReplicas: nat, skippedShardMismatch: nat,
    freedBytes: nat, deletedCids: seq<string>)

  datatype Deletion = Deleted(size: nat) | NotDeleted(verdict: Verdict) | Threw(error: Error)

  // ---------------------------------------------------------------- the safety checks

  predicate InShard(config: Config, cid: string)
    requires config.shardCount > 0
  {
    Sharding.Responsible(Sharding.ShardKey(cid, config.shardCount, config.hash48), config.nodeShards)
  }

  /** `checkReplicationFactor`: the recorded replicas, and their proofs if any is recorded. */
  predicate EnoughReplicas(config: Config, m: Metadata, answers: ReplicaVerification.Answers)
  {
    && |m.replicatedTo| >= config.replicationFactor - 1
    && (m.replicatedTo == [] ||
        ReplicaVerification.Verified(answers, m.replicatedTo, config.replicationFactor - 1, true).sufficient)
  }

  function Judge(config: Config, m: Metadata, cid: string, answers: ReplicaVerification.Answers): Verdict
    requires config.shardCount > 0
  {
    if m.pinned then IsPinned
    else if !InShard(config, cid) then ShardMismatch
    else if !EnoughReplicas(config, m, answers) then InsufficientReplicas
    else Allowed
  }

  /** `canSafelyDelete`. */
  function SafeToDelete(config: Config, env: Env, meta: Records, cid: string, world: World): Verdict
    requires config.shardCount > 0
  {
    if cid !in meta || !Intact(env, meta[cid]) then Unreadable
    else Judge(config, meta[cid], cid, world.answers(cid))
  }

  /**
   * A blob is only given up when it is unpinned, belongs here, and enough other nodes have proved that they hold it.
   */
  lemma AllowedIff(config: Config, env: Env, meta: Records, cid: string, world: World)
    requires config.shardCount > 0
    ensures SafeToDelete(config, env, meta, cid, world) == Allowed <==>
            && cid in meta && Intact(env, meta[cid]) && !meta[cid].pinned
            && Sharding.Responsible(Sharding.ShardKey(cid, config.shardCount, config.hash48), config.nodeShards)
            && |meta[cid].replicatedTo| >= config.replicationFactor - 1
            && (meta[cid].replicatedTo != [] ==>
                  var urls := meta[cid].replicatedTo;
                  var checked :=
                    ReplicaVerification.Verified(world.answers(cid), urls, config.replicationFactor - 1, true);
                  |ReplicaVerification.GetActiveReplicas(checked)| >= config.replicationFactor - 1)
  {
    if cid in meta {
      ReplicaVerification.VerdictCountsActive(
        world.answers(cid), meta[cid].replicatedTo, config.replicationFactor - 1, true);
    }
  }

  /** Every verdict, by the first check that fails. */
  lemma VerdictMeans(config: Config, env: Env, meta: Records, cid: string, world: World)
    requires config.shardCount > 0
    ensures var verdict := SafeToDelete(config, env, meta, cid, world);
            && (verdict == Unreadable <==> cid !in meta || !Intact(env, meta[cid]))
            && (verdict == IsPinned <==> cid in meta && Intact(env, meta[cid]) && meta[cid].pinned)
            && (verdict == ShardMismatch <==>
                && cid in meta && Intact(env, meta[cid]) && !meta[cid].pinned
                && !Sharding.Responsible(Sharding.ShardKey(cid, config.shardCount, config.hash48), config.nodeShards))
  {
  }

  // ---------------------------------------------------------------- one run

  /** How a result changes with the verdict on one more candidate. */
  function Counted(r: GCResult, c: Candidate, verdict: Verdict): GCResult
  {
    match verdict
    case Allowed =>
      r.(deleted := r.deleted + 1, freedBytes := r.freedBytes + c.size, deletedCids := r.deletedCids + [c.cid])
    case IsPinned => r.(skippedPinned := r.skippedPinned + 1)
    case InsufficientReplicas => r.(skippedInsufficientReplicas := r.skippedInsufficientReplicas + 1)
    case ShardMismatch => r.(skippedShardMismatch := r.skippedShardMismatch + 1)
    case Unreadable => r
  }

  /** How far a run has come; an error aborts it. */
  datatype Swept = Swept(state: State, result: GCResult, error: Option<Error>)

  function NoResult(checked: nat): GCResult
  {
    GCResult(checked, 0, 0, 0, 0, 0, [])
  }

  /** One candidate of a run that has not been aborted. */
  function SweepOne(config: Config, env: Env, before: Swept, world: World, c: Candidate, simulate: bool): Swept
    requires config.shardCount > 0
  {
    var s, failure := before.state, GetMetadata(env, before.state.meta, c.cid).1;
    var verdict := SafeToDelete(config, env, s.meta, c.cid, world);
    if failure.Some? then before.(error := failure)
    else if verdict == Allowed && !simulate && DeleteBlob(s, c.cid).1.Some? then
      Swept(DeleteBlob(s, c.cid).0, before.result, DeleteBlob(s, c.cid).1)
    else
      var t := if verdict == Allowed && !simulate then DeleteBlob(s, c.cid).0 else s;
      Swept(t, Counted(before.result, c, verdict), None)
  }

  /** The loop over the candidates. */
  function Sweep(
    config: Config, env: Env, s: State, world: World, candidates: seq<Candidate>, simulate: bool, checked: nat)
    : Swept
    requires config.shardCount > 0
  {
    if candidates == [] then Swept(s, NoResult(checked), None)
    else
      var before := Sweep(config, env, s, world, candidates[..|candidates| - 1], simulate, checked);
      if before.error.Some? then before
      else SweepOne(config, env, before, world, candidates[|candidates| - 1], simulate)
  }

  ghost function UsageOf(env: Env, s: State, world: World): Usage
  {
    Usage(SizeOf(s.blobs), PinnedSize(env, s), world.free)
  }

  /** What a run goes through, in order. */
  ghost function Proposed(config: Config, env: Env, s: State, world: World): seq<Candidate>
  {
    var cids := ListedCids(env, s, world);
    Choose(config.policy, AllCandidates(env, s.meta, cids, world.now), UsageOf(env, s, world))
  }

  ghost function ListedCids(env: Env, s: State, world: World): seq<string>
  {
    Cids(ListBlobs(env, s.meta, world.readdir(s.meta.Keys)))
  }

  /** `runGC`, which a record that cannot be read aborts. */
  ghost function Collect(config: Config, env: Env, s: State, world: World, simulate: bool): Swept
    requires config.shardCount > 0
  {
    var cids := ListedCids(env, s, world);
    var unreadable := FirstUnreadable(env, s.meta, cids);
    if unreadable.Some? then Swept(s, NoResult(|cids|), unreadable)
    else Sweep(config, env, s, world, Proposed(config, env, s, world), simulate, |cids|)
  }

  /** `deleteSingleBlob`. */
  function DeleteSingle(config: Config, env: Env, s: State, cid: string, skipReplicationCheck: bool, world: World)
    : (State, Deletion)
    requires config.shardCount > 0
  {
    var (found, failure) := GetMetadata(env, s.meta, cid);
    if failure.Some? then (s, Threw(failure.value))
    else
      var verdict := SafeToDelete(config, env, s.meta, cid, world);
      if verdict == Allowed || (verdict == InsufficientReplicas && skipReplicationCheck) then
        var (t, error) := DeleteBlob(s, cid);
        (t, if error.Some? then Threw(error.value) else Deleted(found.value.size))
      else (s, NotDeleted(verdict))
  }

  // ---------------------------------------------------------------- the service

  class GarbageCollectionService {
    var running: bool
    var lastRun: int
    var totalDeleted: nat
    var totalSkippedPinned: nat
    var totalSkippedInsufficientReplicas: nat
    const storage: StorageService
    const config: Config

    constructor (storage: StorageService, config: Config)
      ensures this.storage == storage && this.config == config
      ensures !running && lastRun == 0 && totalDeleted == totalSkippedPinned == totalSkippedInsufficientReplicas == 0
    {
      running, lastRun, totalDeleted, totalSkippedPinned, totalSkippedInsufficientReplicas := false, 0, 0, 0, 0;
      this.storage, this.config := storage, config;
    }

    method CheckReplicationFactor(m: Metadata, answers: ReplicaVerification.Answers) returns (enough: bool)
      ensures enough == EnoughReplicas(config, m, answers)
    {
      var replicaNodes := m.replicatedTo;
      var knownReplicas := |replicaNodes|;
      var requiredOtherReplicas := config.replicationFactor - 1;
      if knownReplicas < requiredOtherReplicas {
        return false;
      }
      if |replicaNodes| > 0 {
        var verification := ReplicaVerification.VerifyReplication(answers, replicaNodes, requiredOtherReplicas, true);
        if !verification.sufficient {
          return false;
        }
      }
      return true;
    }

    method CanSafelyDelete(cid: string, world: World) returns (verdict: Verdict, error: Option<Error>)
      requires config.shardCount > 0
      ensures verdict == SafeToDelete(config, storage.env, storage.meta, cid, world)
      ensures error == GetMetadata(storage.env, storage.meta, cid).1 && (error.Some? <==> verdict == Unreadable)
    {
      var (metadata, failure) := GetMetadata(storage.env, storage.meta, cid);
      if failure.Some? {
        return Unreadable, failure;
      }
      if metadata.value.pinned {
        return IsPinned, None;
      }
      if !InShard(config, cid) {
        return ShardMismatch, None;
      }
      var hasEnoughReplicas := CheckReplicationFactor(metadata.value, world.answers(cid));
      if !hasEnoughReplicas {
        return InsufficientReplicas, None;
      }
      return Allowed, None;
    }

    method GetDeletionCandidates(allBlobs: seq<string>, world: World)
      returns (candidates: seq<Candidate>, error: Option<Error>)
      ensures error == FirstUnreadable(storage.env, storage.meta, allBlobs)
      ensures error.None? ==>
                candidates == Choose(config.policy, AllCandidates(storage.env, storage.meta, allBlobs, world.now),
                                     Usage(SizeOf(storage.blobs), PinnedSize(storage.env, storage.View()), world.free))
    {
      candidates, error := RateBlobs(storage.env, storage.meta, allBlobs, world.now);
      if error.Some? {
        return;
      }
      var totalSize, pinnedSize := storage.GetStats();
      candidates := ChooseCandidates(config.policy, candidates, Usage(totalSize, pinnedSize, world.free));
    }

    /** A second run while one is under way is refused; an error aborts a run, which then counts nothing. */
    method RunGC(simulate: bool, world: World) returns (outcome: Outcome)
      requires config.shardCount > 0 && storage.Valid()
      modifies this, storage, storage.cache
      ensures storage.Valid() && running == old(running)
      ensures old(running) ==> outcome == Busy && storage.View() == old(storage.View()) && Totals() == old(Totals())
      ensures !old(running) ==>
                var swept := Collect(config, storage.env, old(storage.View()), world, simulate);
                && storage.View() == swept.state
                && outcome == (if swept.error.Some? then Aborted(swept.error.value) else Finished(swept.result))
                && (simulate || swept.error.Some? ==> Totals() == old(Totals()))
                && (!simulate && swept.error.None? ==>
                      && lastRun == world.now && totalDeleted == old(totalDeleted) + swept.result.deleted
                      && totalSkippedPinned == old(totalSkippedPinned) + swept.result.skippedPinned
                      && totalSkippedInsufficientReplicas ==
                         old(totalSkippedInsufficientReplicas) + swept.result.skippedInsufficientReplicas)
    {
      if running {
        return Busy;
      }
      running := true;
      var r, error := Execute(simulate, world);
      if error.None? && !simulate {
        UpdateStats(r, world.now);
      }
      running := false;
      outcome := if error.Some? then Aborted(error.value) else Finished(r);
    }

    method UpdateStats(r: GCResult, now: int)
      modifies this`lastRun, this`totalDeleted, this`totalSkippedPinned, this`totalSkippedInsufficientReplicas
      ensures lastRun == now && totalDeleted == old(totalDeleted) + r.deleted
      ensures totalSkippedPinned == old(totalSkippedPinned) + r.skippedPinned
      ensures totalSkippedInsufficientReplicas ==
              old(totalSkippedInsufficientReplicas) + r.skippedInsufficientReplicas
    {
      lastRun := now;
      totalDeleted := totalDeleted + r.deleted;
      totalSkippedPinned := totalSkippedPinned + r.skippedPinned;
      totalSkippedInsufficientReplicas := totalSkippedInsufficientReplicas + r.skippedInsufficientReplicas;
    }

    method Execute(simulate: bool, world: World) returns (result: GCResult, error: Option<Error>)
      requires config.shardCount > 0 && storage.Valid()
      modifies storage, storage.cache
      ensures storage.Valid()
      ensures Swept(storage.View(), result, error) == Collect(config, storage.env, old(storage.View()), world, simulate)
    {
      var allBlobs := Cids(ListBlobs(storage.env, storage.meta, world.readdir(storage.meta.Keys)));
      var candidates, unreadable := GetDeletionCandidates(allBlobs, world);
      if unreadable.Some? {
        return NoResult(|allBlobs|), unreadable;
      }
      result, error := Process(candidates, simulate, world, |allBlobs|);
    }

    method Process(candidates: seq<Candidate>, simulate: bool, world: World, checked: nat)
      returns (result: GCResult, error: Option<Error>)
      requires config.shardCount > 0 && storage.Valid()
      modifies storage, storage.cache
      ensures storage.Valid()
      ensures Swept(storage.View(), result, error) ==
              Sweep(config, storage.env, old(storage.View()), world, candidates, simulate, checked)
    {
      result, error := NoResult(checked), None;
      for k := 0 to |candidates|
        invariant storage.Valid() && error.None?
        invariant Swept(storage.View(), result, error) ==
                  Sweep(config, storage.env, old(storage.View()), world, candidates[..k], simulate, checked)
      {
        assert candidates[..k + 1][..k] == candidates[..k];
        result, error := ProcessOne(result, candidates[k], simulate, world);
        if error.Some? {
          SweepAborted(config, storage.env, old(storage.View()), world, candidates, simulate, checked, k + 1);
          return;
        }
      }
      assert candidates[..|candidates|] == candidates;
    }

    method ProcessOne(before: GCResult, candidate: Candidate, simulate: bool, world: World)
      returns (result: GCResult, error: Option<Error>)
      requires config.shardCount > 0 && storage.Valid()
      modifies storage, storage.cache
      ensures storage.Valid()
      ensures Swept(storage.View(), result, error) ==
              SweepOne(config, storage.env, Swept(old(storage.View()), before, None), world, candidate, simulate)
    {
      result := before;
      var verdict, failure := CanSafelyDelete(candidate.cid, world);
      if failure.Some? {
        return result, failure;
      }
      if verdict == Allowed && !simulate {
        error := storage.Delete(candidate.cid);
        if error.Some? {
          return;
        }
      }
      result := CountVerdict(result, candidate, verdict);
      error := None;
    }

    method CountVerdict(before: GCResult, candidate: Candidate, verdict: Verdict) returns (result: GCResult)
      ensures result == Counted(before, candidate, verdict)
    {
      result := before;
      if verdict != Allowed {
        if verdict == IsPinned {
          result := result.(skippedPinned := result.skippedPinned + 1);
        } else if verdict == InsufficientReplicas {
          result := result.(skippedInsufficientReplicas := result.skippedInsufficientReplicas + 1);
        } else if verdict == ShardMismatch {
          result := result.(skippedShardMismatch := result.skippedShardMismatch + 1);
        }
        return;
      }
      result := result.(deleted := result.deleted + 1);
      result := result.(freedBytes := result.freedBytes + candidate.size);
      result := result.(deletedCids := result.deletedCids + [candidate.cid]);
    }

    method DeleteSingleBlob(cid: string, skipReplicationCheck: bool, world: World) returns (deletion: Deletion)
      requires config.shardCount > 0 && storage.Valid()
      modifies storage, storage.cache
      ensures storage.Valid()
      ensures (storage.View(), deletion) ==
              DeleteSingle(config, storage.env, old(storage.View()), cid, skipReplicationCheck, world)
    {
      var (metadata, failure) := GetMetadata(storage.env, storage.meta, cid);
      if failure.Some? {
        return Threw(failure.value);
      }
      var verdict, _ := CanSafelyDelete(cid, world);
      if verdict != Allowed {
        if !(verdict == InsufficientReplicas && skipReplicationCheck) {
          return NotDeleted(verdict);
        }
      }
      var error := storage.Delete(cid);
      if error.Some? {
        return Threw(error.value);
      }
      deletion := Deleted(metadata.value.size);
    }

    function Totals(): (int, nat, nat, nat)
      reads this
    {
      (lastRun, totalDeleted, totalSkippedPinned, totalSkippedInsufficientReplicas)
    }
  }

  datatype Outcome = Busy | Finished(result: GCResult) | Aborted(error: Error)

  /** Nothing follows an error. */
  lemma {:induction false} SweepAborted(
    config: Config, env: Env, s: State, world: World, candidates: seq<Candidate>, simulate: bool, checked: nat, k: nat)
    requires config.shardCount > 0 && k <= |candidates|
    requires Sweep(config, env, s, world, candidates[..k], simulate, checked).error.Some?
    ensures Sweep(config, env, s, world, candidates, simulate, checked) ==
            Sweep(config, env, s, world, candidates[..k], simulate, checked)
  {
    if k == |candidates| {
      assert candidates[..k] == candidates;
    } else {
      assert candidates[..|candidates| - 1][..k] == candidates[..k];
      SweepAborted(config, env, s, world, candidates[..|candidates| - 1], simulate, checked, k);
    }
  }
}
