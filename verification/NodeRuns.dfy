/**
 * What a collector run does to the store, and what holds over whole runs of a node: storing, reading, pinning,
 * collecting and deleting single blobs in any order (src/services/gc.service.ts, src/services/storage.service.ts).
 */
module NodeRuns {
  import opened Sequences
  import opened Storage
  import opened Candidates
  import opened GarbageCollection
  import ReplicaVerification
  import Cache
  import Framing

  // ---------------------------------------------------------------- a run over the candidates

  function CidsOf(candidates: seq<Candidate>): seq<string>
  {
    Map(candidates, (c: Candidate) => c.cid)
  }

  /** Candidates as the collector makes them: of stored blobs, each once, with the recorded size. */
  ghost predicate Rated(meta: Records, candidates: seq<Candidate>)
  {
    NoDup(CidsOf(candidates)) && forall c :: c in candidates ==> c.cid in meta && c.size == meta[c.cid].size
  }

  lemma RatedFront(meta: Records, candidates: seq<Candidate>)
    requires Rated(meta, candidates) && candidates != []
    ensures var n := |candidates| - 1;
            && Rated(meta, candidates[..n]) && CidsOf(candidates) == CidsOf(candidates[..n]) + [candidates[n].cid]
            && candidates[n].cid !in CidsOf(candidates[..n]) && candidates[n].cid in meta
            && candidates[n].size == meta[candidates[n].cid].size
  {
    var n := |candidates| - 1;
    forall i | 0 <= i < n ensures CidsOf(candidates[..n])[i] == CidsOf(candidates)[i] {
    }
    assert candidates[n] in candidates;
    assert CidsOf(candidates)[n] == candidates[n].cid;
  }

  /** A simulated run changes nothing. */
  lemma {:induction false} SimulationIsPure(
    config: Config, env: Env, s: State, world: World, candidates: seq<Candidate>, checked: nat)
    requires config.shardCount > 0
    ensures Sweep(config, env, s, world, candidates, true, checked).state == s
  {
    if candidates != [] {
      SimulationIsPure(config, env, s, world, candidates[..|candidates| - 1], checked);
    }
  }

  /** What remains after deletions. */
  ghost predicate Without(s: State, t: State, cids: seq<string>)
  {
    t.blobs == s.blobs - Elements(cids) && t.meta == s.meta - Elements(cids)
  }

  lemma WithoutOneMore(s: State, t: State, cids: seq<string>, cid: string)
    requires Without(s, t, cids)
    ensures Without(s, DeleteBlob(t, cid).0, cids + [cid])
  {
    assert Elements(cids + [cid]) == Elements(cids) + {cid};
  }

  /** A real run counts exactly what the simulated one counts, and removes exactly the blobs it names. */
  lemma {:induction false} SweepFaithful(
    config: Config, env: Env, s: State, world: World, candidates: seq<Candidate>, checked: nat)
    requires config.shardCount > 0 && Inv(env, s) && Rated(s.meta, candidates)
    ensures var swept, dry := Sweep(config, env, s, world, candidates, false, checked),
                              Sweep(config, env, s, world, candidates, true, checked);
            && swept.error.None? && dry.error.None? && swept.result == dry.result
            && Inv(env, swept.state) && Without(s, swept.state, swept.result.deletedCids)
            && forall cid :: cid in swept.result.deletedCids ==> cid in CidsOf(candidates)
  {
    if candidates != [] {
      var front, last := candidates[..|candidates| - 1], candidates[|candidates| - 1];
      RatedFront(s.meta, candidates);
      SweepFaithful(config, env, s, world, front, checked);
      SimulationIsPure(config, env, s, world, front, checked);
      SweptOnce(config, env, s, world, Sweep(config, env, s, world, front, false, checked),
                Sweep(config, env, s, world, front, true, checked), last);
    }
  }

  /** One candidate later a real and a simulated run still agree. */
  lemma SweptOnce(config: Config, env: Env, s: State, world: World, swept: Swept, dry: Swept, c: Candidate)
    requires config.shardCount > 0 && Inv(env, s) && Inv(env, swept.state) && c.cid in s.meta
    requires Without(s, swept.state, swept.result.deletedCids) && c.cid !in swept.result.deletedCids
    requires swept.error.None? && dry.error.None? && swept.result == dry.result && dry.state == s
    ensures var swept', dry' := SweepOne(config, env, swept, world, c, false),
                SweepOne(config, env, dry, world, c, true);
            && swept'.error.None? && dry'.error.None? && swept'.result == dry'.result
            && Inv(env, swept'.state) && Without(s, swept'.state, swept'.result.deletedCids)
            && forall cid :: cid in swept'.result.deletedCids ==> cid == c.cid || cid in swept.result.deletedCids
  {
    var t := swept.state;
    assert c.cid in t.meta && t.meta[c.cid] == s.meta[c.cid];
    assert GoodBlob(env, s.blobs[c.cid], s.meta[c.cid], c.cid);
    DeleteRefines(env, t, c.cid);
    WithoutOneMore(s, t, swept.result.deletedCids, c.cid);
  }

  function SizesOf(meta: Records, cids: seq<string>): nat
  {
    if cids == [] then 0
    else
      var last := cids[|cids| - 1];
      SizesOf(meta, cids[..|cids| - 1]) + if last in meta then meta[last].size else 0
  }

  ghost predicate Permitted(config: Config, env: Env, meta: Records, world: World, cid: string)
    requires config.shardCount > 0
  {
    SafeToDelete(config, env, meta, cid, world) == Allowed
  }

  /** The deleted blobs are the permitted candidates, each once. */
  lemma {:induction false} SweepDeletes(
    config: Config, env: Env, s: State, world: World, candidates: seq<Candidate>, checked: nat)
    requires config.shardCount > 0 && GoodRecords(env, s.meta) && Rated(s.meta, candidates)
    ensures var r := Sweep(config, env, s, world, candidates, true, checked).result;
            && Sweep(config, env, s, world, candidates, true, checked).error.None?
            && NoDup(r.deletedCids)
            && (forall cid :: cid in r.deletedCids <==>
                                cid in CidsOf(candidates) && Permitted(config, env, s.meta, world, cid))
  {
    if candidates != [] {
      var front, last := candidates[..|candidates| - 1], candidates[|candidates| - 1];
      RatedFront(s.meta, candidates);
      SweepDeletes(config, env, s, world, front, checked);
      SimulationIsPure(config, env, s, world, front, checked);
      SweepOneDeletes(
        config, env, s, world, Sweep(config, env, s, world, front, true, checked), CidsOf(front), last);
    }
  }

  lemma SweepOneDeletes(
    config: Config, env: Env, s: State, world: World, dry: Swept, cids: seq<string>, c: Candidate)
    requires config.shardCount > 0 && GoodRecords(env, s.meta) && c.cid in s.meta && c.cid !in cids
    requires dry.state == s && dry.error.None? && NoDup(dry.result.deletedCids)
    requires forall cid :: cid in dry.result.deletedCids <==> cid in cids && Permitted(config, env, s.meta, world, cid)
    ensures var dry' := SweepOne(config, env, dry, world, c, true);
            && dry'.error.None? && NoDup(dry'.result.deletedCids)
            && (forall cid :: cid in dry'.result.deletedCids <==>
                                cid in cids + [c.cid] && Permitted(config, env, s.meta, world, cid))
  {
  }

  /** A candidate that is held back because it is pinned. */
  ghost function HeldByPin(meta: Records): Candidate -> bool
  {
    (c: Candidate) => c.cid in meta && meta[c.cid].pinned
  }

  /** One that does not belong to this node. */
  ghost function HeldByShard(config: Config, meta: Records): Candidate -> bool
    requires config.shardCount > 0
  {
    (c: Candidate) => config.shardCount > 0 && c.cid in meta && !meta[c.cid].pinned && !InShard(config, c.cid)
  }

  /** One that belongs here and is not replicated enough. */
  ghost function HeldByReplicas(config: Config, meta: Records, world: World): Candidate -> bool
  {
    (c: Candidate) => config.shardCount > 0 && c.cid in meta && !meta[c.cid].pinned && InShard(config, c.cid) &&
                      !EnoughReplicas(config, meta[c.cid], world.answers(c.cid))
  }

  /** The skips of a result, counted by the reasons given. */
  ghost predicate SkipsAre(
    r: GCResult, candidates: seq<Candidate>, pin: Candidate -> bool, shard: Candidate -> bool,
    replicas: Candidate -> bool)
  {
    && r.skippedPinned == |Filter(candidates, pin)| && r.skippedShardMismatch == |Filter(candidates, shard)|
    && r.skippedInsufficientReplicas == |Filter(candidates, replicas)|
  }

  lemma SkippedOnce(
    r: GCResult, candidates: seq<Candidate>, c: Candidate, verdict: Verdict, pin: Candidate -> bool,
    shard: Candidate -> bool, replicas: Candidate -> bool)
    requires SkipsAre(r, candidates, pin, shard, replicas)
    requires pin(c) == (verdict == IsPinned) && shard(c) == (verdict == ShardMismatch)
    requires replicas(c) == (verdict == InsufficientReplicas)
    ensures SkipsAre(Counted(r, c, verdict), candidates + [c], pin, shard, replicas)
  {
    FilterSnoc(candidates, c, pin);
    FilterSnoc(candidates, c, shard);
    FilterSnoc(candidates, c, replicas);
  }

  /** A simulated sweep counts the last candidate by its verdict. */
  lemma LastCounted(config: Config, env: Env, s: State, world: World, candidates: seq<Candidate>, checked: nat)
    requires config.shardCount > 0 && GoodRecords(env, s.meta) && Rated(s.meta, candidates) && candidates != []
    ensures var front, last := candidates[..|candidates| - 1], candidates[|candidates| - 1];
            && Rated(s.meta, front) && last.cid in s.meta
            && Sweep(config, env, s, world, candidates, true, checked).result ==
               Counted(Sweep(config, env, s, world, front, true, checked).result, last,
                       SafeToDelete(config, env, s.meta, last.cid, world))
  {
    var front := candidates[..|candidates| - 1];
    RatedFront(s.meta, candidates);
    SimulationIsPure(config, env, s, world, front, checked);
    SweepCounts(config, env, s, world, front, checked);
  }

  lemma {:induction false} SkipsByVerdict(
    config: Config, env: Env, s: State, world: World, candidates: seq<Candidate>, checked: nat,
    pin: Candidate -> bool, shard: Candidate -> bool, replicas: Candidate -> bool)
    requires config.shardCount > 0 && GoodRecords(env, s.meta) && Rated(s.meta, candidates)
    requires forall c: Candidate :: c.cid in s.meta ==>
               var verdict := SafeToDelete(config, env, s.meta, c.cid, world);
               && pin(c) == (verdict == IsPinned) && shard(c) == (verdict == ShardMismatch)
               && replicas(c) == (verdict == InsufficientReplicas)
    ensures SkipsAre(Sweep(config, env, s, world, candidates, true, checked).result, candidates, pin, shard, replicas)
  {
    if candidates != [] {
      var front, last := candidates[..|candidates| - 1], candidates[|candidates| - 1];
      RatedFront(s.meta, candidates);
      SkipsByVerdict(config, env, s, world, front, checked, pin, shard, replicas);
      LastCounted(config, env, s, world, candidates, checked);
      SkippedOnce(Sweep(config, env, s, world, front, true, checked).result, front, last,
                  SafeToDelete(config, env, s.meta, last.cid, world), pin, shard, replicas);
      assert candidates == front + [last];
    }
  }

  /** Each skipped candidate is counted under the first reason that holds it back. */
  lemma SkipsCounted(
    config: Config, env: Env, s: State, world: World, candidates: seq<Candidate>, checked: nat)
    requires config.shardCount > 0 && GoodRecords(env, s.meta) && Rated(s.meta, candidates)
    ensures var r := Sweep(config, env, s, world, candidates, true, checked).result;
            && r.skippedPinned == |Filter(candidates, HeldByPin(s.meta))|
            && r.skippedShardMismatch == |Filter(candidates, HeldByShard(config, s.meta))|
            && r.skippedInsufficientReplicas == |Filter(candidates, HeldByReplicas(config, s.meta, world))|
  {
    SkipsByVerdict(config, env, s, world, candidates, checked, HeldByPin(s.meta), HeldByShard(config, s.meta),
                   HeldByReplicas(config, s.meta, world));
  }

  /** Every candidate is counted once: its size if it is deleted, otherwise the reason that holds it back. */
  lemma {:induction false} SweepCounts(
    config: Config, env: Env, s: State, world: World, candidates: seq<Candidate>, checked: nat)
    requires config.shardCount > 0 && GoodRecords(env, s.meta) && Rated(s.meta, candidates)
    ensures var r := Sweep(config, env, s, world, candidates, true, checked).result;
            && Sweep(config, env, s, world, candidates, true, checked).error.None?
            && r.deleted == |r.deletedCids| && r.freedBytes == SizesOf(s.meta, r.deletedCids)
            && r.deleted + r.skippedPinned + r.skippedInsufficientReplicas + r.skippedShardMismatch == |candidates|
            && r.checked == checked
  {
    if candidates != [] {
      var front, last := candidates[..|candidates| - 1], candidates[|candidates| - 1];
      RatedFront(s.meta, candidates);
      SweepCounts(config, env, s, world, front, checked);
      SimulationIsPure(config, env, s, world, front, checked);
      SizesSnoc(s.meta, Sweep(config, env, s, world, front, true, checked).result.deletedCids, last.cid);
    }
  }

  lemma SizesSnoc(meta: Records, cids: seq<string>, cid: string)
    ensures SizesOf(meta, cids + [cid]) == SizesOf(meta, cids) + if cid in meta then meta[cid].size else 0
  {
    assert (cids + [cid])[..|cids|] == cids;
  }

  // ---------------------------------------------------------------- bytes

  /**
   * Deleting distinct stored blobs frees what their files take, which is less than recorded for compressed ones only.
   */
  lemma {:induction false} BytesFreed(env: Env, blobs: Files, meta: Records, cids: seq<string>)
    requires GoodFiles(env, blobs, meta) && NoDup(cids) && forall cid :: cid in cids ==> cid in blobs
    ensures SizeOf(blobs) <= SizeOf(blobs - Elements(cids)) + SizesOf(meta, cids)
    ensures SizeOf(blobs) == SizeOf(blobs - Elements(cids)) + SizesOf(meta, cids) <==>
            forall cid :: cid in cids ==> !meta[cid].compressed
  {
    if cids == [] {
      assert blobs - Elements(cids) == blobs;
    } else {
      var front, last := cids[..|cids| - 1], cids[|cids| - 1];
      assert cids == front + [last];
      BytesFreed(env, blobs, meta, front);
      SizesSnoc(meta, front, last);
      OneFileLess(blobs, front, last);
      StoredSize(env, blobs, meta, last);
    }
  }

  lemma OneFileLess(blobs: Files, cids: seq<string>, cid: string)
    requires cid in blobs && cid !in cids
    ensures SizeOf(blobs - Elements(cids)) == |blobs[cid]| + SizeOf(blobs - Elements(cids + [cid]))
  {
    SizeWithout(blobs - Elements(cids), cid);
    assert blobs - Elements(cids) - {cid} == blobs - Elements(cids + [cid]);
  }

  lemma StoredSize(env: Env, blobs: Files, meta: Records, cid: string)
    requires GoodFiles(env, blobs, meta) && cid in blobs
    ensures |blobs[cid]| <= meta[cid].size && (|blobs[cid]| == meta[cid].size <==> !meta[cid].compressed)
  {
    assert GoodBlob(env, blobs[cid], meta[cid], cid);
  }

  lemma {:induction false} FewerFiles(blobs: Files, cids: seq<string>)
    requires NoDup(cids) && forall cid :: cid in cids ==> cid in blobs
    ensures |blobs - Elements(cids)| == |blobs| - |cids|
  {
    NoDupSize(cids);
    assert (blobs - Elements(cids)).Keys == blobs.Keys - Elements(cids);
    assert blobs.Keys == (blobs.Keys - Elements(cids)) + Elements(cids);
  }

  // ---------------------------------------------------------------- a whole collection

  lemma ProposedRated(config: Config, env: Env, s: State, world: World)
    requires Inv(env, s) && GoodWorld(world)
    ensures Rated(s.meta, Proposed(config, env, s, world))
    ensures |ListedCids(env, s, world)| == |s.meta| && FirstUnreadable(env, s.meta, ListedCids(env, s, world)).None?
  {
    var files := world.readdir(s.meta.Keys);
    var cids := Cids(ListBlobs(env, s.meta, files));
    var all := AllCandidates(env, s.meta, cids, world.now);
    InvGivesRecords(env, s);
    ListsEachOnce(env, s.meta, files);
    RatingAbortsIff(env, s.meta, cids);
    EveryBlobIsRated(env, s.meta, files, world.now);
    ChosenFrom(config.policy, all, UsageOf(env, s, world));
    DistinctCids(env, s.meta, Proposed(config, env, s, world), world.now);
  }

  lemma InvGivesRecords(env: Env, s: State)
    requires Inv(env, s)
    ensures GoodRecords(env, s.meta)
  {
    forall cid | cid in s.meta ensures s.meta[cid].cid == cid && Intact(env, s.meta[cid]) {
      assert GoodBlob(env, s.blobs[cid], s.meta[cid], cid);
    }
  }

  lemma DistinctCids(env: Env, meta: Records, candidates: seq<Candidate>, now: int)
    requires NoDup(candidates)
    requires forall c :: c in candidates ==> c.cid in meta && c == CandidateOf(c.cid, meta[c.cid], now)
    ensures Rated(meta, candidates)
  {
    forall i, j | 0 <= i < j < |candidates| ensures CidsOf(candidates)[i] != CidsOf(candidates)[j] {
      assert candidates[i] in candidates && candidates[j] in candidates;
    }
  }

  /**
   * A dry run is faithful: it changes nothing and returns exactly what the real run returns. The real run removes
   * exactly the blobs it names, each proposed candidate is counted once, and the stored bytes shrink by `freedBytes`
   * exactly when no deleted blob was compressed, otherwise by less.
   */
  lemma DryRunIsFaithful(config: Config, env: Env, s: State, world: World)
    requires config.shardCount > 0 && Inv(env, s) && GoodWorld(world)
    ensures var dry, actual := Collect(config, env, s, world, true), Collect(config, env, s, world, false);
            var t, r := actual.state, actual.result;
            && dry.state == s && dry.result == r && dry.error.None? && actual.error.None?
            && Inv(env, t) && Without(s, t, r.deletedCids) && |t.blobs| == |s.blobs| - r.deleted
            && r.checked == |s.meta|
            && r.deleted + r.skippedPinned + r.skippedInsufficientReplicas + r.skippedShardMismatch ==
               |Proposed(config, env, s, world)|
            && (forall cid :: cid in r.deletedCids ==> cid in s.blobs)
            && SizeOf(s.blobs) - SizeOf(t.blobs) <= r.freedBytes
            && (SizeOf(s.blobs) - SizeOf(t.blobs) == r.freedBytes <==>
                forall cid :: cid in r.deletedCids ==> !s.meta[cid].compressed)
  {
    var candidates, checked := Proposed(config, env, s, world), |s.meta|;
    ProposedRated(config, env, s, world);
    SimulationIsPure(config, env, s, world, candidates, checked);
    SweepFaithful(config, env, s, world, candidates, checked);
    InvGivesRecords(env, s);
    SweepCounts(config, env, s, world, candidates, checked);
    SweepDeletes(config, env, s, world, candidates, checked);
    var r := Sweep(config, env, s, world, candidates, true, checked).result;
    forall cid | cid in r.deletedCids ensures cid in s.blobs {
      RatedStored(s.meta, candidates, cid);
    }
    BytesFreed(env, s.blobs, s.meta, r.deletedCids);
    FewerFiles(s.blobs, r.deletedCids);
  }

  lemma RatedStored(meta: Records, candidates: seq<Candidate>, cid: string)
    requires Rated(meta, candidates) && cid in CidsOf(candidates)
    ensures cid in meta
  {
    var i :| 0 <= i < |candidates| && CidsOf(candidates)[i] == cid;
    assert candidates[i] in candidates;
  }

  /** A collection removes a blob exactly when the blob was proposed and every safety check allowed it. */
  lemma RemovedIff(config: Config, env: Env, s: State, world: World, cid: string)
    requires config.shardCount > 0 && Inv(env, s) && GoodWorld(world) && cid in s.blobs
    ensures var t := Collect(config, env, s, world, false).state;
            cid !in t.blobs <==>
            && cid in CidsOf(Proposed(config, env, s, world)) && !s.meta[cid].pinned && InShard(config, cid)
            && |s.meta[cid].replicatedTo| >= config.replicationFactor - 1
            && (s.meta[cid].replicatedTo != [] ==>
                  var urls := s.meta[cid].replicatedTo;
                  var checked :=
                    ReplicaVerification.Verified(world.answers(cid), urls, config.replicationFactor - 1, true);
                  |ReplicaVerification.GetActiveReplicas(checked)| >= config.replicationFactor - 1)
  {
    var candidates, checked := Proposed(config, env, s, world), |s.meta|;
    ProposedRated(config, env, s, world);
    SweepFaithful(config, env, s, world, candidates, checked);
    InvGivesRecords(env, s);
    SweepDeletes(config, env, s, world, candidates, checked);
    AllowedIff(config, env, s.meta, cid, world);
    assert GoodBlob(env, s.blobs[cid], s.meta[cid], cid);
  }

  /**
   * Without pressure on the disk, `time` and `hybrid` delete the permitted blobs past the age limit; `size` deletes
   * every permitted blob.
   */
  lemma RemovedWithoutPressure(config: Config, env: Env, s: State, world: World, cid: string)
    requires config.shardCount > 0 && Inv(env, s) && GoodWorld(world) && cid in s.blobs
    requires config.policy.mode == ByTime || !NeedsCleanup(config.policy, UsageOf(env, s, world))
    ensures var t := Collect(config, env, s, world, false).state;
            cid !in t.blobs <==>
            && Permitted(config, env, s.meta, world, cid)
            && (config.policy.mode == BySize || Days(world.now - s.meta[cid].createdAt) > config.policy.maxAgeDays)
  {
    var files := world.readdir(s.meta.Keys);
    var all := AllCandidates(env, s.meta, Cids(ListBlobs(env, s.meta, files)), world.now);
    var candidates := Proposed(config, env, s, world);
    InvGivesRecords(env, s);
    EveryBlobIsRated(env, s.meta, files, world.now);
    ChosenWithoutPressure(config.policy, all, UsageOf(env, s, world));
    RemovedIff(config, env, s, world, cid);
    AllowedIff(config, env, s.meta, cid, world);
    var c := CandidateOf(cid, s.meta[cid], world.now);
    assert c in all;
    ProposedCid(env, s.meta, candidates, world.now, cid);
  }

  lemma ProposedCid(env: Env, meta: Records, candidates: seq<Candidate>, now: int, cid: string)
    requires cid in meta
    requires forall c :: c in candidates ==> c.cid in meta && c == CandidateOf(c.cid, meta[c.cid], now)
    ensures cid in CidsOf(candidates) <==> CandidateOf(cid, meta[cid], now) in candidates
  {
    var c := CandidateOf(cid, meta[cid], now);
    if cid in CidsOf(candidates) {
      var i :| 0 <= i < |candidates| && CidsOf(candidates)[i] == cid;
      assert candidates[i] in candidates;
    }
    if c in candidates {
      var i :| 0 <= i < |candidates| && candidates[i] == c;
      assert CidsOf(candidates)[i] == cid;
    }
  }

  /** Deleting one blob, forced or not, still respects pins and shards; only the replicas may be ignored. */
  lemma SingleDeletionIff(config: Config, env: Env, s: State, cid: string, skip: bool, world: World)
    requires config.shardCount > 0 && Inv(env, s)
    ensures var (t, deletion) := DeleteSingle(config, env, s, cid, skip, world);
            && Inv(env, t)
            && (deletion.Deleted? <==>
                && cid in s.blobs && !s.meta[cid].pinned && InShard(config, cid)
                && (skip || EnoughReplicas(config, s.meta[cid], world.answers(cid))))
            && (deletion.Deleted? ==> Without(s, t, [cid]) && deletion.size == s.meta[cid].size)
            && (!deletion.Deleted? ==> t == s)
            && (deletion == NotDeleted(IsPinned) <==> cid in s.blobs && s.meta[cid].pinned)
            && (deletion == NotDeleted(ShardMismatch) <==>
                cid in s.blobs && !s.meta[cid].pinned && !InShard(config, cid))
            && (deletion == NotDeleted(InsufficientReplicas) <==>
                && cid in s.blobs && !s.meta[cid].pinned && InShard(config, cid) && !skip
                && !EnoughReplicas(config, s.meta[cid], world.answers(cid)))
            && (cid !in s.blobs ==> deletion == Threw(BlobNotFound))
  {
    if cid in s.blobs {
      assert GoodBlob(env, s.blobs[cid], s.meta[cid], cid);
    }
    DeleteRefines(env, s, cid);
  }

  // ---------------------------------------------------------------- runs of a node

  datatype NodeOp =
    | OnStore(op: Storage.Op)
    | RunGC(simulate: bool, world: World)
    | DeleteOne(cid: string, skipReplicationCheck: bool, world: World)

  ghost predicate Legal(op: NodeOp)
  {
    match op
    case OnStore(_) => true
    case RunGC(_, world) => GoodWorld(world)
    case DeleteOne(_, _, _) => true
  }

  /** The step ends: if it is a read, the cache's eviction loop does. */
  ghost predicate NodeOpEnds(env: Env, s: State, op: NodeOp)
    requires Cache.WellFormed(s.cache)
  {
    op.OnStore? ==> OpEnds(env, s, op.op)
  }

  ghost function NodeStep(config: Config, env: Env, s: State, op: NodeOp): State
    requires config.shardCount > 0 && Cache.WellFormed(s.cache) && NodeOpEnds(env, s, op)
  {
    match op
    case OnStore(o) => Storage.Step(env, s, o).0
    case RunGC(simulate, world) => Collect(config, env, s, world, simulate).state
    case DeleteOne(cid, skip, world) => DeleteSingle(config, env, s, cid, skip, world).0
  }

  lemma NodeStepKeeps(config: Config, env: Env, s: State, op: NodeOp)
    requires config.shardCount > 0 && GoodCodec(env) && Inv(env, s) && Legal(op) && NodeOpEnds(env, s, op)
    ensures Inv(env, NodeStep(config, env, s, op))
  {
    match op
    case OnStore(o) => StepRefines(env, s, o);
    case RunGC(simulate, world) => DryRunIsFaithful(config, env, s, world);
    case DeleteOne(cid, skip, world) => SingleDeletionIff(config, env, s, cid, skip, world);
  }

  /** None once a read does not end. */
  ghost function NodeRun(config: Config, env: Env, s: State, ops: seq<NodeOp>): (t: Option<State>)
    requires config.shardCount > 0 && GoodCodec(env) && Inv(env, s) && forall op :: op in ops ==> Legal(op)
    ensures t.Some? ==> Inv(env, t.value)
  {
    if ops == [] then Some(s)
    else
      var before, op := NodeRun(config, env, s, ops[..|ops| - 1]), ops[|ops| - 1];
      if before.None? || !NodeOpEnds(env, before.value, op) then None
      else
        NodeStepKeeps(config, env, before.value, op);
        Some(NodeStep(config, env, before.value, op))
  }

  /** A sweep takes entries out of the cache only. */
  lemma {:induction false} SweepKeepsNamed(
    config: Config, env: Env, s: State, world: World, candidates: seq<Candidate>, simulate: bool, checked: nat)
    requires config.shardCount > 0 && Cache.Valid(s.cache)
    ensures Cache.Valid(Sweep(config, env, s, world, candidates, simulate, checked).state.cache)
  {
    if candidates != [] {
      var front, last := candidates[..|candidates| - 1], candidates[|candidates| - 1];
      SweepKeepsNamed(config, env, s, world, front, simulate, checked);
      Cache.RemoveDrift(Sweep(config, env, s, world, front, simulate, checked).state.cache, last.cid);
    }
  }

  lemma NamedNodeStepEnds(config: Config, env: Env, s: State, op: NodeOp)
    requires config.shardCount > 0 && Inv(env, s) && Cache.Valid(s.cache) && (op.OnStore? ==> NamedOp(op.op))
    ensures NodeOpEnds(env, s, op) && Cache.Valid(NodeStep(config, env, s, op).cache)
  {
    match op
    case OnStore(o) => NamedStepEnds(env, s, o);
    case RunGC(simulate, world) =>
      SweepKeepsNamed(config, env, s, world, Proposed(config, env, s, world), simulate, |ListedCids(env, s, world)|);
    case DeleteOne(cid, _, _) => Cache.RemoveDrift(s.cache, cid);
  }

  /** Every run of a node that reads only non-empty CIDs ends. */
  lemma {:induction false} NamedNodeRunsEnd(config: Config, env: Env, s: State, ops: seq<NodeOp>)
    requires config.shardCount > 0 && GoodCodec(env) && Inv(env, s) && Cache.Valid(s.cache)
    requires forall op :: op in ops ==> Legal(op) && (op.OnStore? ==> NamedOp(op.op))
    ensures NodeRun(config, env, s, ops).Some? && Cache.Valid(NodeRun(config, env, s, ops).value.cache)
  {
    if ops != [] {
      var front, op := ops[..|ops| - 1], ops[|ops| - 1];
      assert op in ops;
      NamedNodeRunsEnd(config, env, s, front);
      NamedNodeStepEnds(config, env, NodeRun(config, env, s, front).value, op);
    }
  }

  // ---------------------------------------------------------------- pins

  /** Stored under a pin, with a given content. */
  ghost predicate PinnedWith(env: Env, s: State, cid: string, content: Option<Framing.Bytes>)
  {
    cid in s.blobs && cid in s.meta && s.meta[cid].pinned && Content(env, s.blobs, s.meta, cid) == content
  }

  lemma PinKeptByStoring(env: Env, s: State, op: Storage.Op, cid: string, content: Option<Framing.Bytes>)
    requires op.Store? && Inv(env, s) && PinnedWith(env, s, cid, content)
    ensures PinnedWith(env, StoreBlob(env, s, op.cid, op.data, op.mimeType, op.now).0, cid, content)
  {
  }

  lemma PinKeptByReading(env: Env, s: State, op: Storage.Op, cid: string, content: Option<Framing.Bytes>)
    requires op.Get? && Inv(env, s) && OpEnds(env, s, op) && PinnedWith(env, s, cid, content)
    ensures PinnedWith(env, GetBlob(env, s, op.cid, op.now).0, cid, content)
  {
    GetRefines(env, s, op.cid, op.now);
  }

  lemma PinKeptByChange(env: Env, s: State, other: string, update: Update, cid: string, content: Option<Framing.Bytes>)
    requires Inv(env, s) && PinnedWith(env, s, cid, content) && (other == cid ==> update != SetPinned(false))
    ensures PinnedWith(env, Change(env, s, other, update).0, cid, content)
  {
    ChangeRefines(env, s, other, update);
  }

  lemma PinKeptByStore(env: Env, s: State, op: Storage.Op, cid: string, content: Option<Framing.Bytes>)
    requires GoodCodec(env) && Inv(env, s) && OpEnds(env, s, op) && PinnedWith(env, s, cid, content)
    requires op != Delete(cid) && op != Unpin(cid)
    ensures PinnedWith(env, Storage.Step(env, s, op).0, cid, content)
  {
    match op
    case Store(_, _, _, _) => PinKeptByStoring(env, s, op, cid, content);
    case Get(_, _) => PinKeptByReading(env, s, op, cid, content);
    case Delete(_) =>
    case Pin(other) => PinKeptByChange(env, s, other, SetPinned(true), cid, content);
    case Unpin(other) => PinKeptByChange(env, s, other, SetPinned(false), cid, content);
    case RecordReplicas(other, list) => PinKeptByChange(env, s, other, SetReplicas(list), cid, content);
  }

  lemma PinKeptByStep(config: Config, env: Env, s: State, op: NodeOp, cid: string, content: Option<Framing.Bytes>)
    requires config.shardCount > 0 && GoodCodec(env) && Inv(env, s) && Legal(op) && NodeOpEnds(env, s, op)
    requires PinnedWith(env, s, cid, content) && op != OnStore(Delete(cid)) && op != OnStore(Unpin(cid))
    ensures PinnedWith(env, NodeStep(config, env, s, op), cid, content)
  {
    match op
    case OnStore(o) => PinKeptByStore(env, s, o, cid, content);
    case RunGC(simulate, world) =>
      DryRunIsFaithful(config, env, s, world);
      RemovedIff(config, env, s, world, cid);
    case DeleteOne(other, skip, world) => SingleDeletionIff(config, env, s, other, skip, world);
  }

  /**
   * Pin safety. Over any run of store, read, pin, unpin, collection and single deletion steps, forced or not, a
   * pinned blob stays stored, pinned and unchanged until it is unpinned or the store is told directly to delete it.
   */
  lemma {:induction false} PinnedStays(
    config: Config, env: Env, s: State, ops: seq<NodeOp>, cid: string, content: Option<Framing.Bytes>)
    requires config.shardCount > 0 && GoodCodec(env) && Inv(env, s) && forall op :: op in ops ==> Legal(op)
    requires OnStore(Delete(cid)) !in ops && OnStore(Unpin(cid)) !in ops && PinnedWith(env, s, cid, content)
    ensures var t := NodeRun(config, env, s, ops);
            t.Some? ==> PinnedWith(env, t.value, cid, content)
  {
    if ops != [] && NodeRun(config, env, s, ops).Some? {
      var front, op := ops[..|ops| - 1], ops[|ops| - 1];
      PinnedStays(config, env, s, front, cid, content);
      assert op in ops;
      PinKeptByStep(config, env, NodeRun(config, env, s, front).value, op, cid, content);
    }
  }

  /** Unpinning gives a blob back to the collector: nothing but its shard and its replicas hold it back any more. */
  lemma UnpinnedIsCollectable(
    config: Config, env: Env, s: State, cid: string, skip: bool, world: World)
    requires config.shardCount > 0 && GoodCodec(env) && Inv(env, s) && GoodWorld(world) && cid in s.blobs
    ensures var t := NodeStep(config, env, s, OnStore(Unpin(cid)));
            && Inv(env, t) && cid in t.blobs && !t.meta[cid].pinned
            && t.meta[cid].replicatedTo == s.meta[cid].replicatedTo
            && (Permitted(config, env, t.meta, world, cid) <==>
                InShard(config, cid) && EnoughReplicas(config, s.meta[cid], world.answers(cid)))
            && (cid !in Collect(config, env, t, world, false).state.blobs <==>
                && cid in CidsOf(Proposed(config, env, t, world))
                && InShard(config, cid) && EnoughReplicas(config, s.meta[cid], world.answers(cid)))
            && (DeleteSingle(config, env, t, cid, skip, world).1.Deleted? <==>
                InShard(config, cid) && (skip || EnoughReplicas(config, s.meta[cid], world.answers(cid))))
  {
    ChangeRefines(env, s, cid, SetPinned(false));
    var t := NodeStep(config, env, s, OnStore(Unpin(cid)));
    UnpinnedIsPermitted(config, env, t, cid, world);
    RemovedIff(config, env, t, world, cid);
    AllowedIff(config, env, t.meta, cid, world);
    SingleDeletionIff(config, env, t, cid, skip, world);
  }

  lemma UnpinnedIsPermitted(config: Config, env: Env, s: State, cid: string, world: World)
    requires config.shardCount > 0 && Inv(env, s) && cid in s.blobs && !s.meta[cid].pinned
    ensures Permitted(config, env, s.meta, world, cid) <==>
            InShard(config, cid) && EnoughReplicas(config, s.meta[cid], world.answers(cid))
  {
    assert GoodBlob(env, s.blobs[cid], s.meta[cid], cid);
  }

  // ---------------------------------------------------------------- the collector that never collects

  ghost predicate NoReplicas(meta: Records)
  {
    forall cid :: cid in meta ==> meta[cid].replicatedTo == []
  }

  /**
   * With no replica recorded, a factor of 2 or more holds every blob back, and a smaller one asks for no replica at
   * all.
   */
  lemma PermittedWithoutReplicas(config: Config, env: Env, s: State, world: World, cid: string)
    requires config.shardCount > 0 && Inv(env, s) && NoReplicas(s.meta)
    ensures Permitted(config, env, s.meta, world, cid) <==>
            config.replicationFactor <= 1 && cid in s.blobs && !s.meta[cid].pinned && InShard(config, cid)
  {
    AllowedIff(config, env, s.meta, cid, world);
    if cid in s.blobs {
      assert GoodBlob(env, s.blobs[cid], s.meta[cid], cid);
    }
  }

  lemma NoReplicasKeptByStore(env: Env, s: State, op: Storage.Op)
    requires Inv(env, s) && OpEnds(env, s, op) && NoReplicas(s.meta) && !op.RecordReplicas?
    ensures NoReplicas(Storage.Step(env, s, op).0.meta)
  {
    match op
    case Store(_, _, _, _) =>
    case Get(cid, now) => GetRefines(env, s, cid, now);
    case Delete(_) =>
    case Pin(cid) => ChangeRefines(env, s, cid, SetPinned(true));
    case Unpin(cid) => ChangeRefines(env, s, cid, SetPinned(false));
  }

  lemma NoReplicasKept(config: Config, env: Env, s: State, op: NodeOp)
    requires config.shardCount > 0 && Inv(env, s) && Legal(op) && NodeOpEnds(env, s, op) && NoReplicas(s.meta)
    requires !(op.OnStore? && op.op.RecordReplicas?)
    ensures NoReplicas(NodeStep(config, env, s, op).meta)
  {
    match op
    case OnStore(o) => NoReplicasKeptByStore(env, s, o);
    case RunGC(simulate, world) => DryRunIsFaithful(config, env, s, world);
    case DeleteOne(cid, skip, world) => SingleDeletionIff(config, env, s, cid, skip, world);
  }

  /** A run of a node that starts with nothing. */
  ghost function FirstRun(config: Config, env: Env, ops: seq<NodeOp>): (t: Option<State>)
    requires config.shardCount > 0 && GoodCodec(env) && forall op :: op in ops ==> Legal(op)
    ensures t.Some? ==> Inv(env, t.value)
  {
    EmptyInv(env);
    NodeRun(config, env, EMPTY, ops)
  }

  lemma {:induction false} RunsRecordNoReplicas(config: Config, env: Env, ops: seq<NodeOp>)
    requires config.shardCount > 0 && GoodCodec(env)
    requires forall op :: op in ops ==> Legal(op) && !(op.OnStore? && op.op.RecordReplicas?)
    ensures FirstRun(config, env, ops).Some? ==> NoReplicas(FirstRun(config, env, ops).value.meta)
  {
    if ops != [] && FirstRun(config, env, ops).Some? {
      RunsRecordNoReplicas(config, env, ops[..|ops| - 1]);
      assert ops[|ops| - 1] in ops;
      NoReplicasKept(config, env, FirstRun(config, env, ops[..|ops| - 1]).value, ops[|ops| - 1]);
    }
  }

  /**
   * Blobs are stored with an empty replica list, so unless something records replicas afterwards the collector is
   * inert: in every state a run can reach, with a replication factor of at least 2, a collection deletes nothing.
   */
  lemma CollectorIsInert(config: Config, env: Env, ops: seq<NodeOp>, world: World)
    requires config.shardCount > 0 && GoodCodec(env) && config.replicationFactor >= 2
    requires GoodWorld(world) && forall op :: op in ops ==> Legal(op) && !(op.OnStore? && op.op.RecordReplicas?)
    requires FirstRun(config, env, ops).Some?
    ensures var s := FirstRun(config, env, ops).value;
            var swept := Collect(config, env, s, world, false);
            && swept.error.None? && swept.result.deletedCids == []
            && swept.state.blobs == s.blobs && swept.state.meta == s.meta
  {
    RunsRecordNoReplicas(config, env, ops);
    NothingToCollect(config, env, FirstRun(config, env, ops).value, world);
  }

  lemma NothingToCollect(config: Config, env: Env, s: State, world: World)
    requires config.shardCount > 0 && Inv(env, s) && GoodWorld(world)
    requires NoReplicas(s.meta) && config.replicationFactor >= 2
    ensures var swept := Collect(config, env, s, world, false);
            && swept.error.None? && swept.result.deletedCids == []
            && swept.state.blobs == s.blobs && swept.state.meta == s.meta
  {
    var candidates := Proposed(config, env, s, world);
    ProposedRated(config, env, s, world);
    forall cid ensures !Permitted(config, env, s.meta, world, cid) {
      PermittedWithoutReplicas(config, env, s, world, cid);
    }
    SweepIdle(config, env, s, world, candidates, |s.meta|);
  }

  lemma SweepIdle(config: Config, env: Env, s: State, world: World, candidates: seq<Candidate>, checked: nat)
    requires config.shardCount > 0 && Inv(env, s) && Rated(s.meta, candidates)
    requires forall cid :: !Permitted(config, env, s.meta, world, cid)
    ensures var swept := Sweep(config, env, s, world, candidates, false, checked);
            && swept.error.None? && swept.result.deletedCids == []
            && swept.state.blobs == s.blobs && swept.state.meta == s.meta
  {
    var r := Sweep(config, env, s, world, candidates, false, checked).result;
    assert |r.deletedCids| > 0 ==> r.deletedCids[0] in r.deletedCids;
    SweepFaithful(config, env, s, world, candidates, checked);
    InvGivesRecords(env, s);
    SweepDeletes(config, env, s, world, candidates, checked);
  }
}
