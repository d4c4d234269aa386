/**
 * What the collector proposes to delete (src/services/gc.service.ts:184-298). Sizes are in bytes, ages in days; the
 * order of the metadata directory, the clock and the free disk space are parameters.
 */
module Candidates {
  import opened Sequences
  import opened Storage
  import Framing

  datatype Mode = BySize | ByTime | Hybrid

  datatype Policy = Policy(mode: Mode, maxStorage: nat, maxAgeDays: real, minFreeDisk: nat, reservedForPinned: nat)

  datatype Candidate = Candidate(
    cid: string, size: nat, age: real, lastAccessed: int, pinned: bool, priority: real)

  const DAY_MS := 86400000.0
  const MEBIBYTE := 1048576.0

  // ---------------------------------------------------------------- listing

  function NewestFirst(): (Metadata, Metadata) -> bool
  {
    (a: Metadata, b: Metadata) => a.createdAt >= b.createdAt
  }

  /** The readable records among the files of the directory. */
  function ReadableRecords(env: Env, meta: Records, files: seq<string>): seq<Metadata>
  {
    if files == [] then []
    else
      var front, last := ReadableRecords(env, meta, files[..|files| - 1]), files[|files| - 1];
      if last in meta && Intact(env, meta[last]) then front + [meta[last]] else front
  }

  /** `listBlobs`. */
  function ListBlobs(env: Env, meta: Records, files: seq<string>): seq<Metadata>
  {
    Sort(ReadableRecords(env, meta, files), NewestFirst())
  }

  /** The listing holds exactly the listed records that pass their integrity check, newest first. */
  lemma ListingMeans(env: Env, meta: Records, files: seq<string>)
    ensures forall m :: m in ListBlobs(env, meta, files) <==>
              exists file :: file in files && file in meta && meta[file] == m && Intact(env, m)
    ensures forall i, j :: 0 <= i < j < |ListBlobs(env, meta, files)| ==>
              ListBlobs(env, meta, files)[i].createdAt >= ListBlobs(env, meta, files)[j].createdAt
  {
    ReadableMembers(env, meta, files);
    SortElements(ReadableRecords(env, meta, files), NewestFirst());
    NewestFirstSorts(ReadableRecords(env, meta, files));
  }

  lemma {:induction false} ReadableMembers(env: Env, meta: Records, files: seq<string>)
    ensures forall m :: m in ReadableRecords(env, meta, files) <==>
              exists file :: file in files && file in meta && meta[file] == m && Intact(env, m)
  {
    if files != [] {
      assert files == files[..|files| - 1] + [files[|files| - 1]];
      ReadableMembers(env, meta, files[..|files| - 1]);
    }
  }

  lemma NewestFirstSorts(records: seq<Metadata>)
    ensures var list := Sort(records, NewestFirst());
            forall i, j :: 0 <= i < j < |list| ==> list[i].createdAt >= list[j].createdAt
  {
    SortSorted(records, NewestFirst());
    assert Sorted(Sort(records, NewestFirst()), NewestFirst());
  }

  function Cids(records: seq<Metadata>): seq<string>
  {
    Map(records, (m: Metadata) => m.cid)
  }

  /** A last access of 0 counts as none. */
  function LastAccess(m: Metadata): int
  {
    if m.metrics.Some? && m.metrics.value.lastAccessed != 0 then m.metrics.value.lastAccessed else m.createdAt
  }

  function Days(ms: int): real
  {
    ms as real / DAY_MS
  }

  function CandidateOf(cid: string, m: Metadata, now: int): Candidate
  {
    var age, sinceAccess := Days(now - m.createdAt), Days(now - LastAccess(m));
    var priority := if m.pinned then -1000.0 else age * 10.0 + sinceAccess * 5.0 + m.size as real / MEBIBYTE;
    Candidate(cid, m.size, age, LastAccess(m), m.pinned, priority)
  }

  /** The rating spelled out: with the last access if one is noted, otherwise with the time of creation. */
  ghost predicate RatedAs(c: Candidate, cid: string, m: Metadata, now: int)
  {
    && c.cid == cid && c.size == m.size && c.pinned == m.pinned
    && c.age == (now - m.createdAt) as real / 86400000.0
    && (m.metrics.Some? && m.metrics.value.lastAccessed != 0 ==> c.lastAccessed == m.metrics.value.lastAccessed)
    && (m.metrics.None? || m.metrics.value.lastAccessed == 0 ==> c.lastAccessed == m.createdAt)
    && c.priority ==
       if m.pinned then -1000.0
       else c.age * 10.0 + (now - c.lastAccessed) as real / 86400000.0 * 5.0 + m.size as real / 1048576.0
  }

  lemma CandidateRated(cid: string, m: Metadata, now: int)
    ensures RatedAs(CandidateOf(cid, m, now), cid, m, now)
  {
  }

  function AllCandidates(env: Env, meta: Records, cids: seq<string>, now: int): seq<Candidate>
  {
    if cids == [] then []
    else
      var front, last := AllCandidates(env, meta, cids[..|cids| - 1], now), cids[|cids| - 1];
      var found := GetMetadata(env, meta, last).0;
      if found.Some? then front + [CandidateOf(last, found.value, now)] else front
  }

  /** Why the first record that cannot be read cannot be read. */
  function FirstUnreadable(env: Env, meta: Records, cids: seq<string>): Option<Error>
  {
    if cids == [] then None
    else
      var before := FirstUnreadable(env, meta, cids[..|cids| - 1]);
      if before.Some? then before else GetMetadata(env, meta, cids[|cids| - 1]).1
  }

  /** The rating loop of `getDeletionCandidates`, which a record that cannot be read aborts. */
  method RateBlobs(env: Env, meta: Records, cids: seq<string>, now: int)
    returns (candidates: seq<Candidate>, error: Option<Error>)
    ensures error == FirstUnreadable(env, meta, cids)
    ensures error.None? ==> candidates == AllCandidates(env, meta, cids, now)
    ensures error.None? ==>
              && |candidates| == |cids|
              && forall i :: 0 <= i < |cids| ==> cids[i] in meta && RatedAs(candidates[i], cids[i], meta[cids[i]], now)
  {
    candidates, error := [], None;
    for k := 0 to |cids|
      invariant error == FirstUnreadable(env, meta, cids[..k])
      invariant error.None? && candidates == AllCandidates(env, meta, cids[..k], now) && |candidates| == k
      invariant forall i :: 0 <= i < k ==> cids[i] in meta && RatedAs(candidates[i], cids[i], meta[cids[i]], now)
    {
      assert cids[..k + 1][..k] == cids[..k];
      var (metadata, failure) := GetMetadata(env, meta, cids[k]);
      if failure.Some? {
        StaysUnreadable(env, meta, cids, k + 1);
        return candidates, failure;
      }
      var candidate := Rate(cids[k], metadata.value, now);
      CandidateRated(cids[k], metadata.value, now);
      candidates := candidates + [candidate];
    }
    assert cids[..|cids|] == cids;
  }

  method Rate(cid: string, m: Metadata, now: int) returns (candidate: Candidate)
    ensures candidate == CandidateOf(cid, m, now)
  {
    var age, lastAccessed := Days(now - m.createdAt), LastAccess(m);
    var timeSinceAccess := Days(now - lastAccessed);
    var priority := 0.0;
    priority := priority + age * 10.0;
    priority := priority + timeSinceAccess * 5.0;
    priority := priority + m.size as real / MEBIBYTE;
    if m.pinned {
      priority := -1000.0;
    }
    candidate := Candidate(cid, m.size, age, lastAccessed, m.pinned, priority);
  }

  lemma {:induction false} StaysUnreadable(env: Env, meta: Records, cids: seq<string>, k: nat)
    requires k <= |cids| && FirstUnreadable(env, meta, cids[..k]).Some?
    ensures FirstUnreadable(env, meta, cids) == FirstUnreadable(env, meta, cids[..k])
  {
    if k == |cids| {
      assert cids[..k] == cids;
    } else {
      assert cids[..|cids| - 1][..k] == cids[..k];
      StaysUnreadable(env, meta, cids[..|cids| - 1], k);
    }
  }

  /** The rating loop is aborted exactly if some listed CID has no record, or one that fails its integrity check. */
  lemma {:induction false} RatingAbortsIff(env: Env, meta: Records, cids: seq<string>)
    ensures FirstUnreadable(env, meta, cids).Some? <==>
            exists cid :: cid in cids && (cid !in meta || !Intact(env, meta[cid]))
  {
    if cids != [] {
      assert cids == cids[..|cids| - 1] + [cids[|cids| - 1]];
      RatingAbortsIff(env, meta, cids[..|cids| - 1]);
    }
  }

  // ---------------------------------------------------------------- choosing

  function Old(policy: Policy): Candidate -> bool
  {
    (c: Candidate) => c.pinned || c.age > policy.maxAgeDays
  }

  function Pinned(): Candidate -> bool
  {
    (c: Candidate) => c.pinned
  }

  function Unpinned(): Candidate -> bool
  {
    (c: Candidate) => !c.pinned
  }

  function HighestFirst(): (Candidate, Candidate) -> bool
  {
    (a: Candidate, b: Candidate) => a.priority >= b.priority
  }

  function Sizes(list: seq<Candidate>): seq<nat>
  {
    Map(list, (c: Candidate) => c.size)
  }

  /** The disk as the collector sees it. */
  datatype Usage = Usage(used: nat, pinned: nat, free: nat)

  predicate NeedsCleanup(policy: Policy, u: Usage)
  {
    u.used > policy.maxStorage || u.free < policy.minFreeDisk
  }

  function Excess(policy: Policy, u: Usage): (r: nat)
    ensures NeedsCleanup(policy, u) <==> r > 0
    ensures r >= u.used - policy.maxStorage && r >= policy.minFreeDisk - u.free
    ensures r == 0 || r == u.used - policy.maxStorage || r == policy.minFreeDisk - u.free
  {
    var storage := if u.used > policy.maxStorage then u.used - policy.maxStorage else 0;
    var disk := if u.free < policy.minFreeDisk then policy.minFreeDisk - u.free else 0;
    if storage > disk then storage else disk
  }

  predicate Reserved(policy: Policy, u: Usage)
  {
    u.used - u.pinned - policy.reservedForPinned <= 0
  }

  /** Pinned candidates are always taken, the others while less than the excess has been gathered. */
  function TakeEnough(sorted: seq<Candidate>, excess: nat): (seq<Candidate>, nat)
  {
    if sorted == [] then ([], 0)
    else
      var (selected, freed) := TakeEnough(sorted[..|sorted| - 1], excess);
      var last := sorted[|sorted| - 1];
      if last.pinned then (selected + [last], freed)
      else if freed < excess then (selected + [last], freed + last.size)
      else (selected, freed)
  }

  function OfAge(policy: Policy, candidates: seq<Candidate>): seq<Candidate>
  {
    if policy.mode == BySize then candidates else Filter(candidates, Old(policy))
  }

  /** What is left of the candidates once the pressure on the disk is taken into account. */
  function Needed(policy: Policy, filtered: seq<Candidate>, u: Usage): seq<Candidate>
  {
    if !NeedsCleanup(policy, u) then filtered
    else if Reserved(policy, u) then []
    else TakeEnough(Sort(filtered, HighestFirst()), Excess(policy, u)).0
  }

  function Choose(policy: Policy, candidates: seq<Candidate>, u: Usage): seq<Candidate>
  {
    var filtered := OfAge(policy, candidates);
    Sort(if policy.mode == ByTime then filtered else Needed(policy, filtered, u), HighestFirst())
  }

  method SelectEnough(sorted: seq<Candidate>, excessBytes: nat) returns (selected: seq<Candidate>)
    ensures selected == TakeEnough(sorted, excessBytes).0
  {
    var freedBytes: nat := 0;
    selected := [];
    for k := 0 to |sorted|
      invariant (selected, freedBytes) == TakeEnough(sorted[..k], excessBytes)
    {
      assert sorted[..k + 1][..k] == sorted[..k];
      var candidate := sorted[k];
      if candidate.pinned {
        selected := selected + [candidate];
        continue;
      }
      if freedBytes < excessBytes {
        selected := selected + [candidate];
        freedBytes := freedBytes + candidate.size;
      }
    }
    assert sorted[..|sorted|] == sorted;
  }

  method Reclaim(policy: Policy, filtered: seq<Candidate>, u: Usage) returns (selected: seq<Candidate>)
    ensures selected == Needed(policy, filtered, u)
  {
    var needsCleanup := u.used > policy.maxStorage || u.free < policy.minFreeDisk;
    if !needsCleanup {
      return filtered;
    }
    var excessBytes: nat := 0;
    if u.used > policy.maxStorage && u.used - policy.maxStorage > excessBytes {
      excessBytes := u.used - policy.maxStorage;
    }
    if u.free < policy.minFreeDisk && policy.minFreeDisk - u.free > excessBytes {
      excessBytes := policy.minFreeDisk - u.free;
    }
    var availableForDeletion := u.used - u.pinned - policy.reservedForPinned;
    if availableForDeletion <= 0 {
      return [];
    }
    assert excessBytes == Excess(policy, u);
    var sorted := Sort(filtered, HighestFirst());
    selected := SelectEnough(sorted, excessBytes);
  }

  /** `getDeletionCandidates`, after the candidates have been rated. */
  method ChooseCandidates(policy: Policy, candidates: seq<Candidate>, u: Usage) returns (filtered: seq<Candidate>)
    ensures filtered == Choose(policy, candidates, u)
  {
    filtered := candidates;
    if policy.mode == ByTime || policy.mode == Hybrid {
      filtered := Filter(filtered, Old(policy));
    }
    if policy.mode == BySize || policy.mode == Hybrid {
      filtered := Reclaim(policy, filtered, u);
    }
    filtered := Sort(filtered, HighestFirst());
  }

  // ---------------------------------------------------------------- the greedy choice

  lemma HighestFirstOrders()
    ensures TotalPreorder(HighestFirst())
  {
  }

  /** Taking from a sorted list keeps it sorted, without duplicates, and takes nothing that was not there. */
  lemma {:induction false} TakenInOrder(sorted: seq<Candidate>, excess: nat)
    requires Sorted(sorted, HighestFirst()) && NoDup(sorted)
    ensures var taken := TakeEnough(sorted, excess).0;
            Sorted(taken, HighestFirst()) && NoDup(taken) && forall c :: c in taken ==> c in sorted
  {
    if sorted != [] {
      var front, last := sorted[..|sorted| - 1], sorted[|sorted| - 1];
      TakenInOrder(front, excess);
      var taken := TakeEnough(front, excess).0;
      forall c | c in taken ensures HighestFirst()(c, last) && c != last {
        var i :| 0 <= i < |front| && front[i] == c;
        assert sorted[i] == c;
      }
    }
  }

  /** Every pinned candidate is taken. */
  lemma {:induction false} PinnedTaken(sorted: seq<Candidate>, excess: nat)
    ensures Filter(TakeEnough(sorted, excess).0, Pinned()) == Filter(sorted, Pinned())
  {
    if sorted != [] {
      var front, last := sorted[..|sorted| - 1], sorted[|sorted| - 1];
      PinnedTaken(front, excess);
      FilterSnoc(TakeEnough(front, excess).0, last, Pinned());
    }
  }

  lemma SizesSnoc(list: seq<Candidate>, c: Candidate)
    ensures Sum(Sizes(list + [c])) == Sum(Sizes(list)) + c.size
  {
    assert Sizes(list + [c]) == Sizes(list) + [c.size];
    assert (Sizes(list) + [c.size])[..|list|] == Sizes(list);
  }

  /** `n` is the length of the shortest prefix whose sizes reach the excess, or of the whole list if none does. */
  ghost predicate ShortestReaching(order: seq<Candidate>, excess: nat, n: nat)
  {
    && n <= |order| && (n == |order| || Sum(Sizes(order[..n])) >= excess)
    && (forall m :: 0 <= m < n ==> Sum(Sizes(order[..m])) < excess)
  }

  lemma LongerOrder(order: seq<Candidate>, c: Candidate, excess: nat, n: nat)
    requires ShortestReaching(order, excess, n)
    ensures ShortestReaching(order + [c], excess, if Sum(Sizes(order[..n])) < excess then n + 1 else n)
  {
    forall m | 0 <= m <= |order| ensures (order + [c])[..m] == order[..m] {
    }
    assert (order + [c])[..|order| + 1] == order + [c];
  }

  /** The unpinned candidates taken are the shortest prefix of the unpinned ones that reaches the excess. */
  lemma {:induction false} GreedyPrefix(sorted: seq<Candidate>, excess: nat) returns (n: nat)
    ensures var order, (taken, freed) := Filter(sorted, Unpinned()), TakeEnough(sorted, excess);
            && ShortestReaching(order, excess, n) && Filter(taken, Unpinned()) == order[..n]
            && freed == Sum(Sizes(order[..n]))
  {
    n := 0;
    if sorted != [] {
      var front, last := sorted[..|sorted| - 1], sorted[|sorted| - 1];
      n := GreedyPrefix(front, excess);
      var (taken, freed) := TakeEnough(front, excess);
      var order := Filter(front, Unpinned());
      FilterSnoc(taken, last, Unpinned());
      if !last.pinned {
        LongerOrder(order, last, excess, n);
        if freed < excess {
          n := n + 1;
          assert order[..n - 1] == order && (order + [last])[..n] == order + [last];
          SizesSnoc(order, last);
        } else {
          assert (order + [last])[..n] == order[..n];
        }
      }
    }
  }

  /**
   * The choice from a list in priority order: a shortest prefix, a bounded overshoot, and all the pinned candidates.
   */
  ghost predicate Greedy(sorted: seq<Candidate>, excess: nat, chosen: seq<Candidate>, n: nat)
  {
    var order := Filter(sorted, Unpinned());
    && ShortestReaching(order, excess, n) && Filter(chosen, Unpinned()) == order[..n]
    && (n > 0 ==> Sum(Sizes(order[..n])) < excess + order[n - 1].size)
    && (forall i, j :: 0 <= i < n <= j < |order| ==> order[i].priority >= order[j].priority)
    && Filter(chosen, Pinned()) == Filter(sorted, Pinned())
  }

  lemma TakenGreedily(sorted: seq<Candidate>, excess: nat) returns (n: nat)
    requires Sorted(sorted, HighestFirst()) && excess > 0
    ensures Greedy(sorted, excess, TakeEnough(sorted, excess).0, n)
  {
    n := GreedyPrefix(sorted, excess);
    PinnedTaken(sorted, excess);
    FilterSorted(sorted, Unpinned());
    OvershootBounded(Filter(sorted, Unpinned()), excess, n);
  }

  lemma OvershootBounded(order: seq<Candidate>, excess: nat, n: nat)
    requires ShortestReaching(order, excess, n)
    ensures n > 0 ==> Sum(Sizes(order[..n])) < excess + order[n - 1].size
  {
    if n > 0 {
      assert order[..n] == order[..n - 1] + [order[n - 1]];
      SizesSnoc(order[..n - 1], order[n - 1]);
    }
  }

  /**
   * Greedy reclaim. Under pressure and past the reservation gate the unpinned candidates chosen are the shortest
   * prefix of the priority order whose sizes reach the excess, or all of them; they overshoot by less than the last
   * size, no unchosen one outranks a chosen one, and every pinned candidate is kept to be counted as skipped.
   */
  lemma GreedyReclaim(policy: Policy, candidates: seq<Candidate>, u: Usage) returns (n: nat)
    requires NoDup(candidates) && policy.mode != ByTime
    requires u.used > policy.maxStorage || u.free < policy.minFreeDisk
    requires u.used - u.pinned > policy.reservedForPinned
    ensures var sorted := Sort(OfAge(policy, candidates), HighestFirst());
            Sorted(sorted, HighestFirst()) && Greedy(sorted, Excess(policy, u), Choose(policy, candidates, u), n)
  {
    var sorted, excess := Sort(OfAge(policy, candidates), HighestFirst()), Excess(policy, u);
    OfAgeSorted(policy, candidates);
    TakenInOrder(sorted, excess);
    SortFixed(TakeEnough(sorted, excess).0, HighestFirst());
    n := TakenGreedily(sorted, excess);
  }

  lemma OfAgeSorted(policy: Policy, candidates: seq<Candidate>)
    requires NoDup(candidates)
    ensures var sorted := Sort(OfAge(policy, candidates), HighestFirst());
            Sorted(sorted, HighestFirst()) && NoDup(sorted) && forall c :: c in sorted ==> c in candidates
  {
    HighestFirstOrders();
    FilterNoDup(candidates, Old(policy));
    SortSorted(OfAge(policy, candidates), HighestFirst());
    SortNoDup(OfAge(policy, candidates), HighestFirst());
    SortElements(OfAge(policy, candidates), HighestFirst());
  }

  lemma {:induction false} FilterSorted(s: seq<Candidate>, p: Candidate -> bool)
    requires Sorted(s, HighestFirst())
    ensures Sorted(Filter(s, p), HighestFirst())
  {
    if s != [] {
      var front, last := s[..|s| - 1], s[|s| - 1];
      FilterSorted(front, p);
      forall c | c in Filter(front, p) ensures HighestFirst()(c, last) {
        var i :| 0 <= i < |front| && front[i] == c;
        assert s[i] == c;
      }
    }
  }

  // ---------------------------------------------------------------- who is chosen

  /** If the reservation for pinned content leaves nothing, nothing is proposed. */
  lemma NothingWithinReservation(policy: Policy, candidates: seq<Candidate>, u: Usage)
    requires policy.mode != ByTime && (u.used > policy.maxStorage || u.free < policy.minFreeDisk)
    requires u.used - u.pinned <= policy.reservedForPinned
    ensures Choose(policy, candidates, u) == []
  {
  }

  /** What is proposed is proposed in priority order. */
  lemma ChosenSorted(policy: Policy, candidates: seq<Candidate>, u: Usage)
    ensures Sorted(Choose(policy, candidates, u), HighestFirst())
  {
    var filtered := OfAge(policy, candidates);
    HighestFirstOrders();
    SortSorted(if policy.mode == ByTime then filtered else Needed(policy, filtered, u), HighestFirst());
  }

  /**
   * Of two unpinned candidates of the same age the one that ranks lower is never proposed without, or before, the
   * other.
   */
  lemma OutrankedGoesLater(policy: Policy, candidates: seq<Candidate>, u: Usage, a: Candidate, b: Candidate)
    requires NoDup(candidates) && a in candidates && b in candidates && !a.pinned && !b.pinned
    requires a.age == b.age && a.priority < b.priority && a in Choose(policy, candidates, u)
    ensures b in Choose(policy, candidates, u) && Precedes(Choose(policy, candidates, u), b, a)
  {
    ChosenSorted(policy, candidates, u);
    SortedPrecedes(Choose(policy, candidates, u), b, a);
    if policy.mode == ByTime || !NeedsCleanup(policy, u) {
      SortElements(OfAge(policy, candidates), HighestFirst());
    } else if Reserved(policy, u) {
      NothingWithinReservation(policy, candidates, u);
    } else {
      OutrankedUnderPressure(policy, candidates, u, a, b);
    }
  }

  lemma SortedPrecedes(list: seq<Candidate>, a: Candidate, b: Candidate)
    requires Sorted(list, HighestFirst()) && a.priority > b.priority
    ensures Precedes(list, a, b)
  {
    forall i, j | 0 <= i < j < |list| ensures list[i].priority >= list[j].priority {
      assert HighestFirst()(list[i], list[j]);
    }
  }

  lemma OutrankedUnderPressure(policy: Policy, candidates: seq<Candidate>, u: Usage, a: Candidate, b: Candidate)
    requires NoDup(candidates) && b in candidates && !a.pinned && !b.pinned && policy.mode != ByTime
    requires NeedsCleanup(policy, u) && !Reserved(policy, u)
    requires a.age == b.age && a.priority < b.priority && a in Choose(policy, candidates, u)
    ensures b in Choose(policy, candidates, u)
  {
    var filtered := OfAge(policy, candidates);
    var n := GreedyReclaim(policy, candidates, u);
    OfAgeSorted(policy, candidates);
    SortElements(filtered, HighestFirst());
    ChosenOfAge(policy, candidates, u, a);
    GreedyOutranks(Sort(filtered, HighestFirst()), Excess(policy, u), Choose(policy, candidates, u), n, a, b);
  }

  lemma ChosenOfAge(policy: Policy, candidates: seq<Candidate>, u: Usage, c: Candidate)
    requires NoDup(candidates) && c in Choose(policy, candidates, u) && policy.mode != ByTime
    requires NeedsCleanup(policy, u) && !Reserved(policy, u)
    ensures c in OfAge(policy, candidates)
  {
    var sorted, excess := Sort(OfAge(policy, candidates), HighestFirst()), Excess(policy, u);
    OfAgeSorted(policy, candidates);
    TakenInOrder(sorted, excess);
    SortElements(OfAge(policy, candidates), HighestFirst());
    SortElements(TakeEnough(sorted, excess).0, HighestFirst());
  }

  lemma GreedyOutranks(
    sorted: seq<Candidate>, excess: nat, chosen: seq<Candidate>, n: nat, a: Candidate, b: Candidate)
    requires Greedy(sorted, excess, chosen, n) && a in chosen && b in sorted && !a.pinned && !b.pinned
    requires a.priority < b.priority
    ensures b in chosen
  {
    var order := Filter(sorted, Unpinned());
    assert a in Filter(chosen, Unpinned());
    var i :| 0 <= i < n && order[..n][i] == a;
    var j :| 0 <= j < |order| && order[j] == b;
    assert order[..n][i] == order[i];
    assert j < n;
    assert order[..n][j] == b;
  }

  /**
   * Reading protects: of two unpinned blobs of the same size and time of creation, the one read later is never proposed
   * without, or before, the other.
   */
  lemma ReadLaterGoesLater(
    policy: Policy, candidates: seq<Candidate>, u: Usage, now: int, a: string, m: Metadata, b: string, n: Metadata)
    requires NoDup(candidates) && CandidateOf(a, m, now) in candidates && CandidateOf(b, n, now) in candidates
    requires !m.pinned && !n.pinned && m.size == n.size && m.createdAt == n.createdAt
    requires m.metrics.Some? && n.metrics.Some? && n.metrics.value.lastAccessed < m.metrics.value.lastAccessed
    requires m.metrics.value.lastAccessed != 0 && n.metrics.value.lastAccessed != 0
    requires CandidateOf(a, m, now) in Choose(policy, candidates, u)
    ensures CandidateOf(b, n, now) in Choose(policy, candidates, u)
    ensures Precedes(Choose(policy, candidates, u), CandidateOf(b, n, now), CandidateOf(a, m, now))
  {
    CandidateRated(a, m, now);
    CandidateRated(b, n, now);
    OutrankedGoesLater(policy, candidates, u, CandidateOf(a, m, now), CandidateOf(b, n, now));
  }

  /** A read is noticed: the rating counts from the last read since the blob was stored. */
  lemma ReadIsNoticed(
    env: Env, ops: seq<Op>, states: seq<State>, i: nat, at: nat, cid: string, later: int)
    requires GoodCodec(env) && History(env, ops, states) && StoredSince(env, ops, states, i, |ops|, cid)
    requires i < at < |ops| && ops[at].Get? && ops[at].cid == cid
    requires forall k :: at < k < |ops| ==> !(ops[k].Get? && ops[k].cid == cid)
    ensures cid in states[|ops|].meta
    ensures var c := CandidateOf(cid, states[|ops|].meta[cid], later);
            && c.lastAccessed == (if ops[at].now != 0 then ops[at].now else ops[i].now)
            && c.age == Days(later - ops[i].now)
  {
    LastAccessIsLastRead(env, ops, states, i, at, cid);
    RecordsTell(env, ops, states, i, |ops|, cid);
  }

  /** No candidate is invented or proposed twice. */
  lemma ChosenFrom(policy: Policy, candidates: seq<Candidate>, u: Usage)
    requires NoDup(candidates)
    ensures NoDup(Choose(policy, candidates, u)) && forall c :: c in Choose(policy, candidates, u) ==> c in candidates
  {
    var sorted := Sort(OfAge(policy, candidates), HighestFirst());
    OfAgeSorted(policy, candidates);
    TakenInOrder(sorted, Excess(policy, u));
    SortFixed(TakeEnough(sorted, Excess(policy, u)).0, HighestFirst());
  }

  /**
   * When the disk is under no pressure, `time` and `hybrid` propose all blobs past the age limit, but `size` proposes
   * every blob there is.
   */
  lemma ChosenWithoutPressure(policy: Policy, candidates: seq<Candidate>, u: Usage)
    requires policy.mode == ByTime || !NeedsCleanup(policy, u)
    ensures forall c :: c in Choose(policy, candidates, u) <==>
                        c in candidates && (policy.mode == BySize || c.pinned || c.age > policy.maxAgeDays)
  {
    SortElements(OfAge(policy, candidates), HighestFirst());
  }

  /** What the reservation for pinned content leaves. */
  function AvailableForDeletion(policy: Policy, u: Usage): int
  {
    u.used - u.pinned - policy.reservedForPinned
  }

  /**
   * The reservation is passed over by less than the last size chosen and what the limits ask beyond it: with the
   * storage limit alone, by less than pinned and reserved bytes exceed that limit, plus the last size.
   */
  lemma ReservationOverrun(policy: Policy, candidates: seq<Candidate>, u: Usage) returns (last: nat)
    requires NoDup(candidates) && policy.mode != ByTime
    requires u.used > policy.maxStorage || u.free < policy.minFreeDisk
    requires AvailableForDeletion(policy, u) > 0
    ensures var chosen := Filter(Choose(policy, candidates, u), Unpinned());
            var overrun := Sum(Sizes(chosen)) - AvailableForDeletion(policy, u);
            && (chosen != [] ==> last == chosen[|chosen| - 1].size)
            && (chosen == [] ==> overrun < 0)
            && (chosen != [] ==> overrun < Excess(policy, u) - AvailableForDeletion(policy, u) + last)
            && (chosen != [] && u.free >= policy.minFreeDisk ==>
                  overrun < u.pinned + policy.reservedForPinned - policy.maxStorage + last)
  {
    var n := GreedyReclaim(policy, candidates, u);
    last := OverrunBelowLast(Sort(OfAge(policy, candidates), HighestFirst()), Excess(policy, u),
                             Choose(policy, candidates, u), n);
  }

  lemma OverrunBelowLast(sorted: seq<Candidate>, excess: nat, chosen: seq<Candidate>, n: nat) returns (last: nat)
    requires Greedy(sorted, excess, chosen, n)
    ensures var taken := Filter(chosen, Unpinned());
            && (taken != [] ==> last == taken[|taken| - 1].size && Sum(Sizes(taken)) < excess + last)
            && (taken == [] ==> Sum(Sizes(taken)) == 0)
  {
    var taken := Filter(chosen, Unpinned());
    last := if taken == [] then 0 else taken[|taken| - 1].size;
  }

  /** The reservation only gates: one byte above it, everything stored may be proposed, reserved space included. */
  lemma ReservationDoesNotCap(reserved: nat, cid: string)
    ensures var policy, u := Policy(BySize, 0, 0.0, 0, reserved), Usage(reserved + 1, 0, 0);
            var c := Candidate(cid, reserved + 1, 0.0, 0, false, 0.0);
            Choose(policy, [c], u) == [c] && u.used - u.pinned - policy.reservedForPinned == 1
  {
    var c := Candidate(cid, reserved + 1, 0.0, 0, false, 0.0);
    SortFixed([c], HighestFirst());
    assert [c][..0] == [];
    assert TakeEnough([], reserved + 1) == ([], 0);
    assert TakeEnough([c], reserved + 1).0 == [c];
  }

  // ---------------------------------------------------------------- pinned blobs at the end

  /** How far the dates of a record lie in the future, weighed as the priority weighs them. */
  function Ahead(m: Metadata, now: int): real
  {
    10.0 * Days(m.createdAt - now) + 5.0 * Days(LastAccess(m) - now)
  }

  /** How far they may lie in the future for the blob to come no later than the pinned ones. */
  function Allowance(m: Metadata): real
  {
    1000.0 + m.size as real / MEBIBYTE
  }

  lemma DaysAhead(a: int, b: int)
    ensures Days(a - b) == -Days(b - a)
  {
  }

  lemma PriorityIsAhead(cid: string, m: Metadata, now: int)
    ensures CandidateOf(cid, m, now).priority == if m.pinned then -1000.0 else m.size as real / MEBIBYTE - Ahead(m, now)
  {
    DaysAhead(m.createdAt, now);
    DaysAhead(LastAccess(m), now);
  }

  ghost predicate PinnedLast(list: seq<Candidate>)
  {
    forall i, j :: 0 <= i < j < |list| && list[i].pinned ==> list[j].pinned
  }

  ghost predicate AllUnpinned(list: seq<Candidate>)
  {
    forall c :: c in list ==> !c.pinned
  }

  ghost predicate PinnedAtFloor(list: seq<Candidate>)
  {
    forall c :: c in list && c.pinned ==> c.priority == -1000.0
  }

  lemma PinnedLastSnoc(list: seq<Candidate>, c: Candidate)
    ensures PinnedLast(list + [c]) <==> PinnedLast(list) && (c.pinned || AllUnpinned(list))
  {
    var more := list + [c];
    assert forall i :: 0 <= i < |list| ==> more[i] == list[i];
    if PinnedLast(more) {
      forall i, j | 0 <= i < j < |list| && list[i].pinned ensures list[j].pinned {
        assert more[i].pinned && more[j] == list[j];
      }
      forall d | d in list && !c.pinned ensures !d.pinned {
        var i :| 0 <= i < |list| && list[i] == d;
        assert more[i] == d && more[|list|] == c;
      }
    }
  }

  /** What a new candidate must meet for the pinned ones to stay last. */
  ghost predicate Suits(list: seq<Candidate>, c: Candidate)
  {
    if c.pinned then forall d :: d in list && !d.pinned ==> d.priority >= -1000.0
    else c.priority > -1000.0 || AllUnpinned(list)
  }

  lemma {:induction false} InsertKeepsPinnedLastIff(list: seq<Candidate>, c: Candidate)
    requires Sorted(list, HighestFirst()) && PinnedAtFloor(list) && (c.pinned ==> c.priority == -1000.0)
    ensures PinnedLast(Insert(list, c, HighestFirst())) <==> PinnedLast(list) && Suits(list, c)
  {
    if list == [] || list[|list| - 1].priority >= c.priority {
      PinnedLastSnoc(list, c);
      forall d | d in list ensures d.priority >= c.priority {
        var i :| 0 <= i < |list| && list[i] == d;
        assert i < |list| - 1 ==> HighestFirst()(list[i], list[|list| - 1]);
      }
    } else {
      var front, last := list[..|list| - 1], list[|list| - 1];
      assert list == front + [last];
      InsertKeepsPinnedLastIff(front, c);
      PinnedLastSnoc(front, last);
      PinnedLastSnoc(Insert(front, c, HighestFirst()), last);
      InsertUnpinned(front, c);
    }
  }

  lemma InsertUnpinned(list: seq<Candidate>, c: Candidate)
    ensures AllUnpinned(Insert(list, c, HighestFirst())) <==> AllUnpinned(list) && !c.pinned
  {
    var more := Insert(list, c, HighestFirst());
    forall d ensures d in more <==> d in list || d == c {
      assert d in more <==> d in multiset(more);
    }
  }

  /** Whatever is not pinned ranks above the pinned ones, or with them and before them. */
  ghost predicate RanksKeepPinnedLast(list: seq<Candidate>)
  {
    forall i, j :: 0 <= i < |list| && 0 <= j < |list| && list[i].pinned && !list[j].pinned ==>
      list[j].priority > -1000.0 || (list[j].priority == -1000.0 && j < i)
  }

  lemma RanksSnoc(list: seq<Candidate>, c: Candidate)
    requires PinnedAtFloor(list + [c])
    ensures RanksKeepPinnedLast(list + [c]) <==> RanksKeepPinnedLast(list) && Suits(list, c)
  {
    var more := list + [c];
    assert forall i :: 0 <= i < |list| ==> more[i] == list[i] && list[i] in list;
    if RanksKeepPinnedLast(more) {
      forall i, j | 0 <= i < |list| && 0 <= j < |list| && list[i].pinned && !list[j].pinned
        ensures list[j].priority > -1000.0 || (list[j].priority == -1000.0 && j < i) {
        assert more[i].pinned && !more[j].pinned;
      }
      forall d | d in list && d.pinned != c.pinned
        ensures if c.pinned then d.priority >= -1000.0 else c.priority > -1000.0 {
        var i :| 0 <= i < |list| && list[i] == d;
        assert more[i] == d && more[|list|] == c;
      }
    }
  }

  lemma {:induction false} SortKeepsPinnedLastIff(list: seq<Candidate>)
    requires PinnedAtFloor(list)
    ensures PinnedLast(Sort(list, HighestFirst())) <==> RanksKeepPinnedLast(list)
  {
    if list != [] {
      var front, last := list[..|list| - 1], list[|list| - 1];
      assert list == front + [last];
      SortKeepsPinnedLastIff(front);
      RanksSnoc(front, last);
      HighestFirstOrders();
      SortSorted(front, HighestFirst());
      SortElements(front, HighestFirst());
      InsertKeepsPinnedLastIff(Sort(front, HighestFirst()), last);
    }
  }

  /**
   * The pinned blobs come last exactly if no blob that is not pinned is dated too far into the future: further than a
   * thousand and its mebibytes allow, or just as far as that but listed behind a pinned one.
   */
  lemma PinnedLastIff(env: Env, meta: Records, cids: seq<string>, now: int)
    requires GoodRecords(env, meta) && forall cid :: cid in cids ==> cid in meta
    ensures PinnedLast(Sort(AllCandidates(env, meta, cids, now), HighestFirst())) <==>
            forall i, j :: 0 <= i < |cids| && 0 <= j < |cids| && meta[cids[i]].pinned && !meta[cids[j]].pinned ==>
              Ahead(meta[cids[j]], now) < Allowance(meta[cids[j]]) ||
              (Ahead(meta[cids[j]], now) == Allowance(meta[cids[j]]) && j < i)
  {
    var all := AllCandidates(env, meta, cids, now);
    RatesAll(env, meta, cids, now);
    forall i | 0 <= i < |all|
      ensures all[i].priority == if meta[cids[i]].pinned then -1000.0
                                 else Allowance(meta[cids[i]]) - 1000.0 - Ahead(meta[cids[i]], now) {
      PriorityIsAhead(cids[i], meta[cids[i]], now);
    }
    SortKeepsPinnedLastIff(all);
  }

  /** A clock that is set back: a blob stored a hundred days ahead of it comes after one that was stored and pinned. */
  lemma SetBackClockRanksLast(env: Env, first: Framing.Bytes, second: Framing.Bytes, mimeType: string, now: int)
    requires |second| <= 400 * 1048576
    ensures var pinned := Updated(env, FreshMetadata(env, "a", first, mimeType, now), SetPinned(true));
            var ahead := FreshMetadata(env, "b", second, mimeType, now + 100 * 86400000);
            var all := AllCandidates(env, map["a" := pinned, "b" := ahead], ["b", "a"], now);
            |all| == 2 && all[1].pinned && !all[0].pinned && Sort(all, HighestFirst()) == [all[1], all[0]]
  {
    var pinned := Updated(env, FreshMetadata(env, "a", first, mimeType, now), SetPinned(true));
    var ahead := FreshMetadata(env, "b", second, mimeType, now + 100 * 86400000);
    var meta := map["a" := pinned, "b" := ahead];
    assert GoodRecords(env, meta);
    RatesAll(env, meta, ["b", "a"], now);
    PriorityIsAhead("b", ahead, now);
    assert Days(100 * 86400000) == 100.0;
    var all := AllCandidates(env, meta, ["b", "a"], now);
    assert all == [all[0], all[1]] && all[..1] == [all[0]] && [all[0]][..0] == [];
    assert Sort([all[0]], HighestFirst()) == [all[0]];
    assert Insert([all[0]], all[1], HighestFirst()) == [all[1], all[0]];
  }

  // ---------------------------------------------------------------- the candidates of a store

  ghost predicate GoodRecords(env: Env, meta: Records)
  {
    forall cid :: cid in meta ==> meta[cid].cid == cid && Intact(env, meta[cid])
  }

  /** `files` are the records, in some order. */
  ghost predicate Lists(files: seq<string>, meta: Records)
  {
    NoDup(files) && Elements(files) == meta.Keys
  }

  lemma {:induction false} ReadsAll(env: Env, meta: Records, files: seq<string>)
    requires GoodRecords(env, meta) && NoDup(files) && Elements(files) <= meta.Keys
    ensures var r := ReadableRecords(env, meta, files);
            |r| == |files| && forall i :: 0 <= i < |r| ==> r[i] == meta[files[i]]
  {
    if files != [] {
      var front, last := files[..|files| - 1], files[|files| - 1];
      assert last in Elements(files);
      forall f | f in Elements(front) ensures f in Elements(files) {
      }
      ReadsAll(env, meta, front);
    }
  }

  lemma {:induction false} RatesAll(env: Env, meta: Records, cids: seq<string>, now: int)
    requires GoodRecords(env, meta) && forall cid :: cid in cids ==> cid in meta
    ensures var all := AllCandidates(env, meta, cids, now);
            |all| == |cids| && forall i :: 0 <= i < |all| ==> all[i] == CandidateOf(cids[i], meta[cids[i]], now)
  {
    if cids != [] {
      RatesAll(env, meta, cids[..|cids| - 1], now);
      assert cids[|cids| - 1] in meta;
    }
  }

  /** The readable records are all records, each under its own CID. */
  lemma ReadsEachOnce(env: Env, meta: Records, files: seq<string>)
    requires GoodRecords(env, meta) && Lists(files, meta)
    ensures var records := ReadableRecords(env, meta, files);
            && NoDup(records) && |records| == |meta|
            && (forall m :: m in records ==> m.cid in meta && meta[m.cid] == m)
            && (forall cid :: cid in meta ==> meta[cid] in records)
  {
    var records := ReadableRecords(env, meta, files);
    ReadsAll(env, meta, files);
    NoDupSize(files);
    forall i | 0 <= i < |files| ensures files[i] in meta {
      assert files[i] in Elements(files);
    }
    forall cid | cid in meta ensures meta[cid] in records {
      assert cid in Elements(files);
      var i :| 0 <= i < |files| && files[i] == cid;
      assert records[i] == meta[cid];
    }
  }

  /** The listing names every stored blob once, whatever the order of the directory. */
  lemma ListsEachOnce(env: Env, meta: Records, files: seq<string>)
    requires GoodRecords(env, meta) && Lists(files, meta)
    ensures var cids := Cids(ListBlobs(env, meta, files));
            NoDup(cids) && |cids| == |meta| && forall cid :: cid in cids <==> cid in meta
  {
    var records := ReadableRecords(env, meta, files);
    ReadsEachOnce(env, meta, files);
    SortNoDup(records, NewestFirst());
    SortElements(records, NewestFirst());
    CidsOnce(meta, ListBlobs(env, meta, files));
  }

  lemma CidsOnce(meta: Records, records: seq<Metadata>)
    requires NoDup(records) && forall m :: m in records ==> m.cid in meta && meta[m.cid] == m
    requires forall cid :: cid in meta ==> meta[cid].cid == cid && meta[cid] in records
    ensures NoDup(Cids(records)) && forall cid :: cid in Cids(records) <==> cid in meta
  {
    forall cid | cid in meta ensures cid in Cids(records) {
      var j :| 0 <= j < |records| && records[j] == meta[cid];
      assert Cids(records)[j] == cid;
    }
    forall i, j | 0 <= i < j < |records| ensures Cids(records)[i] != Cids(records)[j] {
      assert records[i] in records && records[j] in records;
    }
  }

  /** Every stored blob is rated exactly once, whatever the order of the directory. */
  lemma EveryBlobIsRated(env: Env, meta: Records, files: seq<string>, now: int)
    requires GoodRecords(env, meta) && Lists(files, meta)
    ensures var all := AllCandidates(env, meta, Cids(ListBlobs(env, meta, files)), now);
            && NoDup(all) && |all| == |meta|
            && (forall c :: c in all <==> c.cid in meta && c == CandidateOf(c.cid, meta[c.cid], now))
  {
    ListsEachOnce(env, meta, files);
    RatesEachOnce(env, meta, Cids(ListBlobs(env, meta, files)), now);
  }

  lemma RatesEachOnce(env: Env, meta: Records, cids: seq<string>, now: int)
    requires GoodRecords(env, meta) && NoDup(cids) && forall cid :: cid in cids <==> cid in meta
    ensures var all := AllCandidates(env, meta, cids, now);
            && NoDup(all) && |all| == |cids|
            && (forall c :: c in all <==> c.cid in meta && c == CandidateOf(c.cid, meta[c.cid], now))
  {
    RatesAll(env, meta, cids, now);
    var all := AllCandidates(env, meta, cids, now);
    forall c: Candidate | c.cid in meta && c == CandidateOf(c.cid, meta[c.cid], now) ensures c in all {
      var i :| 0 <= i < |cids| && cids[i] == c.cid;
      assert all[i] == c;
    }
    forall c | c in all ensures c.cid in meta && c == CandidateOf(c.cid, meta[c.cid], now) {
      var i :| 0 <= i < |all| && all[i] == c;
      assert cids[i] in cids;
    }
  }
}
