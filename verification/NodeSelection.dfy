/** Deterministic selection of replica nodes (src/utils/node-selection.ts). The hash is a parameter. */
module NodeSelection {
  import opened Sequences
  import opened Sharding
  import opened Rendezvous

  datatype Node = Node(nodeId: string, url: string, score: Option<int>, shards: Option<Shards>)

  datatype Reason = PreviouslyFailed | LowReputation(score: int) | NotResponsible(shardKey: int)

  datatype Exclusion = Exclusion(nodeId: string, reason: Reason)

  /** `computeSelectionHash` of a CID and a node id. */
  type Hash = (string, string) -> nat

  const MIN_REPUTATION_SCORE := 200

  function KeyOf(hash: Hash, cid: string): Node -> nat
  {
    (n: Node) => hash(cid, n.nodeId)
  }

  predicate LowScore(n: Node)
  {
    n.score.Some? && n.score.value < MIN_REPUTATION_SCORE
  }

  function Eligible(exclude: seq<string>): Node -> bool
  {
    (n: Node) => n.nodeId !in exclude && !LowScore(n)
  }

  function InShard(shardKey: int): Node -> bool
  {
    (n: Node) => n.shards.None? || Responsible(shardKey, n.shards.value)
  }

  /** The first reason, if any, for which a node is left out; without a shard only two of them apply. */
  function Objection(n: Node, exclude: seq<string>, shardKey: Option<int>): Option<Reason>
  {
    if n.nodeId in exclude then Some(PreviouslyFailed)
    else if shardKey.Some? && !InShard(shardKey.value)(n) then Some(NotResponsible(shardKey.value))
    else if LowScore(n) then Some(LowReputation(n.score.value))
    else None
  }

  function Exclusions(nodes: seq<Node>, exclude: seq<string>, shardKey: Option<int>): seq<Exclusion>
  {
    if nodes == [] then []
    else
      var last := nodes[|nodes| - 1];
      var objection := Objection(last, exclude, shardKey);
      Exclusions(nodes[..|nodes| - 1], exclude, shardKey) +
      if objection.Some? then [Exclusion(last.nodeId, objection.value)] else []
  }

  /** `deterministicSelect`: sorted by hash, the first `count`. */
  function DeterministicSelect(hash: Hash, cid: string, nodes: seq<Node>, count: nat): seq<Node>
  {
    Sort(nodes, LeqBy(KeyOf(hash, cid)))[..if count < |nodes| then count else |nodes|]
  }

  function Selection(hash: Hash, cid: string, nodes: seq<Node>, factor: nat, exclude: seq<string>): seq<Node>
  {
    DeterministicSelect(hash, cid, Filter(nodes, Eligible(exclude)), factor)
  }

  /** The nodes against which there is no objection. */
  function Remaining(nodes: seq<Node>, exclude: seq<string>, shardKey: Option<int>): seq<Node>
  {
    if nodes == [] then []
    else
      var last := nodes[|nodes| - 1];
      Remaining(nodes[..|nodes| - 1], exclude, shardKey) +
      if Objection(last, exclude, shardKey).None? then [last] else []
  }

  lemma {:induction false} RemainingIsFilter(nodes: seq<Node>, exclude: seq<string>, shardKey: int)
    ensures Remaining(nodes, exclude, None) == Filter(nodes, Eligible(exclude))
    ensures Remaining(nodes, exclude, Some(shardKey)) == Filter(Filter(nodes, InShard(shardKey)), Eligible(exclude))
  {
    if nodes != [] {
      var front, last := nodes[..|nodes| - 1], nodes[|nodes| - 1];
      RemainingIsFilter(front, exclude, shardKey);
      FilterSnoc(Filter(front, InShard(shardKey)), last, Eligible(exclude));
    }
  }

  method SelectNodesForReplication(hash: Hash, cid: string, availableNodes: seq<Node>, replicationFactor: nat,
                                   excludeNodes: seq<string>)
    returns (selected: seq<Node>, excluded: seq<Exclusion>)
    ensures selected == Selection(hash, cid, availableNodes, replicationFactor, excludeNodes)
    ensures excluded == Exclusions(availableNodes, excludeNodes, None)
  {
    excluded := [];
    var eligibleNodes: seq<Node> := [];
    for i := 0 to |availableNodes|
      invariant eligibleNodes == Remaining(availableNodes[..i], excludeNodes, None)
      invariant excluded == Exclusions(availableNodes[..i], excludeNodes, None)
    {
      var node := availableNodes[i];
      assert availableNodes[..i + 1][..i] == availableNodes[..i];
      if node.nodeId in excludeNodes {
        excluded := excluded + [Exclusion(node.nodeId, PreviouslyFailed)];
      } else if node.score.Some? && node.score.value < MIN_REPUTATION_SCORE {
        excluded := excluded + [Exclusion(node.nodeId, LowReputation(node.score.value))];
      } else {
        eligibleNodes := eligibleNodes + [node];
      }
    }
    assert availableNodes[..|availableNodes|] == availableNodes;
    RemainingIsFilter(availableNodes, excludeNodes, 0);
    selected := DeterministicSelect(hash, cid, eligibleNodes, replicationFactor);
  }

  /** The same with the additional demand that a node covers the CID's shard, if it says which shards it covers. */
  method SelectNodesForReplicationWithShards(
    hash: Hash, hash48: string -> nat, cid: string, availableNodes: seq<Node>, replicationFactor: nat, shardCount: nat,
    excludeNodes: seq<string>)
    returns (selected: seq<Node>, excluded: seq<Exclusion>)
    requires shardCount > 0
    ensures var shardKey := ShardKey(cid, shardCount, hash48);
            && selected == Selection(hash, cid, Filter(availableNodes, InShard(shardKey)), replicationFactor,
                                     excludeNodes)
            && excluded == Exclusions(availableNodes, excludeNodes, Some(shardKey))
  {
    excluded := [];
    var shardKey := ShardKey(cid, shardCount, hash48);
    var shardNodes: seq<Node> := [];
    for i := 0 to |availableNodes|
      invariant shardNodes == Remaining(availableNodes[..i], excludeNodes, Some(shardKey))
      invariant excluded == Exclusions(availableNodes[..i], excludeNodes, Some(shardKey))
    {
      var node := availableNodes[i];
      assert availableNodes[..i + 1][..i] == availableNodes[..i];
      if node.nodeId in excludeNodes {
        excluded := excluded + [Exclusion(node.nodeId, PreviouslyFailed)];
      } else if node.shards.Some? && !Responsible(shardKey, node.shards.value) {
        excluded := excluded + [Exclusion(node.nodeId, NotResponsible(shardKey))];
      } else if node.score.Some? && node.score.value < MIN_REPUTATION_SCORE {
        excluded := excluded + [Exclusion(node.nodeId, LowReputation(node.score.value))];
      } else {
        shardNodes := shardNodes + [node];
      }
    }
    assert availableNodes[..|availableNodes|] == availableNodes;
    RemainingIsFilter(availableNodes, excludeNodes, shardKey);
    selected := DeterministicSelect(hash, cid, shardNodes, replicationFactor);
  }

  /** `selectReplacementNodes`: counts the failed nodes as members of the current ones. */
  function Replacements(
    hash: Hash, cid: string, nodes: seq<Node>, factor: nat, current: seq<string>, failed: seq<string>)
    : seq<Node>
  {
    var needed := factor - (|current| - |failed|);
    if needed <= 0 then [] else Selection(hash, cid, nodes, needed, current + failed)
  }

  // ---------------------------------------------------------------- selection as a set

  /** Node ids and their hashes for the CID are distinct. */
  ghost predicate Distinct(nodes: seq<Node>, hash: Hash, cid: string)
  {
    NoDup(nodes) && Injective(Elements(nodes), KeyOf(hash, cid))
  }

  lemma SelectIsTop(hash: Hash, cid: string, nodes: seq<Node>, count: nat)
    requires Distinct(nodes, hash, cid)
    ensures Elements(DeterministicSelect(hash, cid, nodes, count)) == Top(Elements(nodes), KeyOf(hash, cid), count)
    ensures NoDup(DeterministicSelect(hash, cid, nodes, count))
  {
    var h := KeyOf(hash, cid);
    var sorted := Sort(nodes, LeqBy(h));
    LeqByTotal(h);
    SortSorted(nodes, LeqBy(h));
    SortElements(nodes, LeqBy(h));
    SortNoDup(nodes, LeqBy(h));
    if count < |nodes| {
      SortedTop(sorted, h, count);
    } else {
      assert sorted[..|nodes|] == sorted;
      NoDupSize(nodes);
      AllOnTop(Elements(nodes), h, count);
    }
  }

  lemma EligibleDistinct(hash: Hash, cid: string, nodes: seq<Node>, exclude: seq<string>)
    requires Distinct(nodes, hash, cid)
    ensures Distinct(Filter(nodes, Eligible(exclude)), hash, cid)
  {
    FilterNoDup(nodes, Eligible(exclude));
  }

  ghost function EligibleSet(nodes: seq<Node>, exclude: seq<string>): set<Node>
  {
    Elements(Filter(nodes, Eligible(exclude)))
  }

  /**
   * A node is selected exactly when it is eligible and fewer than `factor` eligible nodes have a smaller hash, whatever
   * the order of the list.
   */
  lemma SelectionIsRank(hash: Hash, cid: string, nodes: seq<Node>, factor: nat, exclude: seq<string>)
    requires Distinct(nodes, hash, cid)
    ensures Elements(Selection(hash, cid, nodes, factor, exclude)) ==
            Top(EligibleSet(nodes, exclude), KeyOf(hash, cid), factor)
    ensures NoDup(Selection(hash, cid, nodes, factor, exclude))
  {
    EligibleDistinct(hash, cid, nodes, exclude);
    SelectIsTop(hash, cid, Filter(nodes, Eligible(exclude)), factor);
  }

  /** The node has not failed before and its score, if it has one, is not below 200. */
  ghost predicate Qualifies(n: Node, exclude: seq<string>)
  {
    n.nodeId !in exclude && (n.score.None? || n.score.value >= 200)
  }

  /**
   * Who is selected, spelled out: who qualifies and has fewer than `factor` others before it in the order of hashes.
   */
  lemma SelectedIff(hash: Hash, cid: string, nodes: seq<Node>, factor: nat, exclude: seq<string>, n: Node)
    requires Distinct(nodes, hash, cid)
    ensures var ahead := set m | m in nodes && Qualifies(m, exclude) && hash(cid, m.nodeId) < hash(cid, n.nodeId);
            n in Selection(hash, cid, nodes, factor, exclude) <==>
            n in nodes && Qualifies(n, exclude) && |ahead| < factor
  {
    SelectionIsRank(hash, cid, nodes, factor, exclude);
    assert EligibleSet(nodes, exclude) == set m | m in nodes && Qualifies(m, exclude);
    var ahead := set m | m in nodes && Qualifies(m, exclude) && hash(cid, m.nodeId) < hash(cid, n.nodeId);
    assert ahead == Below(EligibleSet(nodes, exclude), KeyOf(hash, cid), n);
    assert n in Selection(hash, cid, nodes, factor, exclude) <==>
           n in Elements(Selection(hash, cid, nodes, factor, exclude));
  }

  /** The selected nodes stand in the order of their hashes. */
  lemma SelectedInOrder(hash: Hash, cid: string, nodes: seq<Node>, factor: nat, exclude: seq<string>)
    ensures var selected := Selection(hash, cid, nodes, factor, exclude);
            forall i, j :: 0 <= i < j < |selected| ==> hash(cid, selected[i].nodeId) <= hash(cid, selected[j].nodeId)
  {
    LeqByTotal(KeyOf(hash, cid));
    SortSorted(Filter(nodes, Eligible(exclude)), LeqBy(KeyOf(hash, cid)));
  }

  /** Why a node is left out: it failed before, or else covers other shards, or else its score is below 200. */
  ghost function Why(exclude: seq<string>, shardKey: Option<int>): Node -> Reason
  {
    (n: Node) =>
      if n.nodeId in exclude then PreviouslyFailed
      else if shardKey.Some? && n.shards.Some? && !Responsible(shardKey.value, n.shards.value)
      then NotResponsible(shardKey.value)
      else LowReputation(if n.score.Some? then n.score.value else 200)
  }

  ghost function LeftOut(exclude: seq<string>, shardKey: Option<int>): Node -> bool
  {
    (n: Node) =>
      || !Qualifies(n, exclude)
      || (shardKey.Some? && n.shards.Some? && !Responsible(shardKey.value, n.shards.value))
  }

  lemma ObjectionMeans(n: Node, exclude: seq<string>, shardKey: Option<int>)
    ensures Objection(n, exclude, shardKey) ==
            if LeftOut(exclude, shardKey)(n) then Some(Why(exclude, shardKey)(n)) else None
  {
  }

  /** Exactly those are reported, in the order of the list, each with the first reason that holds; the others remain. */
  lemma ExclusionsMean(nodes: seq<Node>, exclude: seq<string>, shardKey: Option<int>)
    ensures Exclusions(nodes, exclude, shardKey) ==
            Map(Filter(nodes, LeftOut(exclude, shardKey)),
                (n: Node) => Exclusion(n.nodeId, Why(exclude, shardKey)(n)))
    ensures Remaining(nodes, exclude, shardKey) == Filter(nodes, (n: Node) => !LeftOut(exclude, shardKey)(n))
  {
    var remains := (n: Node) => !LeftOut(exclude, shardKey)(n);
    forall n ensures Objection(n, exclude, shardKey) ==
                     if LeftOut(exclude, shardKey)(n) then Some(Why(exclude, shardKey)(n)) else None {
      ObjectionMeans(n, exclude, shardKey);
    }
    ExclusionsAre(nodes, exclude, shardKey, LeftOut(exclude, shardKey), Why(exclude, shardKey),
                  (n: Node) => Exclusion(n.nodeId, Why(exclude, shardKey)(n)));
    RemainingAre(nodes, exclude, shardKey, remains);
  }

  lemma {:induction false} ExclusionsAre(
    nodes: seq<Node>, exclude: seq<string>, shardKey: Option<int>, out: Node -> bool, why: Node -> Reason,
    report: Node -> Exclusion)
    requires forall n :: Objection(n, exclude, shardKey) == if out(n) then Some(why(n)) else None
    requires forall n :: report(n) == Exclusion(n.nodeId, why(n))
    ensures Exclusions(nodes, exclude, shardKey) == Map(Filter(nodes, out), report)
  {
    if nodes != [] {
      var front, last := nodes[..|nodes| - 1], nodes[|nodes| - 1];
      ExclusionsAre(front, exclude, shardKey, out, why, report);
      MapSnoc(Filter(front, out), last, report);
    }
  }

  lemma {:induction false} RemainingAre(
    nodes: seq<Node>, exclude: seq<string>, shardKey: Option<int>, remains: Node -> bool)
    requires forall n :: Objection(n, exclude, shardKey).None? == remains(n)
    ensures Remaining(nodes, exclude, shardKey) == Filter(nodes, remains)
  {
    if nodes != [] {
      RemainingAre(nodes[..|nodes| - 1], exclude, shardKey, remains);
    }
  }

  /** The selection, as a list, does not depend on the order of the node list. */
  lemma OrderDoesNotMatter(
    hash: Hash, cid: string, nodes: seq<Node>, shuffled: seq<Node>, factor: nat, exclude: seq<string>)
    requires Distinct(nodes, hash, cid) && Distinct(shuffled, hash, cid) && Elements(nodes) == Elements(shuffled)
    ensures Selection(hash, cid, nodes, factor, exclude) == Selection(hash, cid, shuffled, factor, exclude)
  {
    var a, b := Filter(nodes, Eligible(exclude)), Filter(shuffled, Eligible(exclude));
    assert forall x :: x in nodes <==> x in Elements(nodes);
    assert forall x :: x in shuffled <==> x in Elements(shuffled);
    assert Elements(a) == Elements(b);
    EligibleDistinct(hash, cid, nodes, exclude);
    EligibleDistinct(hash, cid, shuffled, exclude);
    SameSort(a, b, KeyOf(hash, cid));
  }

  lemma SameSort(a: seq<Node>, b: seq<Node>, h: Node -> nat)
    requires NoDup(a) && NoDup(b) && Elements(a) == Elements(b) && Injective(Elements(a), h)
    ensures Sort(a, LeqBy(h)) == Sort(b, LeqBy(h)) && |a| == |b|
  {
    var leq := LeqBy(h);
    var s, t := Sort(a, leq), Sort(b, leq);
    LeqByTotal(h);
    SortSorted(a, leq);
    SortSorted(b, leq);
    SortElements(a, leq);
    SortElements(b, leq);
    SortNoDup(a, leq);
    SortNoDup(b, leq);
    forall x, y | x in s && y in s && leq(x, y) && leq(y, x) ensures x == y {
      assert x in Elements(a) && y in Elements(a);
    }
    SortedUnique(s, t, leq);
  }

  /** Dropping a node that was not selected changes nothing. */
  lemma DroppingUnselected(
    hash: Hash, cid: string, nodes: seq<Node>, fewer: seq<Node>, z: Node, factor: nat, exclude: seq<string>)
    requires Distinct(nodes, hash, cid) && Distinct(fewer, hash, cid) && Elements(fewer) == Elements(nodes) - {z}
    requires z !in Selection(hash, cid, nodes, factor, exclude)
    ensures Elements(Selection(hash, cid, fewer, factor, exclude)) ==
            Elements(Selection(hash, cid, nodes, factor, exclude))
  {
    SelectionIsRank(hash, cid, nodes, factor, exclude);
    SelectionIsRank(hash, cid, fewer, factor, exclude);
    EligibleMinus(nodes, fewer, z, exclude);
    EligibleDistinct(hash, cid, nodes, exclude);
    assert z !in Elements(Selection(hash, cid, nodes, factor, exclude));
    TopMinus(EligibleSet(nodes, exclude), KeyOf(hash, cid), factor, z);
  }

  lemma TopMinus(all: set<Node>, h: Node -> nat, k: nat, z: Node)
    requires Injective(all, h) && z !in Top(all, h, k)
    ensures Top(all - {z}, h, k) == Top(all, h, k)
  {
    if z in all {
      DropUnselected(all, h, k, z);
    } else {
      assert all - {z} == all;
    }
  }

  lemma EligibleMinus(nodes: seq<Node>, fewer: seq<Node>, z: Node, exclude: seq<string>)
    requires Elements(fewer) == Elements(nodes) - {z}
    ensures EligibleSet(fewer, exclude) == EligibleSet(nodes, exclude) - {z}
  {
    assert forall x :: x in fewer <==> x in Elements(fewer);
    assert forall x :: x in nodes <==> x in Elements(nodes);
  }

  /** Adding a node changes the selected set by at most its own arrival and one departure. */
  lemma AddingOne(
    hash: Hash, cid: string, nodes: seq<Node>, more: seq<Node>, z: Node, factor: nat, exclude: seq<string>)
    requires Distinct(nodes, hash, cid) && Distinct(more, hash, cid) && z in more
    requires Elements(nodes) == Elements(more) - {z}
    ensures var before := Elements(Selection(hash, cid, nodes, factor, exclude));
            var after := Elements(Selection(hash, cid, more, factor, exclude));
            after - before <= {z} && |before - after| <= 1
  {
    SelectionIsRank(hash, cid, nodes, factor, exclude);
    SelectionIsRank(hash, cid, more, factor, exclude);
    EligibleMinus(more, nodes, z, exclude);
    EligibleDistinct(hash, cid, more, exclude);
    TopPlus(EligibleSet(more, exclude), KeyOf(hash, cid), factor, z);
  }

  lemma TopPlus(more: set<Node>, h: Node -> nat, k: nat, z: Node)
    requires Injective(more, h)
    ensures Top(more, h, k) - Top(more - {z}, h, k) <= {z}
    ensures |Top(more - {z}, h, k) - Top(more, h, k)| <= 1
  {
    if z in more {
      assert more - {z} + {z} == more;
      AddOne(more - {z}, h, k, z);
    } else {
      assert more - {z} == more;
    }
  }

  // ---------------------------------------------------------------- replacement

  function Ids(nodes: seq<Node>): seq<string>
  {
    Map(nodes, (n: Node) => n.nodeId)
  }

  ghost function WithIds(all: set<Node>, ids: seq<string>): set<Node>
  {
    set n | n in all && n.nodeId in ids
  }

  /** Distinct hashes make node ids distinct too. */
  lemma IdsAreKeys(hash: Hash, cid: string, all: set<Node>, a: Node, b: Node)
    requires Injective(all, KeyOf(hash, cid)) && a in all && b in all && a.nodeId == b.nodeId
    ensures a == b
  {
    assert KeyOf(hash, cid)(a) == KeyOf(hash, cid)(b);
  }

  ghost predicate HasId(all: set<Node>, id: string)
  {
    exists n :: n in all && n.nodeId == id
  }

  /** A list of ids names at most as many nodes as it is long, and as many exactly if each id names one of its own. */
  lemma {:induction false} WithIdsSize(hash: Hash, cid: string, all: set<Node>, ids: seq<string>)
    requires Injective(all, KeyOf(hash, cid))
    ensures |WithIds(all, ids)| <= |ids|
    ensures |WithIds(all, ids)| == |ids| <==> NoDup(ids) && forall id :: id in ids ==> HasId(all, id)
  {
    if ids == [] {
      assert WithIds(all, ids) == {};
    } else {
      var front, last := ids[..|ids| - 1], ids[|ids| - 1];
      assert ids == front + [last];
      WithIdsSize(hash, cid, all, front);
      OneMoreId(hash, cid, all, front, last);
    }
  }

  lemma OneMoreId(hash: Hash, cid: string, all: set<Node>, front: seq<string>, last: string)
    requires Injective(all, KeyOf(hash, cid))
    ensures |WithIds(all, front + [last])| ==
            |WithIds(all, front)| + if last !in front && HasId(all, last) then 1 else 0
  {
    if last !in front && HasId(all, last) {
      var n :| n in all && n.nodeId == last;
      assert n !in WithIds(all, front);
      forall m | m in all && m.nodeId == last ensures m == n {
        IdsAreKeys(hash, cid, all, m, n);
      }
      assert WithIds(all, front + [last]) == WithIds(all, front) + {n};
    } else {
      assert WithIds(all, front + [last]) == WithIds(all, front);
    }
  }

  function Survivors(selected: seq<Node>, failed: seq<string>): seq<Node>
  {
    Filter(selected, (n: Node) => n.nodeId !in failed)
  }

  /** Every failed id is one of the selected nodes', and none is listed twice. */
  ghost predicate OwnFailures(selected: seq<Node>, failed: seq<string>)
  {
    NoDup(failed) && forall id :: id in failed ==> id in Ids(selected)
  }

  /**
   * Replacement against reselection, for any list of failed ids. The survivors together with the replacements are
   * exactly the nodes a new selection without the failed ones would pick if and only if the failed ids are selected
   * ones and distinct, or no more eligible nodes are left than are missing.
   */
  lemma ReplacementIsReselectionIff(hash: Hash, cid: string, nodes: seq<Node>, factor: nat, failed: seq<string>)
    requires Distinct(nodes, hash, cid)
    ensures var selected := Selection(hash, cid, nodes, factor, []);
            var survivors := Survivors(selected, failed);
            Elements(survivors) + Elements(Replacements(hash, cid, nodes, factor, Ids(selected), failed)) ==
            Elements(Selection(hash, cid, nodes, factor, failed)) <==>
            OwnFailures(selected, failed) ||
            |EligibleSet(nodes, Ids(selected) + failed)| <= factor - |survivors|
  {
    var selected := Selection(hash, cid, nodes, factor, []);
    ReplacementAsSets(hash, cid, nodes, factor, failed);
    LostSize(hash, cid, selected, failed);
    FilledIff(EligibleSet(nodes, []), KeyOf(hash, cid), factor, EligibleSet(nodes, failed),
              Elements(Survivors(selected, failed)), EligibleSet(nodes, Ids(selected) + failed),
              factor - (|selected| - |failed|), OwnFailures(selected, failed),
              Elements(Replacements(hash, cid, nodes, factor, Ids(selected), failed)),
              Elements(Selection(hash, cid, nodes, factor, failed)));
  }

  lemma FilledIff(
    all: set<Node>, h: Node -> nat, k: nat, kept: set<Node>, survivors: set<Node>, rest: set<Node>, asked: int,
    own: bool, filled: set<Node>, reselected: set<Node>)
    requires Injective(all, h) && kept <= all && survivors == Top(all, h, k) * kept && rest == kept - survivors
    requires asked >= k - |survivors| && (asked == k - |survivors| <==> own)
    requires filled == Top(rest, h, asked) && reselected == Top(kept, h, k)
    ensures survivors + filled == reselected <==> own || |rest| <= k - |survivors|
  {
    FillIff(all, h, k, kept, asked);
  }

  lemma ReplacementAsSets(hash: Hash, cid: string, nodes: seq<Node>, factor: nat, failed: seq<string>)
    requires Distinct(nodes, hash, cid)
    ensures var selected, h := Selection(hash, cid, nodes, factor, []), KeyOf(hash, cid);
            var all, kept, survivors := EligibleSet(nodes, []), EligibleSet(nodes, failed),
                Elements(Survivors(selected, failed));
            && Injective(all, h) && kept <= all && survivors == Top(all, h, factor) * kept
            && NoDup(selected) && Injective(Elements(selected), h)
            && EligibleSet(nodes, Ids(selected) + failed) == kept - survivors
            && Elements(Replacements(hash, cid, nodes, factor, Ids(selected), failed)) ==
               Top(kept - survivors, h, factor - (|selected| - |failed|))
            && Elements(Selection(hash, cid, nodes, factor, failed)) == Top(kept, h, factor)
  {
    var selected := Selection(hash, cid, nodes, factor, []);
    EligibleDistinct(hash, cid, nodes, []);
    SelectionIsRank(hash, cid, nodes, factor, []);
    SelectionIsRank(hash, cid, nodes, factor, failed);
    EligibleWithout(hash, cid, nodes, selected, failed);
    ReplacementsAreTop(hash, cid, nodes, factor, selected, failed);
  }

  /**
   * If `current` is the selection for a CID and `failed` are some of its nodes, the survivors together with the
   * replacements are exactly the nodes a new selection without the failed ones would pick, also when fewer nodes than
   * the replication factor are eligible.
   */
  lemma ReplacementIsReselection(hash: Hash, cid: string, nodes: seq<Node>, factor: nat, failed: seq<string>)
    requires Distinct(nodes, hash, cid) && NoDup(failed)
    requires forall id :: id in failed ==> id in Ids(Selection(hash, cid, nodes, factor, []))
    ensures var selected := Selection(hash, cid, nodes, factor, []);
            Elements(Survivors(selected, failed)) +
            Elements(Replacements(hash, cid, nodes, factor, Ids(selected), failed)) ==
            Elements(Selection(hash, cid, nodes, factor, failed))
  {
    ReplacementIsReselectionIff(hash, cid, nodes, factor, failed);
  }

  lemma ReplacementsAreTop(
    hash: Hash, cid: string, nodes: seq<Node>, factor: nat, selected: seq<Node>, failed: seq<string>)
    requires Distinct(nodes, hash, cid)
    ensures Elements(Replacements(hash, cid, nodes, factor, Ids(selected), failed)) ==
            Top(EligibleSet(nodes, Ids(selected) + failed), KeyOf(hash, cid), factor - (|selected| - |failed|))
  {
    var needed := factor - (|selected| - |failed|);
    if needed > 0 {
      SelectionIsRank(hash, cid, nodes, needed, Ids(selected) + failed);
    }
  }

  /** No more nodes are lost than ids have failed, and as many exactly if the failures are the selection's own. */
  lemma LostSize(hash: Hash, cid: string, selected: seq<Node>, failed: seq<string>)
    requires NoDup(selected) && Injective(Elements(selected), KeyOf(hash, cid))
    ensures |Elements(Survivors(selected, failed))| == |Survivors(selected, failed)| >= |selected| - |failed|
    ensures |Survivors(selected, failed)| == |selected| - |failed| <==> OwnFailures(selected, failed)
  {
    var all, lost := Elements(selected), WithIds(Elements(selected), failed);
    forall id ensures HasId(all, id) <==> id in Ids(selected) {
      if id in Ids(selected) {
        var i :| 0 <= i < |Ids(selected)| && Ids(selected)[i] == id;
        assert selected[i] in all;
      }
      if HasId(all, id) {
        var n :| n in all && n.nodeId == id;
        var i :| 0 <= i < |selected| && selected[i] == n;
        assert Ids(selected)[i] == id;
      }
    }
    WithIdsSize(hash, cid, all, failed);
    FilterNoDup(selected, (n: Node) => n.nodeId !in failed);
    NoDupSize(selected);
    NoDupSize(Survivors(selected, failed));
    assert all == Elements(Survivors(selected, failed)) + lost;
  }

  /**
   * Excluding failed ids leaves the survivors of the selection, and excluding the selection as well leaves the
   * others.
   */
  lemma EligibleWithout(hash: Hash, cid: string, nodes: seq<Node>, selected: seq<Node>, failed: seq<string>)
    requires Distinct(nodes, hash, cid) && Elements(selected) <= EligibleSet(nodes, [])
    ensures var kept, survivors := EligibleSet(nodes, failed), Elements(Survivors(selected, failed));
            && kept <= EligibleSet(nodes, []) && survivors == Elements(selected) * kept
            && EligibleSet(nodes, Ids(selected) + failed) == kept - survivors
  {
    var all := EligibleSet(nodes, []);
    EligibleDistinct(hash, cid, nodes, []);
    forall n | n in all ensures n.nodeId in Ids(selected) <==> n in selected {
      SelectedById(hash, cid, all, selected, n);
    }
    forall n ensures n in EligibleSet(nodes, failed) <==> n in all && n.nodeId !in failed {
    }
    forall n ensures n in EligibleSet(nodes, Ids(selected) + failed) <==>
                     n in all && n.nodeId !in Ids(selected) && n.nodeId !in failed {
    }
    forall n | n in selected ensures n in all {
      assert n in Elements(selected);
    }
  }

  lemma SelectedById(hash: Hash, cid: string, all: set<Node>, selected: seq<Node>, n: Node)
    requires Injective(all, KeyOf(hash, cid)) && Elements(selected) <= all && n in all
    ensures n.nodeId in Ids(selected) <==> n in selected
  {
    if n in selected {
      var i :| 0 <= i < |selected| && selected[i] == n;
      assert Ids(selected)[i] == n.nodeId;
    }
    if n.nodeId in Ids(selected) {
      var i :| 0 <= i < |Ids(selected)| && Ids(selected)[i] == n.nodeId;
      assert selected[i] in Elements(selected);
      IdsAreKeys(hash, cid, all, n, selected[i]);
    }
  }

  /**
   * The arithmetic relies on the failed nodes being current ones: told of a failed node outside the selection, it adds
   * a replacement although nothing was lost.
   */
  lemma ForeignFailureOverReplicates(hash: Hash, a: Node, b: Node, c: Node)
    requires a.nodeId != b.nodeId && b.nodeId != c.nodeId && a.nodeId != c.nodeId && !LowScore(a) && !LowScore(b)
    requires hash("x", a.nodeId) < hash("x", b.nodeId)
    ensures Selection(hash, "x", [a, b], 1, []) == [a]
    ensures Replacements(hash, "x", [a, b], 1, [a.nodeId], [c.nodeId]) == [b]
  {
    SelectsLower(hash, a, b);
    SelectsOther(hash, a, b, c);
  }

  lemma SelectsLower(hash: Hash, a: Node, b: Node)
    requires !LowScore(a) && !LowScore(b) && hash("x", a.nodeId) < hash("x", b.nodeId)
    ensures Selection(hash, "x", [a, b], 1, []) == [a]
  {
    FilterPair(a, b, Eligible([]));
    FirstOfPair(a, b, KeyOf(hash, "x"));
  }

  lemma SelectsOther(hash: Hash, a: Node, b: Node, c: Node)
    requires a.nodeId != b.nodeId && b.nodeId != c.nodeId && !LowScore(b)
    ensures Replacements(hash, "x", [a, b], 1, [a.nodeId], [c.nodeId]) == [b]
  {
    FilterPair(a, b, Eligible([a.nodeId] + [c.nodeId]));
    FirstOfOne(b, KeyOf(hash, "x"));
  }

  lemma FirstOfPair(a: Node, b: Node, key: Node -> nat)
    requires key(a) < key(b)
    ensures Sort([a, b], LeqBy(key))[..1] == [a]
  {
    SortFixed([a, b], LeqBy(key));
  }

  lemma FirstOfOne(b: Node, key: Node -> nat)
    ensures Sort([b], LeqBy(key))[..1] == [b]
  {
    SortFixed([b], LeqBy(key));
  }

  lemma FilterPair(a: Node, b: Node, p: Node -> bool)
    ensures Filter([a, b], p) == if p(a) then if p(b) then [a, b] else [a] else if p(b) then [b] else []
  {
    FilterOne(a, p);
    FilterSnoc([a], b, p);
    assert [a, b] == [a] + [b];
  }

  lemma FilterOne(a: Node, p: Node -> bool)
    ensures Filter([a], p) == if p(a) then [a] else []
  {
    assert [a] == [] + [a];
    FilterSnoc([], a, p);
  }
}
