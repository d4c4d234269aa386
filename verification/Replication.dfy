/**
 * The retry state machine of replication (src/services/replication-manager.service.ts). Whether a node accepts a blob
 * is a parameter of each round.
 */
module Replication {
  import opened Sequences
  import opened Rendezvous
  import opened NodeSelection

  type Accepts = Node -> bool

  function Rejects(accepts: Accepts): Accepts
  {
    (n: Node) => !accepts(n)
  }

  datatype State = State(
    cid: string, replicationFactor: nat, targetNodes: seq<string>, confirmedNodes: seq<string>,
    failedNodes: seq<string>, complete: bool)

  datatype NodeStatus = Confirmed | Failed | Pending

  datatype Status = Status(
    cid: string, expectedReplicas: nat, actualReplicas: nat, nodes: seq<(string, NodeStatus)>, complete: bool)

  /** `if (!list.includes(id)) list.push(id)`. */
  function Include(list: seq<string>, id: string): seq<string>
  {
    if id in list then list else list + [id]
  }

  function ConfirmedAfter(selected: seq<Node>, accepts: Accepts): seq<string>
  {
    if selected == [] then []
    else
      var last, front := selected[|selected| - 1], ConfirmedAfter(selected[..|selected| - 1], accepts);
      if accepts(last) then Include(front, last.nodeId) else front
  }

  function FailedAfter(selected: seq<Node>, accepts: Accepts, failedBefore: seq<string>): seq<string>
  {
    if selected == [] then failedBefore
    else
      var last, front := selected[|selected| - 1], FailedAfter(selected[..|selected| - 1], accepts, failedBefore);
      if accepts(last) then front else Include(front, last.nodeId)
  }

  function FailedSoFar(existing: Option<State>): seq<string>
  {
    if existing.Some? then existing.value.failedNodes else []
  }

  /** One `startReplication`: a complete state is left alone, otherwise a new round is made without the failed nodes. */
  function Start(hash: Hash, existing: Option<State>, cid: string, nodes: seq<Node>, factor: nat, accepts: Accepts)
    : State
  {
    if existing.Some? && existing.value.complete then existing.value
    else
      var failed := FailedSoFar(existing);
      RoundOf(cid, Selection(hash, cid, nodes, factor, failed), factor, accepts, failed)
  }

  /** The state after the selected nodes have answered. */
  function RoundOf(cid: string, selected: seq<Node>, factor: nat, accepts: Accepts, failed: seq<string>): State
  {
    var confirmed := ConfirmedAfter(selected, accepts);
    State(cid, factor, Ids(selected), confirmed, FailedAfter(selected, accepts, failed), |confirmed| >= factor)
  }

  /** `trackReplication` replaces whatever was known. */
  function Track(cid: string, peers: seq<string>, factor: nat): State
  {
    State(cid, factor, peers, peers, [], |peers| >= factor)
  }

  function StatusOf(s: State, nodeId: string): NodeStatus
  {
    if nodeId in s.confirmedNodes then Confirmed else if nodeId in s.failedNodes then Failed else Pending
  }

  /** `getReplicationStatus` for a known state. */
  function StatusFor(s: State): Status
  {
    Status(s.cid, s.replicationFactor, |s.confirmedNodes|, Map(s.targetNodes, (id: string) => (id, StatusOf(s, id))),
           s.complete)
  }

  class ReplicationManager {
    var states: map<string, State>
    const replicationFactor: nat
    const hash: Hash

    constructor (replicationFactor: nat, hash: Hash)
      ensures states == map[] && this.replicationFactor == replicationFactor && this.hash == hash
    {
      states := map[];
      this.replicationFactor := replicationFactor;
      this.hash := hash;
    }

    function Existing(cid: string): Option<State>
      reads this
    {
      if cid in states then Some(states[cid]) else None
    }

    method StartReplication(cid: string, availableNodes: seq<Node>, accepts: Accepts) returns (status: Status)
      modifies this
      ensures states ==
              old(states)[cid := Start(hash, old(Existing(cid)), cid, availableNodes, replicationFactor, accepts)]
      ensures status == ReplicationStatus(cid)
      ensures old(cid in states && states[cid].complete) ==> states == old(states)
    {
      var existing := Existing(cid);
      if existing.Some? && existing.value.complete {
        assert states[cid := existing.value] == states;
        return ReplicationStatus(cid);
      }
      var selected, excluded :=
        SelectNodesForReplication(hash, cid, availableNodes, replicationFactor, FailedSoFar(existing));
      var state := State(cid, replicationFactor, Ids(selected), [], FailedSoFar(existing), false);
      states := states[cid := state];
      ReplicateToNodes(cid, selected, accepts);
      status := ReplicationStatus(cid);
    }

    /** The answers of all nodes, taken in the order of the selection. */
    method ReplicateToNodes(cid: string, nodes: seq<Node>, accepts: Accepts)
      requires cid in states
      requires states[cid] == State(cid, replicationFactor, Ids(nodes), [], states[cid].failedNodes, false)
      modifies this
      ensures states ==
              old(states)[cid := RoundOf(cid, nodes, replicationFactor, accepts, old(states[cid].failedNodes))]
    {
      var state := states[cid];
      ghost var before := state;
      for index := 0 to |nodes|
        invariant state == before.(confirmedNodes := ConfirmedAfter(nodes[..index], accepts),
                                   failedNodes := FailedAfter(nodes[..index], accepts, before.failedNodes))
      {
        assert nodes[..index + 1][..index] == nodes[..index];
        var node := nodes[index];
        if accepts(node) {
          if node.nodeId !in state.confirmedNodes {
            state := state.(confirmedNodes := state.confirmedNodes + [node.nodeId]);
          }
        } else {
          if node.nodeId !in state.failedNodes {
            state := state.(failedNodes := state.failedNodes + [node.nodeId]);
          }
        }
      }
      assert nodes[..|nodes|] == nodes;
      state := state.(complete := |state.confirmedNodes| >= state.replicationFactor);
      states := states[cid := state];
    }

    /** `getReplicationStatus`. */
    function ReplicationStatus(cid: string): Status
      reads this
    {
      if cid !in states then Status(cid, replicationFactor, 0, [], false) else StatusFor(states[cid]).(cid := cid)
    }

    method TrackReplication(cid: string, successfulPeers: seq<string>)
      modifies this
      ensures states == old(states)[cid := Track(cid, successfulPeers, replicationFactor)]
    {
      var complete := |successfulPeers| >= replicationFactor;
      states := states[cid := State(cid, replicationFactor, successfulPeers, successfulPeers, [], complete)];
    }
  }

  /** A tracked replication is reported as it was told: all peers confirmed, and complete if they are enough. */
  lemma TrackedIsReported(cid: string, peers: seq<string>, factor: nat)
    ensures StatusFor(Track(cid, peers, factor)) ==
            Status(cid, factor, |peers|, Map(peers, (id: string) => (id, Confirmed)), |peers| >= factor)
    ensures Track(cid, peers, factor).failedNodes == []
  {
    assert forall id :: id in peers ==> StatusOf(Track(cid, peers, factor), id) == Confirmed;
  }

  // ---------------------------------------------------------------- one round

  ghost predicate DistinctIds(nodes: seq<Node>)
  {
    forall i, j :: 0 <= i < j < |nodes| ==> nodes[i].nodeId != nodes[j].nodeId
  }

  lemma SameId(nodes: seq<Node>, a: Node, b: Node)
    requires DistinctIds(nodes) && a in nodes && b in nodes && a.nodeId == b.nodeId
    ensures a == b
  {
  }

  /** A selection takes distinct eligible nodes from the list, and no more than asked for. */
  lemma SelectionWithin(hash: Hash, cid: string, nodes: seq<Node>, factor: nat, exclude: seq<string>)
    requires DistinctIds(nodes)
    ensures var selected := Selection(hash, cid, nodes, factor, exclude);
            && (forall n :: n in selected ==> n in nodes && Eligible(exclude)(n))
            && DistinctIds(selected)
            && |selected| ==
               if factor < |Filter(nodes, Eligible(exclude))| then factor else |Filter(nodes, Eligible(exclude))|
  {
    var eligible := Filter(nodes, Eligible(exclude));
    var sorted := Sort(eligible, LeqBy(KeyOf(hash, cid)));
    FilterNoDup(nodes, Eligible(exclude));
    SortNoDup(eligible, LeqBy(KeyOf(hash, cid)));
    SortElements(eligible, LeqBy(KeyOf(hash, cid)));
    var selected := Selection(hash, cid, nodes, factor, exclude);
    assert forall n :: n in selected ==> n in sorted;
    forall i, j | 0 <= i < j < |selected| ensures selected[i].nodeId != selected[j].nodeId {
      assert selected[i] == sorted[i] && selected[j] == sorted[j] && sorted[i] in sorted && sorted[j] in sorted;
      if selected[i].nodeId == selected[j].nodeId {
        SameId(nodes, selected[i], selected[j]);
      }
    }
  }

  /** With distinct ids a round records every node it asked exactly once, by its answer. */
  lemma {:induction false} RoundRecords(selected: seq<Node>, accepts: Accepts, failed: seq<string>)
    requires DistinctIds(selected) && forall n :: n in selected ==> n.nodeId !in failed
    ensures ConfirmedAfter(selected, accepts) == Ids(Filter(selected, accepts))
    ensures FailedAfter(selected, accepts, failed) == failed + Ids(Filter(selected, Rejects(accepts)))
  {
    if selected == [] {
      assert failed + [] == failed;
    } else {
      var front, last := selected[..|selected| - 1], selected[|selected| - 1];
      assert front + [last] == selected && last in selected;
      RoundRecords(front, accepts, failed);
      NotRecorded(front, last, accepts);
      NotRecorded(front, last, Rejects(accepts));
      IdsSnoc(Filter(front, accepts), last);
      IdsSnoc(Filter(front, Rejects(accepts)), last);
    }
  }

  /** Whatever the list of nodes, also with ids repeated, nobody is recorded twice. */
  lemma {:induction false} RecordedOnce(selected: seq<Node>, accepts: Accepts, failed: seq<string>)
    requires NoDup(failed)
    ensures var confirmed, failedNow := ConfirmedAfter(selected, accepts), FailedAfter(selected, accepts, failed);
            && NoDup(confirmed) && NoDup(failedNow)
            && (forall id :: id in confirmed <==> exists n :: n in selected && n.nodeId == id && accepts(n))
            && (forall id :: id in failedNow <==>
                               id in failed || exists n :: n in selected && n.nodeId == id && !accepts(n))
  {
    if selected != [] {
      assert selected == selected[..|selected| - 1] + [selected[|selected| - 1]];
      RecordedOnce(selected[..|selected| - 1], accepts, failed);
    }
  }

  lemma IdsSnoc(nodes: seq<Node>, n: Node)
    ensures Ids(nodes + [n]) == Ids(nodes) + [n.nodeId]
  {
  }

  lemma NotRecorded(front: seq<Node>, last: Node, p: Node -> bool)
    requires DistinctIds(front + [last])
    ensures last.nodeId !in Ids(Filter(front, p))
  {
    forall n | n in front ensures n.nodeId != last.nodeId {
      var k :| 0 <= k < |front| && front[k] == n;
      assert (front + [last])[k].nodeId != (front + [last])[|front|].nodeId;
    }
    var ids := Ids(Filter(front, p));
    assert forall i :: 0 <= i < |ids| ==> ids[i] == Filter(front, p)[i].nodeId && Filter(front, p)[i] in front;
  }

  // ---------------------------------------------------------------- what every state keeps

  /** What holds of every state, however it came about. */
  ghost predicate Good(s: State, factor: nat)
  {
    && s.replicationFactor == factor
    && (s.complete <==> |s.confirmedNodes| >= factor)
    && (forall id :: id in s.confirmedNodes ==> id in s.targetNodes && id !in s.failedNodes)
    && (forall id :: id in s.targetNodes ==> StatusOf(s, id) != Pending)
  }

  lemma IdIn(nodes: seq<Node>, n: Node)
    requires n in nodes
    ensures n.nodeId in Ids(nodes)
  {
    var i :| 0 <= i < |nodes| && nodes[i] == n;
    assert Ids(nodes)[i] == n.nodeId;
  }

  lemma NodeWithId(nodes: seq<Node>, id: string) returns (n: Node)
    requires id in Ids(nodes)
    ensures n in nodes && n.nodeId == id
  {
    var i :| 0 <= i < |Ids(nodes)| && Ids(nodes)[i] == id;
    n := nodes[i];
  }

  lemma AskedRoundIsGood(cid: string, selected: seq<Node>, factor: nat, accepts: Accepts, failed: seq<string>)
    requires DistinctIds(selected) && |selected| <= factor && forall n :: n in selected ==> n.nodeId !in failed
    ensures var s := RoundOf(cid, selected, factor, accepts, failed);
            Good(s, factor) && |s.confirmedNodes| <= factor
  {
    RoundRecords(selected, accepts, failed);
    var s := RoundOf(cid, selected, factor, accepts, failed);
    forall id | id in s.confirmedNodes ensures id in s.targetNodes && id !in s.failedNodes {
      ConfirmedNotFailed(selected, accepts, failed, id);
    }
    forall id | id in s.targetNodes ensures StatusOf(s, id) != Pending {
      var n := NodeWithId(selected, id);
      IdIn(if accepts(n) then Filter(selected, accepts) else Filter(selected, Rejects(accepts)), n);
    }
  }

  /** The answers of a round as a status reports them. */
  function Reported(accepts: Accepts): Node -> (string, NodeStatus)
  {
    (n: Node) => (n.nodeId, if accepts(n) then Confirmed else Failed)
  }

  /** After a round the status reports every node asked, in order, by its answer, and counts the acceptances. */
  lemma StatusTellsAnswers(cid: string, selected: seq<Node>, factor: nat, accepts: Accepts, failed: seq<string>)
    requires DistinctIds(selected) && forall n :: n in selected ==> n.nodeId !in failed
    ensures var status := StatusFor(RoundOf(cid, selected, factor, accepts, failed));
            && status.nodes == Map(selected, Reported(accepts))
            && status.expectedReplicas == factor && status.actualReplicas == |Filter(selected, accepts)|
            && (status.complete <==> |Filter(selected, accepts)| >= factor)
  {
    var s := RoundOf(cid, selected, factor, accepts, failed);
    RoundRecords(selected, accepts, failed);
    forall i | 0 <= i < |selected| ensures StatusOf(s, selected[i].nodeId) == Reported(accepts)(selected[i]).1 {
      var n := selected[i];
      if accepts(n) {
        IdIn(Filter(selected, accepts), n);
      } else {
        IdIn(Filter(selected, Rejects(accepts)), n);
        NotConfirmed(selected, accepts, n);
      }
    }
  }

  lemma NotConfirmed(selected: seq<Node>, accepts: Accepts, n: Node)
    requires DistinctIds(selected) && n in selected && !accepts(n)
    ensures n.nodeId !in Ids(Filter(selected, accepts))
  {
    if n.nodeId in Ids(Filter(selected, accepts)) {
      var other := NodeWithId(Filter(selected, accepts), n.nodeId);
      SameId(selected, n, other);
    }
  }

  /** A round leaves a good state that confirms no more nodes than the factor. */
  lemma RoundIsGood(hash: Hash, existing: Option<State>, cid: string, nodes: seq<Node>, factor: nat, accepts: Accepts)
    requires DistinctIds(nodes) && (existing.Some? ==> !existing.value.complete)
    ensures var s := Start(hash, existing, cid, nodes, factor, accepts);
            Good(s, factor) && |s.confirmedNodes| <= factor
  {
    var failed := FailedSoFar(existing);
    SelectionWithin(hash, cid, nodes, factor, failed);
    AskedRoundIsGood(cid, Selection(hash, cid, nodes, factor, failed), factor, accepts, failed);
  }

  lemma ConfirmedNotFailed(selected: seq<Node>, accepts: Accepts, failed: seq<string>, id: string)
    requires DistinctIds(selected) && forall n :: n in selected ==> n.nodeId !in failed
    requires id in Ids(Filter(selected, accepts))
    ensures id in Ids(selected) && id !in failed + Ids(Filter(selected, Rejects(accepts)))
  {
    var n := NodeWithId(Filter(selected, accepts), id);
    IdIn(selected, n);
    if id in Ids(Filter(selected, Rejects(accepts))) {
      var m := NodeWithId(Filter(selected, Rejects(accepts)), id);
      SameId(selected, n, m);
    }
  }

  datatype Op = StartOp(cid: string, nodes: seq<Node>, accepts: Accepts) | TrackOp(cid: string, peers: seq<string>)

  ghost function Step(hash: Hash, factor: nat, states: map<string, State>, op: Op): map<string, State>
  {
    match op
    case StartOp(cid, nodes, accepts) =>
      states[cid := Start(hash, if cid in states then Some(states[cid]) else None, cid, nodes, factor, accepts)]
    case TrackOp(cid, peers) => states[cid := Track(cid, peers, factor)]
  }

  ghost function Run(hash: Hash, factor: nat, ops: seq<Op>): map<string, State>
  {
    if ops == [] then map[] else Step(hash, factor, Run(hash, factor, ops[..|ops| - 1]), ops[|ops| - 1])
  }

  ghost predicate Plain(ops: seq<Op>)
  {
    forall op :: op in ops && op.StartOp? ==> DistinctIds(op.nodes)
  }

  /**
   * After every run of rounds and externally tracked replications each state is good; without tracked ones no state
   * confirms more nodes than the factor.
   */
  lemma {:induction false} RunKeepsGood(hash: Hash, factor: nat, ops: seq<Op>, cid: string)
    requires Plain(ops) && cid in Run(hash, factor, ops)
    ensures Good(Run(hash, factor, ops)[cid], factor)
    ensures (forall op :: op in ops ==> op.StartOp?) ==> |Run(hash, factor, ops)[cid].confirmedNodes| <= factor
  {
    var front, op := ops[..|ops| - 1], ops[|ops| - 1];
    assert ops == front + [op];
    var before := Run(hash, factor, front);
    if cid in before {
      RunKeepsGood(hash, factor, front, cid);
    }
    if op.StartOp? && op.cid == cid && !(cid in before && before[cid].complete) {
      RoundIsGood(hash, if cid in before then Some(before[cid]) else None, cid, op.nodes, factor, op.accepts);
    }
  }

  // ---------------------------------------------------------------- retries

  /** The state after one round for each answer function, over a fixed list of nodes. */
  ghost function Retry(hash: Hash, cid: string, nodes: seq<Node>, factor: nat, rounds: seq<Accepts>): Option<State>
  {
    if rounds == [] then None
    else Some(Start(hash, Retry(hash, cid, nodes, factor, rounds[..|rounds| - 1]), cid, nodes, factor,
                    rounds[|rounds| - 1]))
  }

  /** Every node with an acceptable score, asked or not. */
  ghost function Candidates(nodes: seq<Node>): set<Node>
  {
    EligibleSet(nodes, [])
  }

  ghost predicate AlwaysAccept(good: set<Node>, rounds: seq<Accepts>)
  {
    forall n, r :: n in good && 0 <= r < |rounds| ==> rounds[r](n)
  }

  /** The ids in `failed` are distinct and belong to candidates outside `good`. */
  ghost predicate FailedOutside(failed: seq<string>, nodes: seq<Node>, good: set<Node>)
  {
    NoDup(failed) && forall id :: id in failed ==> HasId(Candidates(nodes) - good, id)
  }

  /** An incomplete round over enough good nodes adds a node that had not failed before, and none of the good ones. */
  lemma IncompleteRoundProgress(
    hash: Hash, existing: Option<State>, cid: string, nodes: seq<Node>, factor: nat, accepts: Accepts, good: set<Node>)
    requires DistinctIds(nodes) && good <= Candidates(nodes) && |good| >= factor
    requires existing.Some? ==> !existing.value.complete
    requires forall n :: n in good ==> accepts(n)
    requires FailedOutside(FailedSoFar(existing), nodes, good)
    requires !Start(hash, existing, cid, nodes, factor, accepts).complete
    ensures var after := Start(hash, existing, cid, nodes, factor, accepts).failedNodes;
            FailedOutside(after, nodes, good) && |after| > |FailedSoFar(existing)|
  {
    var failed := FailedSoFar(existing);
    SelectionWithin(hash, cid, nodes, factor, failed);
    EnoughEligible(nodes, failed, good);
    AskedRoundProgress(cid, nodes, Selection(hash, cid, nodes, factor, failed), factor, accepts, failed, good);
  }

  lemma AskedRoundProgress(
    cid: string, nodes: seq<Node>, selected: seq<Node>, factor: nat, accepts: Accepts, failed: seq<string>,
    good: set<Node>)
    requires DistinctIds(selected) && |selected| == factor
    requires forall n :: n in selected ==> n in nodes && Eligible(failed)(n)
    requires (forall n :: n in good ==> accepts(n)) && FailedOutside(failed, nodes, good)
    requires !RoundOf(cid, selected, factor, accepts, failed).complete
    ensures var after := RoundOf(cid, selected, factor, accepts, failed).failedNodes;
            FailedOutside(after, nodes, good) && |after| > |failed|
  {
    RoundRecords(selected, accepts, failed);
    FilterSplit(selected, accepts, Rejects(accepts));
    FilterNoDup(selected, Rejects(accepts));
    NewFailures(nodes, failed, good, selected, Filter(selected, Rejects(accepts)));
  }

  lemma EnoughEligible(nodes: seq<Node>, failed: seq<string>, good: set<Node>)
    requires DistinctIds(nodes) && good <= Candidates(nodes) && FailedOutside(failed, nodes, good)
    ensures |Filter(nodes, Eligible(failed))| >= |good|
  {
    forall n | n in good ensures n in Elements(Filter(nodes, Eligible(failed))) {
      GoodNotFailed(nodes, failed, good, n);
    }
    FilterNoDup(nodes, Eligible(failed));
    NoDupSize(Filter(nodes, Eligible(failed)));
    SubsetSize(good, Elements(Filter(nodes, Eligible(failed))));
  }

  lemma GoodNotFailed(nodes: seq<Node>, failed: seq<string>, good: set<Node>, n: Node)
    requires DistinctIds(nodes) && good <= Candidates(nodes) && FailedOutside(failed, nodes, good) && n in good
    ensures n.nodeId !in failed
  {
    forall m | m in Candidates(nodes) - good ensures m.nodeId != n.nodeId {
      assert m in nodes && n in nodes;
    }
  }

  lemma NewFailures(nodes: seq<Node>, failed: seq<string>, good: set<Node>, selected: seq<Node>, rejecting: seq<Node>)
    requires FailedOutside(failed, nodes, good) && DistinctIds(selected)
    requires forall n :: n in selected ==> n in nodes && Eligible(failed)(n)
    requires NoDup(rejecting) && forall n :: n in rejecting ==> n in selected && n !in good
    ensures FailedOutside(failed + Ids(rejecting), nodes, good)
  {
    var after := failed + Ids(rejecting);
    forall id | id in Ids(rejecting) ensures id !in failed && HasId(Candidates(nodes) - good, id) {
      var n := NodeWithId(rejecting, id);
      assert n in Candidates(nodes) - good;
    }
    forall i, j | 0 <= i < j < |rejecting| ensures rejecting[i].nodeId != rejecting[j].nodeId {
      assert rejecting[i] in rejecting && rejecting[j] in rejecting;
      if rejecting[i].nodeId == rejecting[j].nodeId {
        SameId(selected, rejecting[i], rejecting[j]);
      }
    }
    forall i, j | 0 <= i < j < |after| ensures after[i] != after[j] {
      if i < |failed| <= j {
        assert after[j] in Ids(rejecting) && after[i] in failed;
      }
    }
  }

  /** As long as it is incomplete, every round has failed a node of its own. */
  lemma {:induction false} RetryProgress(
    hash: Hash, cid: string, nodes: seq<Node>, factor: nat, rounds: seq<Accepts>, good: set<Node>)
    requires DistinctIds(nodes) && good <= Candidates(nodes) && |good| >= factor && AlwaysAccept(good, rounds)
    requires var s := Retry(hash, cid, nodes, factor, rounds); s.Some? ==> !s.value.complete
    ensures var failed := FailedSoFar(Retry(hash, cid, nodes, factor, rounds));
            FailedOutside(failed, nodes, good) && |failed| >= |rounds|
  {
    if rounds != [] {
      var front, accepts := rounds[..|rounds| - 1], rounds[|rounds| - 1];
      RetryProgress(hash, cid, nodes, factor, front, good);
      IncompleteRoundProgress(hash, Retry(hash, cid, nodes, factor, front), cid, nodes, factor, accepts, good);
    }
  }

  /**
   * If at least `factor` candidates always accept, replication is complete after at most one round more than there are
   * other candidates, whatever those answer in which round.
   */
  lemma RetriesComplete(hash: Hash, cid: string, nodes: seq<Node>, factor: nat, rounds: seq<Accepts>, good: set<Node>)
    requires DistinctIds(nodes) && good <= Candidates(nodes) && |good| >= factor && AlwaysAccept(good, rounds)
    requires |rounds| > |Candidates(nodes) - good|
    ensures Retry(hash, cid, nodes, factor, rounds).value.complete
  {
    var s := Retry(hash, cid, nodes, factor, rounds);
    if !s.value.complete {
      RetryProgress(hash, cid, nodes, factor, rounds, good);
      FailedCount(s.value.failedNodes, Candidates(nodes) - good);
    }
  }

  lemma {:induction false} FailedCount(ids: seq<string>, nodes: set<Node>)
    requires NoDup(ids) && forall id :: id in ids ==> HasId(nodes, id)
    ensures |ids| <= |nodes|
  {
    if ids != [] {
      var front, last := ids[..|ids| - 1], ids[|ids| - 1];
      assert ids == front + [last];
      assert HasId(nodes, last);
      var n :| n in nodes && n.nodeId == last;
      forall id | id in front ensures HasId(nodes - {n}, id) {
        assert HasId(nodes, id);
        var m :| m in nodes && m.nodeId == id;
        assert m != n;
      }
      FailedCount(front, nodes - {n});
    }
  }

  // ---------------------------------------------------------------- where retries end

  /** Nodes that always answer in the same way. */
  ghost function Same(accepts: Accepts, n: nat): (r: seq<Accepts>)
    ensures |r| == n && forall i :: 0 <= i < n ==> r[i] == accepts
  {
    seq(n, _ => accepts)
  }

  ghost function Willing(nodes: seq<Node>, accepts: Accepts): set<Node>
  {
    set n | n in Candidates(nodes) && accepts(n)
  }

  /** No willing node is among the ids. */
  ghost predicate Spared(nodes: seq<Node>, accepts: Accepts, ids: seq<string>)
  {
    forall m :: m in Willing(nodes, accepts) ==> m.nodeId !in ids
  }

  /** The state is the outcome of a round that left out only unwilling nodes. */
  ghost predicate SteadyState(hash: Hash, cid: string, nodes: seq<Node>, factor: nat, accepts: Accepts, s: State)
  {
    exists failed :: Spared(nodes, accepts, failed) &&
                     s == RoundOf(cid, Selection(hash, cid, nodes, factor, failed), factor, accepts, failed)
  }

  lemma RoundSpares(
    cid: string, nodes: seq<Node>, selected: seq<Node>, factor: nat, accepts: Accepts, failed: seq<string>)
    requires DistinctIds(nodes) && DistinctIds(selected)
    requires forall n :: n in selected ==> n in nodes && Eligible(failed)(n)
    requires Spared(nodes, accepts, failed)
    ensures Spared(nodes, accepts, RoundOf(cid, selected, factor, accepts, failed).failedNodes)
  {
    RoundRecords(selected, accepts, failed);
    forall m | m in Willing(nodes, accepts) ensures m.nodeId !in Ids(Filter(selected, Rejects(accepts))) {
      if m.nodeId in Ids(Filter(selected, Rejects(accepts))) {
        var r := NodeWithId(Filter(selected, Rejects(accepts)), m.nodeId);
        SameId(nodes, m, r);
      }
    }
  }

  lemma RetryOnce(hash: Hash, cid: string, nodes: seq<Node>, factor: nat, accepts: Accepts, n: nat)
    requires n > 0
    ensures Retry(hash, cid, nodes, factor, Same(accepts, n)) ==
            Some(Start(hash, Retry(hash, cid, nodes, factor, Same(accepts, n - 1)), cid, nodes, factor, accepts))
    ensures Retry(hash, cid, nodes, factor, Same(accepts, n - 1)).Some? <==> n > 1
  {
    assert Same(accepts, n)[..n - 1] == Same(accepts, n - 1);
  }

  lemma {:induction false} SteadyInvariant(
    hash: Hash, cid: string, nodes: seq<Node>, factor: nat, accepts: Accepts, n: nat)
    requires DistinctIds(nodes)
    ensures Spared(nodes, accepts, FailedSoFar(Retry(hash, cid, nodes, factor, Same(accepts, n))))
    ensures n > 0 ==> SteadyState(hash, cid, nodes, factor, accepts,
                                  Retry(hash, cid, nodes, factor, Same(accepts, n)).value)
  {
    if n > 0 {
      SteadyInvariant(hash, cid, nodes, factor, accepts, n - 1);
      RetryOnce(hash, cid, nodes, factor, accepts, n);
      StartSteady(hash, Retry(hash, cid, nodes, factor, Same(accepts, n - 1)), cid, nodes, factor, accepts);
    }
  }

  lemma StartSteady(hash: Hash, existing: Option<State>, cid: string, nodes: seq<Node>, factor: nat, accepts: Accepts)
    requires DistinctIds(nodes) && Spared(nodes, accepts, FailedSoFar(existing))
    requires existing.Some? ==> SteadyState(hash, cid, nodes, factor, accepts, existing.value)
    ensures var s := Start(hash, existing, cid, nodes, factor, accepts);
            Spared(nodes, accepts, s.failedNodes) && SteadyState(hash, cid, nodes, factor, accepts, s)
  {
    if !(existing.Some? && existing.value.complete) {
      var failed := FailedSoFar(existing);
      SelectionWithin(hash, cid, nodes, factor, failed);
      RoundSpares(cid, nodes, Selection(hash, cid, nodes, factor, failed), factor, accepts, failed);
    }
  }

  /**
   * With steady answers replication completes, sooner or later, if and only if at least `factor` candidates are
   * willing. When it has, the confirmed nodes are exactly the nodes a selection among the willing ones would have
   * picked at once: failures on the way do not matter.
   */
  lemma RetriesConverge(hash: Hash, cid: string, nodes: seq<Node>, factor: nat, accepts: Accepts)
    requires Distinct(nodes, hash, cid) && DistinctIds(nodes)
    ensures (exists n: nat :: n > 0 && Retry(hash, cid, nodes, factor, Same(accepts, n)).value.complete) <==>
            |Willing(nodes, accepts)| >= factor
    ensures forall n: nat :: n > 0 && Retry(hash, cid, nodes, factor, Same(accepts, n)).value.complete ==>
              Elements(Retry(hash, cid, nodes, factor, Same(accepts, n)).value.confirmedNodes) ==
              IdSet(Top(Willing(nodes, accepts), KeyOf(hash, cid), factor))
  {
    forall n: nat | n > 0 && Retry(hash, cid, nodes, factor, Same(accepts, n)).value.complete
      ensures |Willing(nodes, accepts)| >= factor
      ensures Elements(Retry(hash, cid, nodes, factor, Same(accepts, n)).value.confirmedNodes) ==
              IdSet(Top(Willing(nodes, accepts), KeyOf(hash, cid), factor))
    {
      CompleteIsIdeal(hash, cid, nodes, factor, accepts, n);
    }
    if |Willing(nodes, accepts)| >= factor {
      var n := |Candidates(nodes) - Willing(nodes, accepts)| + 1;
      RetriesComplete(hash, cid, nodes, factor, Same(accepts, n), Willing(nodes, accepts));
    }
  }

  ghost function IdSet(nodes: set<Node>): set<string>
  {
    set n | n in nodes :: n.nodeId
  }

  lemma CompleteIsIdeal(hash: Hash, cid: string, nodes: seq<Node>, factor: nat, accepts: Accepts, n: nat)
    requires Distinct(nodes, hash, cid) && DistinctIds(nodes) && n > 0
    requires Retry(hash, cid, nodes, factor, Same(accepts, n)).value.complete
    ensures |Willing(nodes, accepts)| >= factor
    ensures Elements(Retry(hash, cid, nodes, factor, Same(accepts, n)).value.confirmedNodes) ==
            IdSet(Top(Willing(nodes, accepts), KeyOf(hash, cid), factor))
  {
    var s := Retry(hash, cid, nodes, factor, Same(accepts, n)).value;
    SteadyInvariant(hash, cid, nodes, factor, accepts, n);
    var failed :| Spared(nodes, accepts, failed) &&
                  s == RoundOf(cid, Selection(hash, cid, nodes, factor, failed), factor, accepts, failed);
    CompleteRoundIsIdeal(hash, cid, nodes, factor, accepts, failed);
  }

  lemma CompleteRoundIsIdeal(
    hash: Hash, cid: string, nodes: seq<Node>, factor: nat, accepts: Accepts, failed: seq<string>)
    requires Distinct(nodes, hash, cid) && DistinctIds(nodes) && Spared(nodes, accepts, failed)
    requires RoundOf(cid, Selection(hash, cid, nodes, factor, failed), factor, accepts, failed).complete
    ensures |Willing(nodes, accepts)| >= factor
    ensures var s := RoundOf(cid, Selection(hash, cid, nodes, factor, failed), factor, accepts, failed);
            Elements(s.confirmedNodes) == IdSet(Top(Willing(nodes, accepts), KeyOf(hash, cid), factor))
  {
    var selected := Selection(hash, cid, nodes, factor, failed);
    SelectionWithin(hash, cid, nodes, factor, failed);
    RoundRecords(selected, accepts, failed);
    AllAccepted(selected, accepts, factor);
    SelectedAreIdeal(hash, cid, nodes, factor, accepts, failed);
    NoDupSize(selected);
    SubsetSize(Elements(selected), Willing(nodes, accepts));
    IdsOf(selected);
  }

  lemma SelectedAreIdeal(hash: Hash, cid: string, nodes: seq<Node>, factor: nat, accepts: Accepts, failed: seq<string>)
    requires Distinct(nodes, hash, cid) && Spared(nodes, accepts, failed)
    requires forall n :: n in Selection(hash, cid, nodes, factor, failed) ==>
             accepts(n) && n in nodes && Eligible(failed)(n)
    ensures Elements(Selection(hash, cid, nodes, factor, failed)) <= Willing(nodes, accepts)
    ensures Elements(Selection(hash, cid, nodes, factor, failed)) ==
            Top(Willing(nodes, accepts), KeyOf(hash, cid), factor)
  {
    var willing, eligible := Willing(nodes, accepts), EligibleSet(nodes, failed);
    SelectionIsRank(hash, cid, nodes, factor, failed);
    EligibleDistinct(hash, cid, nodes, failed);
    DropAllUnselected(eligible, KeyOf(hash, cid), factor, willing);
  }

  lemma AllAccepted(selected: seq<Node>, accepts: Accepts, factor: nat)
    requires |selected| <= factor <= |Filter(selected, accepts)|
    ensures Filter(selected, accepts) == selected && forall n :: n in selected ==> accepts(n)
  {
    var rejected := Filter(selected, Rejects(accepts));
    FilterSplit(selected, accepts, Rejects(accepts));
    forall n | n in selected ensures accepts(n) {
      assert accepts(n) || n in rejected;
    }
    FilterAll(selected, accepts);
  }

  lemma IdsOf(nodes: seq<Node>)
    ensures Elements(Ids(nodes)) == IdSet(Elements(nodes))
  {
    forall id ensures id in Elements(Ids(nodes)) <==> id in IdSet(Elements(nodes)) {
      if id in Ids(nodes) {
        var n := NodeWithId(nodes, id);
        assert n in Elements(nodes);
      }
      if id in IdSet(Elements(nodes)) {
        var n :| n in Elements(nodes) && n.nodeId == id;
        IdIn(nodes, n);
      }
    }
  }
}
