/**
 * Replica voting and the anti-censorship retry loop (src/services/consensus.service.ts). What a node replies, the hash
 * and the random choice of nodes are left open.
 */
module Consensus {
  import opened Sequences
  import opened Framing

  /** What fetching from a node yields: bytes, nothing, or an exception. */
  datatype Reply = Data(bytes: Bytes) | Nothing | Failure(message: string)

  datatype FetchResult = FetchResult(nodeId: string, ciphertext: Option<Bytes>, hash: Option<string>, success: bool)

  datatype Tally = Tally(hash: string, nodes: seq<string>, ciphertext: Bytes)

  datatype ConsensusResult = ConsensusResult(
    cid: string, consensus: bool, matchingReplicas: nat, totalReplicas: nat, acceptedHash: Option<string>,
    ciphertext: Option<Bytes>, disputedNodes: seq<string>, censoringNodes: seq<string>)

  datatype EventKind = Refusal | Timeout

  datatype CensorshipEvent = CensorshipEvent(cid: string, nodeId: string, timestamp: int, kind: EventKind)

  datatype AuditEntry =
    | ConsensusFailure(timestamp: int, cid: string, totalAttempts: nat)
    | DisputeFound(timestamp: int, cid: string, hashCount: nat, nodes: seq<string>)
    | Suspicion(event: CensorshipEvent)

  datatype Dispute = Dispute(cid: string, timestamp: int, conflictingHashes: map<string, seq<string>>)

  const AUDIT_LIMIT := 10000

  const NO_RESULT := ConsensusResult("", false, 0, 0, None, None, [], [])

  // ---------------------------------------------------------------- fetching

  function ResultOf(nodeId: string, reply: Reply, sha: Bytes -> string): FetchResult
  {
    if reply.Data? then FetchResult(nodeId, Some(reply.bytes), Some(sha(reply.bytes)), true)
    else FetchResult(nodeId, None, None, false)
  }

  function ResultsOf(nodes: seq<string>, reply: string -> Reply, sha: Bytes -> string): seq<FetchResult>
  {
    Map(nodes, (n: string) => ResultOf(n, reply(n), sha))
  }

  function EventsOf(cid: string, nodes: seq<string>, reply: string -> Reply, now: int): seq<CensorshipEvent>
  {
    if nodes == [] then []
    else
      var last := nodes[|nodes| - 1];
      EventsOf(cid, nodes[..|nodes| - 1], reply, now) + EventFor(cid, last, reply(last), now)
  }

  function EventFor(cid: string, nodeId: string, reply: Reply, now: int): seq<CensorshipEvent>
  {
    match reply
    case Data(_) => []
    case Nothing => [CensorshipEvent(cid, nodeId, now, Refusal)]
    case Failure(_) => [CensorshipEvent(cid, nodeId, now, Timeout)]
  }

  /** A hash is never the empty string. */
  ghost predicate NonEmptyHashes(sha: Bytes -> string)
  {
    forall b :: sha(b) != ""
  }

  // ---------------------------------------------------------------- voting

  /** A successful result carries bytes and a hash, as `fetchWithConsensus` builds it. */
  ghost predicate WellFormed(results: seq<FetchResult>)
  {
    forall r :: r in results && r.success ==> r.hash.Some? && r.hash.value != "" && r.ciphertext.Some?
  }

  function Succeeds(): FetchResult -> bool
  {
    (r: FetchResult) => r.success && r.hash.Some? && r.hash.value != ""
  }

  function Fails(): FetchResult -> bool
  {
    (r: FetchResult) => !r.success
  }

  function NodeIds(results: seq<FetchResult>): seq<string>
  {
    Map(results, (r: FetchResult) => r.nodeId)
  }

  function VotesFor(hash: Option<string>): FetchResult -> bool
  {
    (r: FetchResult) => r.hash == hash
  }

  function VotesAgainst(hash: Option<string>): FetchResult -> bool
  {
    (r: FetchResult) => r.hash != hash
  }

  /** How many of the votes are for a hash. */
  function Frequency(votes: seq<FetchResult>, hash: string): nat
  {
    |Filter(votes, VotesFor(Some(hash)))|
  }

  function AddVote(tallies: seq<Tally>, vote: FetchResult): seq<Tally>
  {
    if vote.hash.None? || vote.ciphertext.None? then tallies
    else
      var at := FindIndex(tallies, (t: Tally) => t.hash == vote.hash.value);
      if at >= 0 then tallies[at := tallies[at].(nodes := tallies[at].nodes + [vote.nodeId])]
      else tallies + [Tally(vote.hash.value, [vote.nodeId], vote.ciphertext.value)]
  }

  /** `hashCounts`: one entry per hash, in the order of first appearance. */
  function Count(votes: seq<FetchResult>): seq<Tally>
  {
    if votes == [] then [] else AddVote(Count(votes[..|votes| - 1]), votes[|votes| - 1])
  }

  /** The first tally with the most votes. */
  function Winner(tallies: seq<Tally>): (r: Option<Tally>)
    ensures r.Some? ==> r.value in tallies && forall t :: t in tallies ==> |t.nodes| <= |r.value.nodes|
    ensures r.None? ==> forall t :: t in tallies ==> t.nodes == []
    ensures r.Some? ==> exists i :: 0 <= i < |tallies| && tallies[i] == r.value &&
                                    forall j :: 0 <= j < i ==> |tallies[j].nodes| < |r.value.nodes|
  {
    if tallies == [] then None
    else
      var best, last := Winner(tallies[..|tallies| - 1]), tallies[|tallies| - 1];
      assert tallies == tallies[..|tallies| - 1] + [last];
      if |last.nodes| > (if best.Some? then |best.value.nodes| else 0) then Some(last) else best
  }

  function Vote(cid: string, results: seq<FetchResult>): ConsensusResult
  {
    var votes := Filter(results, Succeeds());
    var winner := Winner(Count(votes));
    var accepted := if winner.Some? then Some(winner.value.hash) else None;
    var maxCount := if winner.Some? then |winner.value.nodes| else 0;
    ConsensusResult(
      cid, maxCount >= 2 || 2 * maxCount > |results|, maxCount, |results|, accepted,
      if winner.Some? then Some(winner.value.ciphertext) else None,
      NodeIds(Filter(votes, VotesAgainst(accepted))), NodeIds(Filter(results, Fails())))
  }

  function ConflictsOf(tallies: seq<Tally>): map<string, seq<string>>
  {
    if tallies == [] then map[]
    else ConflictsOf(tallies[..|tallies| - 1])[tallies[|tallies| - 1].hash := tallies[|tallies| - 1].nodes]
  }

  function NodesOf(tallies: seq<Tally>): seq<string>
  {
    if tallies == [] then [] else NodesOf(tallies[..|tallies| - 1]) + tallies[|tallies| - 1].nodes
  }

  /** What a vote writes to the audit log. */
  function AuditOf(cid: string, results: seq<FetchResult>, now: int): seq<AuditEntry>
  {
    var tallies := Count(Filter(results, Succeeds()));
    if Filter(results, Succeeds()) == [] then [ConsensusFailure(now, cid, |results|)]
    else if |tallies| > 1 then [DisputeFound(now, cid, |tallies|, NodesOf(tallies))]
    else []
  }

  /** What a fetch writes to the audit log: its suspicions, then what the vote has to say. */
  function AuditOfFetch(cid: string, nodes: seq<string>, reply: string -> Reply, sha: Bytes -> string, now: int)
    : seq<AuditEntry>
  {
    Suspicions(EventsOf(cid, nodes, reply, now)) + AuditOf(cid, ResultsOf(nodes, reply, sha), now)
  }

  // ---------------------------------------------------------------- the audit log

  function Logged(log: seq<AuditEntry>, entry: AuditEntry): seq<AuditEntry>
  {
    if |log| + 1 > AUDIT_LIMIT then (log + [entry])[1..] else log + [entry]
  }

  function LoggedAll(log: seq<AuditEntry>, entries: seq<AuditEntry>): seq<AuditEntry>
  {
    if entries == [] then log else Logged(LoggedAll(log, entries[..|entries| - 1]), entries[|entries| - 1])
  }

  function LastOf(log: seq<AuditEntry>, n: nat): seq<AuditEntry>
  {
    if |log| > n then log[|log| - n..] else log
  }

  /** However many entries are logged, exactly the last ones are kept. */
  lemma {:induction false} AuditKeepsLast(log: seq<AuditEntry>, entries: seq<AuditEntry>)
    requires |log| <= 10000
    ensures LoggedAll(log, entries) == LastOf(log + entries, 10000)
  {
    if entries == [] {
      assert log + entries == log;
    } else {
      var front, last := entries[..|entries| - 1], entries[|entries| - 1];
      AuditKeepsLast(log, front);
      assert log + entries == log + front + [last];
    }
  }

  lemma {:induction false} LoggedAllConcat(log: seq<AuditEntry>, a: seq<AuditEntry>, b: seq<AuditEntry>)
    ensures LoggedAll(log, a + b) == LoggedAll(LoggedAll(log, a), b)
  {
    if b == [] {
      assert a + b == a;
    } else {
      LoggedAllConcat(log, a, b[..|b| - 1]);
      assert (a + b)[..|a + b| - 1] == a + b[..|b| - 1];
    }
  }

  function Suspicions(events: seq<CensorshipEvent>): seq<AuditEntry>
  {
    Map(events, (e: CensorshipEvent) => Suspicion(e))
  }

  // ---------------------------------------------------------------- the class

  class ConsensusService {
    var disputes: map<string, Dispute>
    var censorshipEvents: seq<CensorshipEvent>
    var auditLog: seq<AuditEntry>
    const sha: Bytes -> string

    constructor (sha: Bytes -> string)
      ensures disputes == map[] && censorshipEvents == [] && auditLog == [] && this.sha == sha
    {
      disputes, censorshipEvents, auditLog := map[], [], [];
      this.sha := sha;
    }

    method LogAudit(entry: AuditEntry)
      modifies this`auditLog
      ensures auditLog == Logged(old(auditLog), entry)
    {
      auditLog := auditLog + [entry];
      if |auditLog| > AUDIT_LIMIT {
        auditLog := auditLog[1..];
      }
    }

    method RecordCensorshipEvent(event: CensorshipEvent)
      modifies this`auditLog, this`censorshipEvents
      ensures censorshipEvents == old(censorshipEvents) + [event]
      ensures auditLog == Logged(old(auditLog), Suspicion(event))
    {
      censorshipEvents := censorshipEvents + [event];
      LogAudit(Suspicion(event));
    }

    method RecordDispute(cid: string, hashCounts: seq<Tally>, now: int)
      modifies this`auditLog, this`disputes
      ensures disputes == old(disputes)[cid := Dispute(cid, now, ConflictsOf(hashCounts))]
      ensures auditLog == Logged(old(auditLog), DisputeFound(now, cid, |hashCounts|, NodesOf(hashCounts)))
    {
      var conflictingHashes: map<string, seq<string>> := map[];
      var nodes: seq<string> := [];
      for k := 0 to |hashCounts|
        invariant conflictingHashes == ConflictsOf(hashCounts[..k]) && nodes == NodesOf(hashCounts[..k])
      {
        assert hashCounts[..k + 1][..k] == hashCounts[..k];
        conflictingHashes := conflictingHashes[hashCounts[k].hash := hashCounts[k].nodes];
        nodes := nodes + hashCounts[k].nodes;
      }
      assert hashCounts[..|hashCounts|] == hashCounts;
      disputes := disputes[cid := Dispute(cid, now, conflictingHashes)];
      LogAudit(DisputeFound(now, cid, |hashCounts|, nodes));
    }

    method CountVotes(votes: seq<FetchResult>) returns (hashCounts: seq<Tally>)
      ensures hashCounts == Count(votes)
    {
      hashCounts := [];
      for k := 0 to |votes|
        invariant hashCounts == Count(votes[..k])
      {
        assert votes[..k + 1][..k] == votes[..k];
        hashCounts := CountVote(hashCounts, votes[k]);
      }
      assert votes[..|votes|] == votes;
    }

    method CountVote(tallies: seq<Tally>, result: FetchResult) returns (hashCounts: seq<Tally>)
      ensures hashCounts == AddVote(tallies, result)
    {
      hashCounts := tallies;
      if result.hash.Some? && result.ciphertext.Some? {
        var at := FindIndex(hashCounts, (t: Tally) => t.hash == result.hash.value);
        if at < 0 {
          hashCounts := hashCounts + [Tally(result.hash.value, [result.nodeId], result.ciphertext.value)];
        } else {
          hashCounts := hashCounts[at := hashCounts[at].(nodes := hashCounts[at].nodes + [result.nodeId])];
        }
      }
    }

    method MostVotes(hashCounts: seq<Tally>) returns (winner: Option<Tally>)
      ensures winner == Winner(hashCounts)
    {
      var maxCount := 0;
      winner := None;
      for k := 0 to |hashCounts|
        invariant winner == Winner(hashCounts[..k])
        invariant maxCount == if winner.Some? then |winner.value.nodes| else 0
      {
        assert hashCounts[..k + 1][..k] == hashCounts[..k];
        if |hashCounts[k].nodes| > maxCount {
          maxCount := |hashCounts[k].nodes|;
          winner := Some(hashCounts[k]);
        }
      }
      assert hashCounts[..|hashCounts|] == hashCounts;
    }

    method PerformConsensus(cid: string, results: seq<FetchResult>, now: int) returns (result: ConsensusResult)
      requires WellFormed(results)
      modifies this`auditLog, this`disputes
      ensures result == Vote(cid, results)
      ensures auditLog == LoggedAll(old(auditLog), AuditOf(cid, results, now))
      ensures var tallies := Count(Filter(results, Succeeds()));
              disputes == if |tallies| > 1
                          then old(disputes)[cid := Dispute(cid, now, ConflictsOf(tallies))]
                          else old(disputes)
    {
      var successfulResults := Filter(results, Succeeds());
      if |successfulResults| == 0 {
        OneLogged(auditLog, ConsensusFailure(now, cid, |results|));
        LogAudit(ConsensusFailure(now, cid, |results|));
        EmptyVote(cid, results);
        return ConsensusResult(cid, false, 0, |results|, None, None, [], NodeIds(Filter(results, Fails())));
      }
      VotesAllVote(results);
      var hashCounts := CountVotes(successfulResults);
      var winner := MostVotes(hashCounts);
      var maxCount, acceptedHash, acceptedCiphertext := 0, None, None;
      if winner.Some? {
        maxCount := |winner.value.nodes|;
        acceptedHash := Some(winner.value.hash);
        acceptedCiphertext := Some(winner.value.ciphertext);
      }
      var hasConsensus := maxCount >= 2 || 2 * maxCount > |results|;
      if |hashCounts| <= 1 {
        NoDisputeAmongOne(successfulResults);
      } else {
        OneLogged(auditLog, DisputeFound(now, cid, |hashCounts|, NodesOf(hashCounts)));
      }
      var disputedNodes := FindDisputed(cid, successfulResults, hashCounts, acceptedHash, now);
      var censoringNodes := NodeIds(Filter(results, Fails()));
      result := ConsensusResult(
        cid, hasConsensus, maxCount, |results|, acceptedHash, acceptedCiphertext, disputedNodes, censoringNodes);
    }

    /** Several hashes are a dispute, which is recorded. */
    method FindDisputed(
      cid: string, votes: seq<FetchResult>, hashCounts: seq<Tally>, acceptedHash: Option<string>, now: int)
      returns (disputedNodes: seq<string>)
      requires |hashCounts| <= 1 ==> NodeIds(Filter(votes, VotesAgainst(acceptedHash))) == []
      modifies this`auditLog, this`disputes
      ensures disputedNodes == NodeIds(Filter(votes, VotesAgainst(acceptedHash)))
      ensures |hashCounts| > 1 ==>
                && disputes == old(disputes)[cid := Dispute(cid, now, ConflictsOf(hashCounts))]
                && auditLog == Logged(old(auditLog), DisputeFound(now, cid, |hashCounts|, NodesOf(hashCounts)))
      ensures |hashCounts| <= 1 ==> disputes == old(disputes) && auditLog == old(auditLog)
    {
      disputedNodes := [];
      if |hashCounts| > 1 {
        disputedNodes := ListDisputed(votes, acceptedHash);
        RecordDispute(cid, hashCounts, now);
      }
    }

    method ListDisputed(votes: seq<FetchResult>, acceptedHash: Option<string>) returns (disputedNodes: seq<string>)
      ensures disputedNodes == NodeIds(Filter(votes, VotesAgainst(acceptedHash)))
    {
      disputedNodes := [];
      for k := 0 to |votes|
        invariant disputedNodes == NodeIds(Filter(votes[..k], VotesAgainst(acceptedHash)))
      {
        OneMoreVote(votes, acceptedHash, k);
        if votes[k].hash != acceptedHash {
          disputedNodes := disputedNodes + [votes[k].nodeId];
        }
      }
      assert votes[..|votes|] == votes;
    }

    /** One node is asked; its silence or failure is recorded. */
    method Ask(cid: string, nodeId: string, reply: Reply, now: int) returns (result: FetchResult)
      modifies this`auditLog, this`censorshipEvents
      ensures result == ResultOf(nodeId, reply, sha)
      ensures censorshipEvents == old(censorshipEvents) + EventFor(cid, nodeId, reply, now)
      ensures auditLog == LoggedAll(old(auditLog), Suspicions(EventFor(cid, nodeId, reply, now)))
    {
      OneSuspicion(auditLog, cid, nodeId, reply, now);
      match reply {
        case Nothing => RecordCensorshipEvent(CensorshipEvent(cid, nodeId, now, Refusal));
        case Failure(_) => RecordCensorshipEvent(CensorshipEvent(cid, nodeId, now, Timeout));
        case Data(_) =>
      }
      result := ResultOf(nodeId, reply, sha);
    }

    method Gather(cid: string, replicaNodes: seq<string>, reply: string -> Reply, now: int)
      returns (results: seq<FetchResult>)
      modifies this`auditLog, this`censorshipEvents
      ensures results == ResultsOf(replicaNodes, reply, sha)
      ensures censorshipEvents == old(censorshipEvents) + EventsOf(cid, replicaNodes, reply, now)
      ensures auditLog == LoggedAll(old(auditLog), Suspicions(EventsOf(cid, replicaNodes, reply, now)))
    {
      results := [];
      for k := 0 to |replicaNodes|
        invariant Gathered(old(censorshipEvents), old(auditLog), cid, replicaNodes[..k], reply, sha, now,
                           results, censorshipEvents, auditLog)
      {
        GatheredMore(old(censorshipEvents), old(auditLog), cid, replicaNodes, reply, sha, now, k,
                     results, censorshipEvents, auditLog);
        var result := Ask(cid, replicaNodes[k], reply(replicaNodes[k]), now);
        results := results + [result];
      }
      assert replicaNodes[..|replicaNodes|] == replicaNodes;
    }

    method FetchWithConsensus(cid: string, replicaNodes: seq<string>, reply: string -> Reply, now: int)
      returns (result: ConsensusResult)
      requires NonEmptyHashes(sha)
      modifies this
      ensures result == Vote(cid, ResultsOf(replicaNodes, reply, sha))
      ensures censorshipEvents == old(censorshipEvents) + EventsOf(cid, replicaNodes, reply, now)
      ensures auditLog == LoggedAll(old(auditLog), AuditOfFetch(cid, replicaNodes, reply, sha, now))
      ensures var tallies := Count(Filter(ResultsOf(replicaNodes, reply, sha), Succeeds()));
              disputes == if |tallies| > 1
                          then old(disputes)[cid := Dispute(cid, now, ConflictsOf(tallies))]
                          else old(disputes)
    {
      var results := Gather(cid, replicaNodes, reply, now);
      ResultsWellFormed(replicaNodes, reply, sha);
      LoggedAllConcat(old(auditLog), Suspicions(EventsOf(cid, replicaNodes, reply, now)), AuditOf(cid, results, now));
      result := PerformConsensus(cid, results, now);
    }

    /** One attempt: the round made, its outcome and the nodes it leaves to choose from. */
    method Attempt(cid: string, pool: seq<string>, replicationFactor: nat, reply: string -> Reply, now: int)
      returns (result: ConsensusResult, poolLeft: seq<string>, ghost round: Round)
      requires NonEmptyHashes(sha)
      modifies this
      ensures Proper(round, replicationFactor) && round.pool == pool && round.reply == reply
      ensures result == VoteWith(cid, sha)(round) && poolLeft == LeftWith(sha)(round)
      ensures censorshipEvents == old(censorshipEvents) + EventsWith(cid, now)(round)
      ensures auditLog == LoggedAll(old(auditLog), AuditWith(cid, sha, now)(round))
    {
      var selectedNodes := SelectRandomNodes(pool, if replicationFactor < |pool| then replicationFactor else |pool|);
      result := FetchWithConsensus(cid, selectedNodes, reply, now);
      round := Round(pool, selectedNodes, reply);
      poolLeft := Filter(pool, Unblamed(result));
      CidIrrelevant(cid, round, sha);
    }

    /**
     * `fetchWithAntiCensorship`: `replies` gives the answers of each attempt. The trace lists the rounds made.
     */
    method FetchWithAntiCensorship(
      cid: string, availableNodes: seq<string>, replicationFactor: nat, replies: nat -> string -> Reply,
      maxRetries: nat, now: int)
      returns (result: ConsensusResult, ghost trace: seq<Round>)
      requires NonEmptyHashes(sha)
      modifies this
      ensures Outcome(Call(availableNodes, replicationFactor, replies, maxRetries, LeftWith(sha), VoteWith(cid, sha),
                           EventsWith(cid, now), AuditWith(cid, sha, now)),
                      trace, result, old(censorshipEvents), old(auditLog), censorshipEvents, auditLog)
      ensures trace == [] ==> result == NO_RESULT.(cid := cid)
    {
      var attempt := 0;
      var lastResult: Option<ConsensusResult> := None;
      var pool := availableNodes;
      ghost var call := Call(availableNodes, replicationFactor, replies, maxRetries, LeftWith(sha), VoteWith(cid, sha),
                             EventsWith(cid, now), AuditWith(cid, sha, now));
      trace := [];
      while attempt < maxRetries
        invariant attempt == |trace| <= maxRetries
        invariant InProgress(call, trace, pool, lastResult, old(censorshipEvents), old(auditLog),
                             censorshipEvents, auditLog)
      {
        ghost var events, log := censorshipEvents, auditLog;
        var voted, poolLeft, round := Attempt(cid, pool, replicationFactor, replies(attempt), now);
        GoesOn(call, trace, round, pool, lastResult, old(censorshipEvents), old(auditLog), events, log);
        trace := trace + [round];
        if voted.consensus {
          return voted, trace;
        }
        pool := poolLeft;
        lastResult := Some(voted);
        attempt := attempt + 1;
      }
      result := if lastResult.Some? then lastResult.value else NO_RESULT.(cid := cid);
    }

    /** Any `count` of the nodes, in any order: the first ones of a shuffled copy. */
    method SelectRandomNodes(nodes: seq<string>, count: nat) returns (selected: seq<string>)
      requires count <= |nodes|
      ensures |selected| == count && multiset(selected) <= multiset(nodes)
    {
      selected := [];
      var rest := nodes;
      while |selected| < count
        invariant |selected| <= count && |selected| + |rest| == |nodes|
        invariant multiset(selected) + multiset(rest) == multiset(nodes)
      {
        var i :| 0 <= i < |rest|;
        assert rest == rest[..i] + [rest[i]] + rest[i + 1..];
        selected := selected + [rest[i]];
        rest := rest[..i] + rest[i + 1..];
      }
    }
  }

  lemma OneLogged(log: seq<AuditEntry>, entry: AuditEntry)
    ensures LoggedAll(log, [entry]) == Logged(log, entry) && LoggedAll(log, []) == log
  {
    assert [entry][..0] == [];
  }

  lemma OneSuspicion(log: seq<AuditEntry>, cid: string, nodeId: string, reply: Reply, now: int)
    ensures var kind := if reply.Nothing? then Refusal else Timeout;
            LoggedAll(log, Suspicions(EventFor(cid, nodeId, reply, now))) ==
            if reply.Data? then log else Logged(log, Suspicion(CensorshipEvent(cid, nodeId, now, kind)))
  {
    var kind := if reply.Nothing? then Refusal else Timeout;
    var entry := Suspicion(CensorshipEvent(cid, nodeId, now, kind));
    OneLogged(log, entry);
    assert Suspicions(EventFor(cid, nodeId, reply, now)) == if reply.Data? then [] else [entry];
  }

  lemma OneMoreVote(votes: seq<FetchResult>, hash: Option<string>, k: nat)
    requires k < |votes|
    ensures NodeIds(Filter(votes[..k + 1], VotesAgainst(hash))) ==
            NodeIds(Filter(votes[..k], VotesAgainst(hash))) + if votes[k].hash != hash then [votes[k].nodeId] else []
  {
    PrefixSnoc(votes, k);
    FilterSnoc(votes[..k], votes[k], VotesAgainst(hash));
    IdsGrow(Filter(votes[..k], VotesAgainst(hash)), votes[k]);
  }

  /** After asking these nodes. */
  ghost predicate Gathered(
    events0: seq<CensorshipEvent>, log0: seq<AuditEntry>, cid: string, nodes: seq<string>, reply: string -> Reply,
    sha: Bytes -> string, now: int, results: seq<FetchResult>, events: seq<CensorshipEvent>, log: seq<AuditEntry>)
  {
    && results == ResultsOf(nodes, reply, sha) && events == events0 + EventsOf(cid, nodes, reply, now)
    && log == LoggedAll(log0, Suspicions(EventsOf(cid, nodes, reply, now)))
  }

  lemma GatheredMore(
    events0: seq<CensorshipEvent>, log0: seq<AuditEntry>, cid: string, nodes: seq<string>, reply: string -> Reply,
    sha: Bytes -> string, now: int, k: nat, results: seq<FetchResult>, events: seq<CensorshipEvent>,
    log: seq<AuditEntry>)
    requires k < |nodes| && Gathered(events0, log0, cid, nodes[..k], reply, sha, now, results, events, log)
    ensures var more := EventFor(cid, nodes[k], reply(nodes[k]), now);
            Gathered(events0, log0, cid, nodes[..k + 1], reply, sha, now,
                     results + [ResultOf(nodes[k], reply(nodes[k]), sha)], events + more,
                     LoggedAll(log, Suspicions(more)))
  {
    OneMoreReply(log0, cid, nodes, reply, sha, now, k);
    var before, more := EventsOf(cid, nodes[..k], reply, now), EventFor(cid, nodes[k], reply(nodes[k]), now);
    assert events0 + before + more == events0 + (before + more);
  }

  lemma OneMoreReply(
    log: seq<AuditEntry>, cid: string, nodes: seq<string>, reply: string -> Reply, sha: Bytes -> string, now: int,
    k: nat)
    requires k < |nodes|
    ensures ResultsOf(nodes[..k + 1], reply, sha) ==
            ResultsOf(nodes[..k], reply, sha) + [ResultOf(nodes[k], reply(nodes[k]), sha)]
    ensures var before, more := EventsOf(cid, nodes[..k], reply, now), EventFor(cid, nodes[k], reply(nodes[k]), now);
            && EventsOf(cid, nodes[..k + 1], reply, now) == before + more
            && LoggedAll(log, Suspicions(before + more)) ==
               LoggedAll(LoggedAll(log, Suspicions(before)), Suspicions(more))
  {
    var before, more := EventsOf(cid, nodes[..k], reply, now), EventFor(cid, nodes[k], reply(nodes[k]), now);
    assert nodes[..k + 1][..k] == nodes[..k];
    assert Suspicions(before + more) == Suspicions(before) + Suspicions(more);
    LoggedAllConcat(log, Suspicions(before), Suspicions(more));
  }

  // ---------------------------------------------------------------- the vote

  /** Every tally lists the voters for its hash, no hash has two tallies, and every vote is in one. */
  ghost predicate Sound(tallies: seq<Tally>, votes: seq<FetchResult>)
  {
    && Lists(tallies, Voters(votes))
    && AllTallied(tallies, votes)
  }

  ghost predicate AllTallied(tallies: seq<Tally>, votes: seq<FetchResult>)
  {
    forall r :: r in votes ==> r.hash.Some? && Tallied(tallies, r.hash.value)
  }

  ghost predicate Tallied(tallies: seq<Tally>, hash: string)
  {
    exists t :: t in tallies && t.hash == hash
  }

  ghost predicate AllVote(votes: seq<FetchResult>)
  {
    forall r :: r in votes ==> r.hash.Some? && r.ciphertext.Some?
  }

  /** `Sound` with the voters for a hash left open. */
  ghost predicate Lists(tallies: seq<Tally>, voters: string -> seq<string>)
  {
    && (forall i, j :: 0 <= i < j < |tallies| ==> tallies[i].hash != tallies[j].hash)
    && (forall i :: 0 <= i < |tallies| ==> tallies[i].nodes != [] && tallies[i].nodes == voters(tallies[i].hash))
  }

  function Voters(votes: seq<FetchResult>): string -> seq<string>
  {
    (hash: string) => NodeIds(Filter(votes, VotesFor(Some(hash))))
  }

  lemma ListsGrow(tallies: seq<Tally>, vote: FetchResult, before: string -> seq<string>, after: string -> seq<string>)
    requires Lists(tallies, before) && vote.hash.Some? && vote.ciphertext.Some?
    requires forall h :: h != vote.hash.value ==> after(h) == before(h)
    requires after(vote.hash.value) == before(vote.hash.value) + [vote.nodeId]
    requires (forall t :: t in tallies ==> t.hash != vote.hash.value) ==> before(vote.hash.value) == []
    ensures Lists(AddVote(tallies, vote), after)
    ensures Tallied(AddVote(tallies, vote), vote.hash.value)
    ensures forall h :: Tallied(tallies, h) ==> Tallied(AddVote(tallies, vote), h)
  {
    var h := vote.hash.value;
    var grown := AddVote(tallies, vote);
    var at := FindIndex(tallies, (t: Tally) => t.hash == h);
    assert grown[if at >= 0 then at else |tallies|].hash == h;
    forall other | Tallied(tallies, other) ensures Tallied(grown, other) {
      var k :| 0 <= k < |tallies| && tallies[k].hash == other;
      assert grown[k] in grown && grown[k].hash == other;
    }
  }

  lemma VoteAdded(tallies: seq<Tally>, votes: seq<FetchResult>, vote: FetchResult)
    requires Sound(tallies, votes) && vote.hash.Some? && vote.ciphertext.Some?
    ensures Sound(AddVote(tallies, vote), votes + [vote])
  {
    forall h
      ensures Voters(votes + [vote])(h) == Voters(votes)(h) + if vote.hash == Some(h) then [vote.nodeId] else [] {
      VotersGrow(votes, vote, h);
    }
    if forall t :: t in tallies ==> t.hash != vote.hash.value {
      NoVotersYet(tallies, votes, vote.hash.value);
    }
    ListsGrow(tallies, vote, Voters(votes), Voters(votes + [vote]));
    TalliedGrow(tallies, AddVote(tallies, vote), votes, vote);
  }

  lemma TalliedGrow(tallies: seq<Tally>, grown: seq<Tally>, votes: seq<FetchResult>, vote: FetchResult)
    requires AllTallied(tallies, votes) && forall h :: Tallied(tallies, h) ==> Tallied(grown, h)
    requires vote.hash.Some? && Tallied(grown, vote.hash.value)
    ensures AllTallied(grown, votes + [vote])
  {
  }

  lemma VotersGrow(votes: seq<FetchResult>, vote: FetchResult, hash: string)
    ensures Voters(votes + [vote])(hash) == Voters(votes)(hash) + if vote.hash == Some(hash) then [vote.nodeId] else []
  {
    FilterSnoc(votes, vote, VotesFor(Some(hash)));
  }

  lemma NoVotersYet(tallies: seq<Tally>, votes: seq<FetchResult>, hash: string)
    requires Sound(tallies, votes) && forall t :: t in tallies ==> t.hash != hash
    ensures Voters(votes)(hash) == []
  {
    forall r | r in votes ensures !VotesFor(Some(hash))(r) {
      assert Tallied(tallies, r.hash.value);
    }
    FilterNone(votes, VotesFor(Some(hash)));
  }

  lemma {:induction false} CountSound(votes: seq<FetchResult>)
    requires AllVote(votes)
    ensures Sound(Count(votes), votes)
  {
    if votes != [] {
      var front, last := votes[..|votes| - 1], votes[|votes| - 1];
      assert votes == front + [last];
      CountSound(front);
      VoteAdded(Count(front), front, last);
    }
  }

  lemma EmptyVote(cid: string, results: seq<FetchResult>)
    requires Filter(results, Succeeds()) == []
    ensures Vote(cid, results) ==
            ConsensusResult(cid, false, 0, |results|, None, None, [], NodeIds(Filter(results, Fails())))
  {
    assert Filter([], VotesAgainst(None)) == [];
  }

  lemma NoDisputeAmongOne(votes: seq<FetchResult>)
    requires |Count(votes)| <= 1 && AllVote(votes)
    ensures var winner := Winner(Count(votes));
            Filter(votes, VotesAgainst(if winner.Some? then Some(winner.value.hash) else None)) == []
  {
    CountSound(votes);
    var winner := Winner(Count(votes));
    var accepted := if winner.Some? then Some(winner.value.hash) else None;
    forall r | r in votes ensures !VotesAgainst(accepted)(r) {
      var t :| t in Count(votes) && t.hash == r.hash.value;
      assert t == Count(votes)[0] && t.nodes != [];
      assert winner.Some? && winner.value in Count(votes);
    }
    FilterNone(votes, VotesAgainst(accepted));
  }

  /** The CID has no influence on the outcome. */
  lemma CidIrrelevant(cid: string, round: Round, sha: Bytes -> string)
    ensures VoteOf(round, cid, sha) == VoteOf(round, "", sha).(cid := cid)
    ensures Filter(round.pool, Unblamed(VoteOf(round, cid, sha))) == LeftWith(sha)(round)
  {
    FilterAgree(round.pool, Unblamed(VoteOf(round, cid, sha)), Unblamed(VoteOf(round, "", sha)));
  }

  lemma VotesAllVote(results: seq<FetchResult>)
    requires WellFormed(results)
    ensures AllVote(Filter(results, Succeeds()))
    ensures forall r :: r in results ==> (Succeeds()(r) <==> !Fails()(r))
  {
  }

  /**
   * A vote splits the asked nodes exactly into matching, disputed and censoring ones, and the matching count is the
   * greatest frequency of any hash among the votes.
   */
  lemma VotePartition(cid: string, results: seq<FetchResult>)
    requires WellFormed(results)
    ensures var v, votes := Vote(cid, results), Filter(results, Succeeds());
            && v.matchingReplicas + |v.disputedNodes| + |v.censoringNodes| == |results|
            && multiset(NodeIds(Filter(votes, VotesFor(v.acceptedHash)))) + multiset(v.disputedNodes) +
               multiset(v.censoringNodes) == multiset(NodeIds(results))
            && (forall h :: Frequency(votes, h) <= v.matchingReplicas)
            && (v.acceptedHash.Some? ==> Frequency(votes, v.acceptedHash.value) == v.matchingReplicas)
            && (v.acceptedHash.None? <==> votes == []) && (v.matchingReplicas == 0 <==> votes == [])
  {
    var v, votes := Vote(cid, results), Filter(results, Succeeds());
    VotesAllVote(results);
    CountSound(votes);
    MatchingIsGreatest(cid, results);
    SplitIds(results, Succeeds(), Fails());
    SplitIds(votes, VotesFor(v.acceptedHash), VotesAgainst(v.acceptedHash));
  }

  lemma MatchingIsGreatest(cid: string, results: seq<FetchResult>)
    requires Sound(Count(Filter(results, Succeeds())), Filter(results, Succeeds())) && WellFormed(results)
    ensures var v, votes := Vote(cid, results), Filter(results, Succeeds());
            && v.matchingReplicas == |Filter(votes, VotesFor(v.acceptedHash))|
            && (forall h :: Frequency(votes, h) <= v.matchingReplicas)
            && (v.acceptedHash.None? <==> votes == []) && (v.matchingReplicas == 0 <==> votes == [])
  {
    var votes := Filter(results, Succeeds());
    var tallies := Count(votes);
    WinnerMatches(tallies, votes);
    forall h ensures Frequency(votes, h) <= MostOf(tallies) {
      FrequencyBounded(tallies, votes, h);
    }
  }

  /** The most votes any hash has. */
  function MostOf(tallies: seq<Tally>): nat
  {
    var winner := Winner(tallies);
    if winner.Some? then |winner.value.nodes| else 0
  }

  lemma WinnerMatches(tallies: seq<Tally>, votes: seq<FetchResult>)
    requires Sound(tallies, votes)
    ensures var winner := Winner(tallies);
            var accepted := if winner.Some? then Some(winner.value.hash) else None;
            && MostOf(tallies) == |Filter(votes, VotesFor(accepted))| && (winner.None? <==> votes == [])
            && (MostOf(tallies) == 0 <==> votes == [])
  {
    var winner := Winner(tallies);
    assert tallies != [] ==> tallies[0] in tallies && tallies[0].nodes != [];
    assert votes != [] ==> votes[0] in votes;
    if winner.Some? {
      assert winner.value.nodes == Voters(votes)(winner.value.hash);
    } else {
      FilterNone(votes, VotesFor(None));
    }
  }

  lemma FrequencyBounded(tallies: seq<Tally>, votes: seq<FetchResult>, h: string)
    requires Sound(tallies, votes)
    ensures Frequency(votes, h) <= MostOf(tallies)
  {
    if forall t :: t in tallies ==> t.hash != h {
      NoVotersYet(tallies, votes, h);
    } else {
      var t :| t in tallies && t.hash == h;
      assert t.nodes == Voters(votes)(h);
    }
  }

  /** Like `FilterSplit`, for the node ids and for predicates that are opposite on the list only. */
  lemma {:induction false} SplitIds(results: seq<FetchResult>, p: FetchResult -> bool, q: FetchResult -> bool)
    requires forall r :: r in results ==> (p(r) <==> !q(r))
    ensures |Filter(results, p)| + |Filter(results, q)| == |results|
    ensures multiset(NodeIds(Filter(results, p))) + multiset(NodeIds(Filter(results, q))) == multiset(NodeIds(results))
  {
    if results != [] {
      var front, last := results[..|results| - 1], results[|results| - 1];
      assert results == front + [last];
      SplitIds(front, p, q);
      IdsGrow(front, last);
      IdsGrow(Filter(front, p), last);
      IdsGrow(Filter(front, q), last);
    }
  }

  lemma IdsGrow(results: seq<FetchResult>, r: FetchResult)
    ensures NodeIds(results + [r]) == NodeIds(results) + [r.nodeId]
  {
  }

  /** A vote fails exactly when no two nodes agree and no single one is a majority by itself. */
  lemma FailureMeansDisagreement(cid: string, results: seq<FetchResult>)
    requires WellFormed(results)
    ensures !Vote(cid, results).consensus <==>
            && (forall h :: Frequency(Filter(results, Succeeds()), h) <= 1)
            && (|results| != 1 || Filter(results, Succeeds()) == [])
  {
    VotePartition(cid, results);
    var v, votes := Vote(cid, results), Filter(results, Succeeds());
    assert v.matchingReplicas <= |results|;
    assert v.acceptedHash.Some? ==> Frequency(votes, v.acceptedHash.value) == v.matchingReplicas;
  }

  /** The tallies stand in the order in which their hashes first appear, each with the bytes of that first vote. */
  ghost predicate InOrderOfAppearance(tallies: seq<Tally>, votes: seq<FetchResult>, firsts: seq<nat>)
  {
    && |firsts| == |tallies|
    && (forall i :: 0 <= i < |firsts| ==> FirstFor(votes, firsts[i], tallies[i].hash, tallies[i].ciphertext))
    && (forall i, j :: 0 <= i < j < |firsts| ==> firsts[i] < firsts[j])
  }

  /** Vote `k` is the first one for the hash, and brings these bytes. */
  ghost predicate FirstFor(votes: seq<FetchResult>, k: nat, hash: string, bytes: Bytes)
  {
    && k < |votes| && votes[k].hash == Some(hash) && votes[k].ciphertext == Some(bytes)
    && forall l :: 0 <= l < k ==> votes[l].hash != Some(hash)
  }

  lemma {:induction false} CountInOrder(votes: seq<FetchResult>) returns (firsts: seq<nat>)
    requires AllVote(votes)
    ensures InOrderOfAppearance(Count(votes), votes, firsts)
  {
    firsts := [];
    if votes != [] {
      var front, last := votes[..|votes| - 1], votes[|votes| - 1];
      assert votes == front + [last];
      firsts := CountInOrder(front);
      CountSound(front);
      if exists t :: t in Count(front) && t.hash == last.hash.value {
        OrderKept(Count(front), front, last, firsts);
      } else {
        OrderGrows(Count(front), front, last, firsts);
        firsts := firsts + [|front|];
      }
    }
  }

  lemma OrderKept(tallies: seq<Tally>, votes: seq<FetchResult>, vote: FetchResult, firsts: seq<nat>)
    requires InOrderOfAppearance(tallies, votes, firsts) && vote.hash.Some? && vote.ciphertext.Some?
    requires exists t :: t in tallies && t.hash == vote.hash.value
    ensures InOrderOfAppearance(AddVote(tallies, vote), votes + [vote], firsts)
  {
    forall i | 0 <= i < |firsts| ensures FirstFor(votes + [vote], firsts[i], tallies[i].hash, tallies[i].ciphertext) {
    }
  }

  lemma OrderGrows(tallies: seq<Tally>, votes: seq<FetchResult>, vote: FetchResult, firsts: seq<nat>)
    requires InOrderOfAppearance(tallies, votes, firsts) && Sound(tallies, votes)
    requires vote.hash.Some? && vote.ciphertext.Some? && forall t :: t in tallies ==> t.hash != vote.hash.value
    ensures InOrderOfAppearance(AddVote(tallies, vote), votes + [vote], firsts + [|votes|])
  {
    NoVoteYet(tallies, votes, vote.hash.value);
    OrderAppended(tallies, Tally(vote.hash.value, [vote.nodeId], vote.ciphertext.value), votes, vote, firsts);
  }

  lemma OrderAppended(tallies: seq<Tally>, tally: Tally, votes: seq<FetchResult>, vote: FetchResult, firsts: seq<nat>)
    requires InOrderOfAppearance(tallies, votes, firsts)
    requires vote.hash == Some(tally.hash) && vote.ciphertext == Some(tally.ciphertext)
    requires forall l :: 0 <= l < |votes| ==> votes[l].hash != vote.hash
    ensures InOrderOfAppearance(tallies + [tally], votes + [vote], firsts + [|votes|])
  {
    forall i | 0 <= i < |firsts| ensures FirstFor(votes + [vote], firsts[i], tallies[i].hash, tallies[i].ciphertext) {
    }
    assert FirstFor(votes + [vote], |votes|, tally.hash, tally.ciphertext);
  }

  lemma NoVoteYet(tallies: seq<Tally>, votes: seq<FetchResult>, hash: string)
    requires Sound(tallies, votes) && forall t :: t in tallies ==> t.hash != hash
    ensures forall l :: 0 <= l < |votes| ==> votes[l].hash != Some(hash)
  {
    forall l | 0 <= l < |votes| ensures votes[l].hash != Some(hash) {
      assert votes[l] in votes;
      assert Tallied(tallies, votes[l].hash.value);
    }
  }

  /**
   * Which hash a vote accepts, and with which bytes: one that no other hash exceeds in votes, and of those the one that
   * appears first; the bytes are those of the first vote for it.
   */
  ghost predicate Accepts(votes: seq<FetchResult>, hash: string, bytes: Bytes, most: nat)
  {
    && Frequency(votes, hash) == most && (forall h :: Frequency(votes, h) <= most)
    && exists k: nat :: FirstFor(votes, k, hash, bytes) &&
                   forall l :: 0 <= l < k && votes[l].hash.Some? ==> Frequency(votes, votes[l].hash.value) < most
  }

  lemma VoteAccepts(cid: string, results: seq<FetchResult>)
    requires WellFormed(results)
    ensures var v, votes := Vote(cid, results), Filter(results, Succeeds());
            && (v.acceptedHash.Some? <==> votes != []) && (v.ciphertext.Some? <==> votes != [])
            && (votes != [] ==> Accepts(votes, v.acceptedHash.value, v.ciphertext.value, v.matchingReplicas))
            && (v.consensus <==> v.matchingReplicas >= 2 || 2 * v.matchingReplicas > |results|)
            && v.cid == cid && v.totalReplicas == |results|
  {
    var votes := Filter(results, Succeeds());
    VotePartition(cid, results);
    VotesAllVote(results);
    CountSound(votes);
    if votes != [] {
      var firsts := CountInOrder(votes);
      FirstOfTheMost(Count(votes), votes, firsts);
    }
  }

  lemma FirstOfTheMost(tallies: seq<Tally>, votes: seq<FetchResult>, firsts: seq<nat>)
    requires Sound(tallies, votes) && InOrderOfAppearance(tallies, votes, firsts) && Winner(tallies).Some?
    ensures var w := Winner(tallies).value;
            exists k: nat :: FirstFor(votes, k, w.hash, w.ciphertext) &&
                        forall l :: 0 <= l < k && votes[l].hash.Some? ==>
                                      Frequency(votes, votes[l].hash.value) < |w.nodes|
  {
    var w := Winner(tallies).value;
    var i :| 0 <= i < |tallies| && tallies[i] == w && forall j :: 0 <= j < i ==> |tallies[j].nodes| < |w.nodes|;
    forall l | 0 <= l < firsts[i] && votes[l].hash.Some? ensures Frequency(votes, votes[l].hash.value) < |w.nodes| {
      var j := EarlierTally(tallies, votes, firsts, i, l);
    }
    assert FirstFor(votes, firsts[i], w.hash, w.ciphertext);
  }

  lemma EarlierTally(tallies: seq<Tally>, votes: seq<FetchResult>, firsts: seq<nat>, i: nat, l: nat) returns (j: nat)
    requires Sound(tallies, votes) && InOrderOfAppearance(tallies, votes, firsts)
    requires i < |firsts| && l < firsts[i] && l < |votes| && votes[l].hash.Some?
    ensures j < i && tallies[j].hash == votes[l].hash.value && Frequency(votes, tallies[j].hash) == |tallies[j].nodes|
  {
    assert votes[l] in votes && Tallied(tallies, votes[l].hash.value);
    j :| 0 <= j < |tallies| && tallies[j].hash == votes[l].hash.value;
    AppearsBefore(tallies, votes, firsts, i, j, l);
    assert tallies[j].nodes == Voters(votes)(tallies[j].hash);
  }

  lemma AppearsBefore(tallies: seq<Tally>, votes: seq<FetchResult>, firsts: seq<nat>, i: nat, j: nat, l: nat)
    requires InOrderOfAppearance(tallies, votes, firsts) && i < |firsts| && j < |firsts|
    requires l < firsts[i] && l < |votes| && votes[l].hash == Some(tallies[j].hash)
    ensures j < i
  {
    assert FirstFor(votes, firsts[j], tallies[j].hash, tallies[j].ciphertext);
    assert firsts[j] <= l;
  }

  // ---------------------------------------------------------------- the vote in terms of the replies

  /** The node answered with bytes of this hash. */
  function Answering(reply: string -> Reply, sha: Bytes -> string, hash: Option<string>): string -> bool
  {
    (n: string) => reply(n).Data? && Some(sha(reply(n).bytes)) == hash
  }

  lemma VotersAnswered(nodes: seq<string>, reply: string -> Reply, sha: Bytes -> string, hash: Option<string>)
    requires NonEmptyHashes(sha) && hash.Some?
    ensures var votes := Filter(ResultsOf(nodes, reply, sha), Succeeds());
            && NodeIds(Filter(votes, VotesFor(hash))) == Filter(nodes, Answering(reply, sha, hash))
            && |Filter(votes, VotesFor(hash))| == |Filter(nodes, Answering(reply, sha, hash))|
  {
    var voting := (r: FetchResult) => Succeeds()(r) && VotesFor(hash)(r);
    FilterTwice(ResultsOf(nodes, reply, sha), Succeeds(), VotesFor(hash), voting);
    KeptIds(nodes, reply, sha, voting, Answering(reply, sha, hash));
  }

  /** The nodes behind the results that are kept. */
  lemma KeptIds(
    nodes: seq<string>, reply: string -> Reply, sha: Bytes -> string, kept: FetchResult -> bool, asked: string -> bool)
    requires forall n :: kept(ResultOf(n, reply(n), sha)) == asked(n)
    ensures NodeIds(Filter(ResultsOf(nodes, reply, sha), kept)) == Filter(nodes, asked)
  {
    var result := (n: string) => ResultOf(n, reply(n), sha);
    FilterOfMap(nodes, result, kept, asked);
    assert NodeIds(Map(Filter(nodes, asked), result)) == Filter(nodes, asked);
  }

  /**
   * What a fetch returns, told by the replies alone. A hash is accepted exactly if some node answered. The accepted
   * hash is that of the bytes returned, which an asked node replied with; it is matched by the nodes whose bytes have
   * that hash, and no hash by more. The other answering nodes are disputed, the rest are censoring.
   */
  ghost predicate Agrees(nodes: seq<string>, reply: string -> Reply, sha: Bytes -> string, v: ConsensusResult)
  {
    && (v.acceptedHash.Some? <==> exists n :: n in nodes && reply(n).Data?)
    && (v.acceptedHash.Some? <==> v.ciphertext.Some?)
    && (v.acceptedHash.Some? ==>
          && sha(v.ciphertext.value) == v.acceptedHash.value
          && exists n :: n in nodes && reply(n) == Data(v.ciphertext.value))
    && v.matchingReplicas == |Filter(nodes, Answering(reply, sha, v.acceptedHash))|
    && (forall h :: |Filter(nodes, Answering(reply, sha, Some(h)))| <= v.matchingReplicas)
    && v.disputedNodes ==
       Filter(nodes, (n: string) => reply(n).Data? && Some(sha(reply(n).bytes)) != v.acceptedHash)
    && v.censoringNodes == Filter(nodes, (n: string) => !reply(n).Data?)
    && v.totalReplicas == |nodes| && (v.consensus <==> v.matchingReplicas >= 2 || 2 * v.matchingReplicas > |nodes|)
  }

  lemma FetchAgrees(cid: string, nodes: seq<string>, reply: string -> Reply, sha: Bytes -> string)
    requires NonEmptyHashes(sha)
    ensures Agrees(nodes, reply, sha, Vote(cid, ResultsOf(nodes, reply, sha)))
  {
    var results := ResultsOf(nodes, reply, sha);
    var v, votes := Vote(cid, results), Filter(results, Succeeds());
    ResultsWellFormed(nodes, reply, sha);
    VoteAccepts(cid, results);
    VotePartition(cid, results);
    SomeoneAnswers(nodes, reply, sha);
    BytesWereReplied(nodes, reply, sha, v);
    OthersListed(cid, nodes, reply, sha);
    forall h ensures |Filter(nodes, Answering(reply, sha, Some(h)))| == Frequency(votes, h) {
      VotersAnswered(nodes, reply, sha, Some(h));
    }
    if v.acceptedHash.None? {
      FilterNone(nodes, Answering(reply, sha, None));
    }
  }

  lemma SomeoneAnswers(nodes: seq<string>, reply: string -> Reply, sha: Bytes -> string)
    requires NonEmptyHashes(sha)
    ensures Filter(ResultsOf(nodes, reply, sha), Succeeds()) != [] <==> exists n :: n in nodes && reply(n).Data?
  {
    var results := ResultsOf(nodes, reply, sha);
    var votes := Filter(results, Succeeds());
    if votes != [] {
      assert votes[0] in results;
      var i :| 0 <= i < |results| && results[i] == votes[0];
      assert nodes[i] in nodes && reply(nodes[i]).Data?;
    }
    if n :| n in nodes && reply(n).Data? {
      var i :| 0 <= i < |nodes| && nodes[i] == n;
      assert results[i] in votes;
    }
  }

  lemma BytesWereReplied(nodes: seq<string>, reply: string -> Reply, sha: Bytes -> string, v: ConsensusResult)
    requires var votes := Filter(ResultsOf(nodes, reply, sha), Succeeds());
             votes != [] ==>
               && v.acceptedHash.Some? && v.ciphertext.Some?
               && Accepts(votes, v.acceptedHash.value, v.ciphertext.value, v.matchingReplicas)
    ensures Filter(ResultsOf(nodes, reply, sha), Succeeds()) != [] ==>
              && sha(v.ciphertext.value) == v.acceptedHash.value
              && exists n :: n in nodes && reply(n) == Data(v.ciphertext.value)
  {
    var votes := Filter(ResultsOf(nodes, reply, sha), Succeeds());
    if votes != [] {
      var k: nat :| FirstFor(votes, k, v.acceptedHash.value, v.ciphertext.value);
      assert votes[k] in votes;
      var n := NodeBehind(nodes, reply, sha, votes[k]);
    }
  }

  lemma NodeBehind(nodes: seq<string>, reply: string -> Reply, sha: Bytes -> string, r: FetchResult)
    returns (n: string)
    requires r in ResultsOf(nodes, reply, sha)
    ensures n in nodes && r == ResultOf(n, reply(n), sha)
  {
    var results := ResultsOf(nodes, reply, sha);
    var i :| 0 <= i < |results| && results[i] == r;
    n := nodes[i];
  }

  lemma OthersListed(cid: string, nodes: seq<string>, reply: string -> Reply, sha: Bytes -> string)
    requires NonEmptyHashes(sha)
    ensures var v := Vote(cid, ResultsOf(nodes, reply, sha));
            && v.disputedNodes ==
               Filter(nodes, (n: string) => reply(n).Data? && Some(sha(reply(n).bytes)) != v.acceptedHash)
            && v.censoringNodes == Filter(nodes, (n: string) => !reply(n).Data?)
  {
    var v := Vote(cid, ResultsOf(nodes, reply, sha));
    KeptIds(nodes, reply, sha, Fails(), (n: string) => !reply(n).Data?);
    DisputingIds(nodes, reply, sha, v.acceptedHash);
  }

  lemma DisputingIds(nodes: seq<string>, reply: string -> Reply, sha: Bytes -> string, accepted: Option<string>)
    requires NonEmptyHashes(sha)
    ensures NodeIds(Filter(Filter(ResultsOf(nodes, reply, sha), Succeeds()), VotesAgainst(accepted))) ==
            Filter(nodes, (n: string) => reply(n).Data? && Some(sha(reply(n).bytes)) != accepted)
  {
    var against := (r: FetchResult) => Succeeds()(r) && VotesAgainst(accepted)(r);
    FilterTwice(ResultsOf(nodes, reply, sha), Succeeds(), VotesAgainst(accepted), against);
    KeptIds(nodes, reply, sha, against, (n: string) => reply(n).Data? && Some(sha(reply(n).bytes)) != accepted);
  }

  // ---------------------------------------------------------------- disputes and suspicions

  ghost predicate VotedFor(votes: seq<FetchResult>, hash: string)
  {
    exists r :: r in votes && r.hash == Some(hash)
  }

  /**
   * What a dispute records: for each hash voted for, and no other, the nodes that voted for it, in order; and what goes
   * to the log: how many hashes there are, and every voter once for each of its votes.
   */
  lemma DisputeMeans(votes: seq<FetchResult>)
    requires AllVote(votes)
    ensures var tallies := Count(votes);
            && (forall h :: h in ConflictsOf(tallies) <==> VotedFor(votes, h))
            && (forall h :: h in ConflictsOf(tallies) ==>
                              ConflictsOf(tallies)[h] == NodeIds(Filter(votes, VotesFor(Some(h)))))
            && |tallies| == |ConflictsOf(tallies)|
            && multiset(NodesOf(tallies)) == multiset(NodeIds(votes))
  {
    CountSound(votes);
    ConflictsAre(Count(votes), Voters(votes));
    NodesAreVoters(votes);
    forall h ensures Tallied(Count(votes), h) <==> VotedFor(votes, h) {
      if t :| t in Count(votes) && t.hash == h {
        assert t.nodes == Voters(votes)(h) != [];
        var r := Filter(votes, VotesFor(Some(h)))[0];
        assert r in Filter(votes, VotesFor(Some(h)));
      }
    }
  }

  lemma {:induction false} ConflictsAre(tallies: seq<Tally>, voters: string -> seq<string>)
    requires Lists(tallies, voters)
    ensures var conflicts := ConflictsOf(tallies);
            && (forall h :: h in conflicts <==> Tallied(tallies, h)) && |tallies| == |conflicts|
            && (forall h :: h in conflicts ==> conflicts[h] == voters(h))
  {
    if tallies != [] {
      var front, last := tallies[..|tallies| - 1], tallies[|tallies| - 1];
      assert tallies == front + [last];
      ConflictsAre(front, voters);
      TalliedSnoc(front, last);
      assert !Tallied(front, last.hash);
    }
  }

  lemma TalliedSnoc(tallies: seq<Tally>, tally: Tally)
    ensures forall h :: Tallied(tallies + [tally], h) <==> Tallied(tallies, h) || h == tally.hash
  {
    assert tally in tallies + [tally];
    forall h | Tallied(tallies, h) ensures Tallied(tallies + [tally], h) {
      var t :| t in tallies && t.hash == h;
      assert t in tallies + [tally];
    }
  }

  lemma {:induction false} NodesAreVoters(votes: seq<FetchResult>)
    requires AllVote(votes)
    ensures multiset(NodesOf(Count(votes))) == multiset(NodeIds(votes))
  {
    if votes != [] {
      var front, last := votes[..|votes| - 1], votes[|votes| - 1];
      assert votes == front + [last];
      NodesAreVoters(front);
      IdsGrow(front, last);
      VoterAdded(Count(front), last);
    }
  }

  lemma VoterAdded(tallies: seq<Tally>, vote: FetchResult)
    requires vote.hash.Some? && vote.ciphertext.Some?
    ensures multiset(NodesOf(AddVote(tallies, vote))) == multiset(NodesOf(tallies)) + multiset{vote.nodeId}
  {
    var at := FindIndex(tallies, (t: Tally) => t.hash == vote.hash.value);
    if at >= 0 {
      NodesOfChanged(tallies, at, tallies[at].(nodes := tallies[at].nodes + [vote.nodeId]), vote.nodeId);
    } else {
      var tally := Tally(vote.hash.value, [vote.nodeId], vote.ciphertext.value);
      assert (tallies + [tally])[..|tallies|] == tallies;
    }
  }

  lemma {:induction false} NodesOfChanged(tallies: seq<Tally>, at: nat, tally: Tally, nodeId: string)
    requires at < |tallies| && tally.nodes == tallies[at].nodes + [nodeId]
    ensures multiset(NodesOf(tallies[at := tally])) == multiset(NodesOf(tallies)) + multiset{nodeId}
  {
    var front, last, changed := tallies[..|tallies| - 1], tallies[|tallies| - 1], tallies[at := tally];
    if at < |tallies| - 1 {
      NodesOfChanged(front, at, tally, nodeId);
      assert changed[..|tallies| - 1] == front[at := tally];
    } else {
      assert changed[..|tallies| - 1] == front;
    }
  }

  /** There is a dispute exactly if two votes differ. */
  lemma DisputeIff(votes: seq<FetchResult>)
    requires AllVote(votes)
    ensures |Count(votes)| > 1 <==> Differ(votes)
  {
    DisputeMeans(votes);
    SeveralHashes(votes, ConflictsOf(Count(votes)).Keys);
  }

  lemma SeveralHashes(votes: seq<FetchResult>, hashes: set<string>)
    requires AllVote(votes) && forall h :: h in hashes <==> VotedFor(votes, h)
    ensures |hashes| > 1 <==> Differ(votes)
  {
    if |hashes| > 1 {
      var g :| g in hashes;
      assert |hashes - {g}| == |hashes| - 1;
      var h :| h in hashes - {g};
      var q :| q in votes && q.hash == Some(g);
      var r :| r in votes && r.hash == Some(h);
    }
    if q, r :| q in votes && r in votes && q.hash != r.hash {
      assert VotedFor(votes, q.hash.value) && VotedFor(votes, r.hash.value);
      SubsetSize({q.hash.value, r.hash.value}, hashes);
    }
  }

  /** What a vote writes to the log: that nobody voted, or a dispute with the number of hashes and all voters. */
  lemma AuditMeans(cid: string, results: seq<FetchResult>, now: int)
    requires WellFormed(results)
    ensures var votes, audit := Filter(results, Succeeds()), AuditOf(cid, results, now);
            && (votes == [] ==> audit == [ConsensusFailure(now, cid, |results|)])
            && (votes != [] && !Differ(votes) ==> audit == [])
            && (Differ(votes) ==>
                  && |audit| == 1 && audit[0].DisputeFound? && audit[0].timestamp == now && audit[0].cid == cid
                  && audit[0].hashCount == |set r | r in votes :: r.hash|
                  && multiset(audit[0].nodes) == multiset(NodeIds(votes)))
  {
    var votes := Filter(results, Succeeds());
    VotesAllVote(results);
    DisputeMeans(votes);
    DisputeIff(votes);
    HashesCounted(votes, ConflictsOf(Count(votes)).Keys);
  }

  ghost predicate Differ(votes: seq<FetchResult>)
  {
    exists q, r :: q in votes && r in votes && q.hash != r.hash
  }

  lemma HashesCounted(votes: seq<FetchResult>, hashes: set<string>)
    requires AllVote(votes) && forall h :: h in hashes <==> VotedFor(votes, h)
    ensures |hashes| == |set r | r in votes :: r.hash|
  {
    var some := set r | r in votes :: r.hash;
    forall h ensures h in hashes <==> Some(h) in some {
      if VotedFor(votes, h) {
        var r :| r in votes && r.hash == Some(h);
      }
    }
    SameSize(hashes, some);
  }

  lemma {:induction false} SameSize(hashes: set<string>, some: set<Option<string>>)
    requires None !in some && forall h :: h in hashes <==> Some(h) in some
    ensures |hashes| == |some|
  {
    assert forall o :: o in some ==> o.Some? && o.value in hashes;
    if h :| h in hashes {
      SameSize(hashes - {h}, some - {Some(h)});
    } else {
      assert some == {};
    }
  }

  /** Exactly the nodes that did not answer are suspected, in order: of refusing if they returned nothing. */
  lemma {:induction false} EventsMean(cid: string, nodes: seq<string>, reply: string -> Reply, now: int)
    ensures EventsOf(cid, nodes, reply, now) ==
            Map(Filter(nodes, (n: string) => !reply(n).Data?),
                (n: string) => CensorshipEvent(cid, n, now, if reply(n) == Nothing then Refusal else Timeout))
  {
    if nodes != [] {
      var front, last := nodes[..|nodes| - 1], nodes[|nodes| - 1];
      EventsMean(cid, front, reply, now);
    }
  }

  // ---------------------------------------------------------------- retries

  datatype Round = Round(pool: seq<string>, selected: seq<string>, reply: string -> Reply)

  function VoteOf(round: Round, cid: string, sha: Bytes -> string): ConsensusResult
  {
    Vote(cid, ResultsOf(round.selected, round.reply, sha))
  }

  function VoteWith(cid: string, sha: Bytes -> string): Round -> ConsensusResult
  {
    (round: Round) => VoteOf(round, cid, sha)
  }

  function Unblamed(result: ConsensusResult): string -> bool
  {
    (n: string) => n !in result.censoringNodes && n !in result.disputedNodes
  }

  /** The nodes a failed round leaves to choose from. */
  function PoolLeft(round: Round, sha: Bytes -> string): seq<string>
  {
    Filter(round.pool, Unblamed(VoteOf(round, "", sha)))
  }

  /** What a round leaves, with the hash fixed. */
  type Left = Round -> seq<string>

  function LeftWith(sha: Bytes -> string): Left
  {
    (round: Round) => PoolLeft(round, sha)
  }

  function PoolAfter(trace: seq<Round>, nodes: seq<string>, left: Left): seq<string>
  {
    if trace == [] then nodes else left(trace[|trace| - 1])
  }

  /** A round asks as many nodes of its pool as the factor says, or all of them if there are fewer. */
  ghost predicate Proper(round: Round, factor: nat)
  {
    && |round.selected| == (if factor < |round.pool| then factor else |round.pool|)
    && multiset(round.selected) <= multiset(round.pool)
  }

  /** The rounds of one call: each chooses from what the round before left. */
  ghost predicate Trace(trace: seq<Round>, nodes: seq<string>, factor: nat, left: Left)
  {
    && (forall k :: 0 <= k < |trace| ==> Proper(trace[k], factor))
    && (trace != [] ==> trace[0].pool == nodes)
    && (forall k, m :: 0 <= k && m == k + 1 < |trace| ==> trace[m].pool == left(trace[k]))
  }

  function PoolBefore(trace: seq<Round>, nodes: seq<string>, left: Left, k: nat): seq<string>
    requires k <= |trace|
  {
    if k == 0 then nodes else left(trace[k - 1])
  }

  /** All rounds but the last one failed. */
  ghost predicate AllButLastFail(trace: seq<Round>, vote: Round -> ConsensusResult)
  {
    forall k :: 0 <= k < |trace| - 1 ==> !vote(trace[k]).consensus
  }

  /** Between two attempts: all rounds so far failed, and the pool and the last result are those of the last round. */
  ghost predicate Retrying(
    trace: seq<Round>, nodes: seq<string>, factor: nat, left: Left, vote: Round -> ConsensusResult, pool: seq<string>,
    last: Option<ConsensusResult>)
  {
    && Trace(trace, nodes, factor, left) && pool == PoolAfter(trace, nodes, left)
    && (forall k :: 0 <= k < |trace| ==> !vote(trace[k]).consensus)
    && last == if trace == [] then None else Some(vote(trace[|trace| - 1]))
  }

  function EventsWith(cid: string, now: int): Round -> seq<CensorshipEvent>
  {
    (round: Round) => EventsOf(cid, round.selected, round.reply, now)
  }

  function AuditWith(cid: string, sha: Bytes -> string, now: int): Round -> seq<AuditEntry>
  {
    (round: Round) => AuditOfFetch(cid, round.selected, round.reply, sha, now)
  }

  /** What the rounds of a call leave behind, one after the other. */
  function OverTrace<T>(trace: seq<Round>, of: Round -> seq<T>): seq<T>
  {
    if trace == [] then [] else OverTrace(trace[..|trace| - 1], of) + of(trace[|trace| - 1])
  }

  /** Each round was answered by the replies of its attempt. */
  ghost predicate AnsweredBy(trace: seq<Round>, replies: nat -> string -> Reply)
  {
    forall k :: 0 <= k < |trace| ==> trace[k].reply == replies(k)
  }

  /** The rounds of a call have left exactly their suspicions and their log entries behind. */
  ghost predicate Recorded(
    events0: seq<CensorshipEvent>, log0: seq<AuditEntry>, events: seq<CensorshipEvent>, log: seq<AuditEntry>,
    trace: seq<Round>, eventsOf: Round -> seq<CensorshipEvent>, auditOf: Round -> seq<AuditEntry>)
  {
    events == events0 + OverTrace(trace, eventsOf) && log == LoggedAll(log0, OverTrace(trace, auditOf))
  }

  /** A call: what it is given, and what a round of it leaves, decides and leaves behind. */
  datatype Call = Call(
    nodes: seq<string>, factor: nat, replies: nat -> string -> Reply, retries: nat, left: Left,
    vote: Round -> ConsensusResult, eventsOf: Round -> seq<CensorshipEvent>, auditOf: Round -> seq<AuditEntry>)

  /** Between two attempts. */
  ghost predicate InProgress(
    call: Call, trace: seq<Round>, pool: seq<string>, last: Option<ConsensusResult>, events0: seq<CensorshipEvent>,
    log0: seq<AuditEntry>, events: seq<CensorshipEvent>, log: seq<AuditEntry>)
  {
    && Retrying(trace, call.nodes, call.factor, call.left, call.vote, pool, last) && AnsweredBy(trace, call.replies)
    && Recorded(events0, log0, events, log, trace, call.eventsOf, call.auditOf)
  }

  /**
   * What a call returns: a trace of rounds, no more than the retries, each over the pool the round before left, all
   * failed but possibly the last, whose vote is the result; only success ends it early, and exactly its records are
   * left behind.
   */
  ghost predicate Outcome(
    call: Call, trace: seq<Round>, result: ConsensusResult, events0: seq<CensorshipEvent>, log0: seq<AuditEntry>,
    events: seq<CensorshipEvent>, log: seq<AuditEntry>)
  {
    && Trace(trace, call.nodes, call.factor, call.left) && AnsweredBy(trace, call.replies)
    && |trace| <= call.retries && AllButLastFail(trace, call.vote)
    && (trace != [] ==> result == call.vote(trace[|trace| - 1]))
    && (result.consensus || |trace| == call.retries)
    && Recorded(events0, log0, events, log, trace, call.eventsOf, call.auditOf)
  }

  lemma GoesOn(
    call: Call, trace: seq<Round>, round: Round, pool: seq<string>, last: Option<ConsensusResult>,
    events0: seq<CensorshipEvent>, log0: seq<AuditEntry>, events: seq<CensorshipEvent>, log: seq<AuditEntry>)
    requires InProgress(call, trace, pool, last, events0, log0, events, log) && |trace| < call.retries
    requires Proper(round, call.factor) && round.pool == pool && round.reply == call.replies(|trace|)
    ensures var longer, events', log' := trace + [round], events + call.eventsOf(round),
                LoggedAll(log, call.auditOf(round));
            && (call.vote(round).consensus ==> Outcome(call, longer, call.vote(round), events0, log0, events', log'))
            && (!call.vote(round).consensus ==>
                  InProgress(call, longer, call.left(round), Some(call.vote(round)), events0, log0, events', log'))
  {
    RetryingOn(trace, round, call.nodes, call.factor, call.left, call.vote, pool, last);
    AnsweredOn(trace, round, call.replies);
    RecordedOn(events0, log0, events, log, trace, round, call.eventsOf, call.auditOf);
  }

  lemma RetryingOn(
    trace: seq<Round>, round: Round, nodes: seq<string>, factor: nat, left: Left, vote: Round -> ConsensusResult,
    pool: seq<string>, last: Option<ConsensusResult>)
    requires Retrying(trace, nodes, factor, left, vote, pool, last) && Proper(round, factor) && round.pool == pool
    ensures var longer := trace + [round];
            && Trace(longer, nodes, factor, left) && AllButLastFail(longer, vote)
            && longer[|longer| - 1] == round
            && (!vote(round).consensus ==> Retrying(longer, nodes, factor, left, vote, left(round), Some(vote(round))))
  {
    TraceOn(trace, round, nodes, factor, left, vote, pool, last);
  }

  lemma TraceOn(
    trace: seq<Round>, round: Round, nodes: seq<string>, factor: nat, left: Left, vote: Round -> ConsensusResult,
    pool: seq<string>, last: Option<ConsensusResult>)
    requires Retrying(trace, nodes, factor, left, vote, pool, last) && Proper(round, factor) && round.pool == pool
    ensures Trace(trace + [round], nodes, factor, left) && PoolAfter(trace + [round], nodes, left) == left(round)
  {
  }

  lemma AnsweredOn(trace: seq<Round>, round: Round, replies: nat -> string -> Reply)
    requires AnsweredBy(trace, replies) && round.reply == replies(|trace|)
    ensures AnsweredBy(trace + [round], replies)
  {
  }

  lemma RecordedOn(
    events0: seq<CensorshipEvent>, log0: seq<AuditEntry>, events: seq<CensorshipEvent>, log: seq<AuditEntry>,
    trace: seq<Round>, round: Round, eventsOf: Round -> seq<CensorshipEvent>, auditOf: Round -> seq<AuditEntry>)
    requires Recorded(events0, log0, events, log, trace, eventsOf, auditOf)
    ensures Recorded(
              events0, log0, events + eventsOf(round), LoggedAll(log, auditOf(round)),
              trace + [round], eventsOf, auditOf)
  {
    assert (trace + [round])[..|trace|] == trace;
    LoggedAllConcat(log0, OverTrace(trace, auditOf), auditOf(round));
  }

  lemma ResultsWellFormed(nodes: seq<string>, reply: string -> Reply, sha: Bytes -> string)
    requires NonEmptyHashes(sha)
    ensures WellFormed(ResultsOf(nodes, reply, sha)) && NodeIds(ResultsOf(nodes, reply, sha)) == nodes
  {
  }

  /** What a call returns is what its last round agreed on, with bytes that a node of the call replied with. */
  lemma ReturnedAgrees(
    call: Call, trace: seq<Round>, result: ConsensusResult, events0: seq<CensorshipEvent>, log0: seq<AuditEntry>,
    events: seq<CensorshipEvent>, log: seq<AuditEntry>, cid: string, sha: Bytes -> string)
    requires NonEmptyHashes(sha) && trace != [] && call.left == LeftWith(sha) && call.vote == VoteWith(cid, sha)
    requires Outcome(call, trace, result, events0, log0, events, log)
    ensures var last := |trace| - 1;
            trace[last].reply == call.replies(last) && Agrees(trace[last].selected, call.replies(last), sha, result)
    ensures result.acceptedHash.Some? ==>
              && result.ciphertext.Some? && sha(result.ciphertext.value) == result.acceptedHash.value
              && exists k, n :: 0 <= k < call.retries && n in call.nodes &&
                                call.replies(k)(n) == Data(result.ciphertext.value)
  {
    var last := |trace| - 1;
    FetchAgrees(cid, trace[last].selected, trace[last].reply, sha);
    if result.acceptedHash.Some? {
      var n :| n in trace[last].selected && call.replies(last)(n) == Data(result.ciphertext.value);
      assert Proper(trace[last], call.factor);
      assert n in multiset(trace[last].selected) && n in multiset(trace[last].pool);
      PoolsWithin(trace, call.nodes, call.factor, call.left, last, n);
    }
  }

  lemma {:induction false} PoolsWithin(
    trace: seq<Round>, nodes: seq<string>, factor: nat, left: Left, k: nat, n: string)
    requires Trace(trace, nodes, factor, left) && k < |trace| && n in trace[k].pool
    requires forall round, x :: x in left(round) ==> x in round.pool
    ensures n in nodes
  {
    if k > 0 {
      assert trace[k].pool == left(trace[k - 1]);
      PoolsWithin(trace, nodes, factor, left, k - 1, n);
    }
  }

  ghost function Blamed(round: Round, sha: Bytes -> string): set<string>
  {
    Elements(VoteOf(round, "", sha).censoringNodes) + Elements(VoteOf(round, "", sha).disputedNodes)
  }

  /** The blamed nodes of a round are asked nodes, and all of them but the matching ones. */
  lemma BlamedCount(round: Round, sha: Bytes -> string)
    requires NonEmptyHashes(sha) && NoDup(round.selected)
    ensures Blamed(round, sha) <= Elements(round.selected)
    ensures |Blamed(round, sha)| == |round.selected| - VoteOf(round, "", sha).matchingReplicas
  {
    var results, v := ResultsOf(round.selected, round.reply, sha), VoteOf(round, "", sha);
    ResultsWellFormed(round.selected, round.reply, sha);
    VotePartition("", results);
    var matching := NodeIds(Filter(Filter(results, Succeeds()), VotesFor(v.acceptedHash)));
    PartsDistinct(matching, v.disputedNodes, v.censoringNodes, round.selected);
  }

  /** Two parts of a list without duplicates have none either, and share nothing. */
  lemma PartsDistinct(rest: seq<string>, a: seq<string>, b: seq<string>, all: seq<string>)
    requires NoDup(all) && multiset(rest) + multiset(a) + multiset(b) == multiset(all)
    ensures Elements(b) + Elements(a) <= Elements(all) && |Elements(b) + Elements(a)| == |a| + |b|
  {
    NoDupMultiset(all);
    NoDupMultiset(a);
    NoDupMultiset(b);
    forall x ensures multiset(a)[x] + multiset(b)[x] <= multiset(all)[x] <= 1 {
      assert (multiset(rest) + multiset(a) + multiset(b))[x] == multiset(all)[x];
    }
    NoDupSize(a);
    NoDupSize(b);
    forall x | x in Elements(b) + Elements(a) ensures x in all {
      assert x in multiset(all);
    }
    forall x | x in Elements(a) ensures x !in Elements(b) {
      assert multiset(a)[x] == 1;
    }
  }

  /**
   * A failed round over distinct nodes leaves at most one of the nodes it asked in the pool, and a pool that is not
   * empty becomes strictly smaller.
   */
  lemma FailedRoundShrinks(round: Round, factor: nat, sha: Bytes -> string)
    requires NonEmptyHashes(sha) && NoDup(round.pool) && Proper(round, factor)
    requires !VoteOf(round, "", sha).consensus
    ensures NoDup(PoolLeft(round, sha))
    ensures |PoolLeft(round, sha)| == |round.pool| - |round.selected| + VoteOf(round, "", sha).matchingReplicas
    ensures |Elements(PoolLeft(round, sha)) * Elements(round.selected)| <= 1
    ensures factor > 0 && round.pool != [] ==> |PoolLeft(round, sha)| < |round.pool|
  {
    SelectedNoDup(round.selected, round.pool);
    BlamedCount(round, sha);
    LeftElements(round, sha);
    FailedVoteMatches(round, sha);
    NoDupSize(round.pool);
    NoDupSize(PoolLeft(round, sha));
    NoDupSize(round.selected);
    WithoutBlamed(Elements(round.pool), Elements(round.selected), Blamed(round, sha));
  }

  lemma LeftElements(round: Round, sha: Bytes -> string)
    requires NoDup(round.pool)
    ensures NoDup(PoolLeft(round, sha)) && Elements(PoolLeft(round, sha)) == Elements(round.pool) - Blamed(round, sha)
  {
    FilterNoDup(round.pool, Unblamed(VoteOf(round, "", sha)));
  }

  lemma WithoutBlamed(pool: set<string>, selected: set<string>, blamed: set<string>)
    requires blamed <= selected <= pool
    ensures |pool - blamed| == |pool| - |blamed|
    ensures |(pool - blamed) * selected| == |selected| - |blamed|
  {
    assert (pool - blamed) * selected == selected - blamed;
    assert pool == (pool - blamed) + blamed && selected == (selected - blamed) + blamed;
  }

  lemma FailedVoteMatches(round: Round, sha: Bytes -> string)
    requires !VoteOf(round, "", sha).consensus
    ensures VoteOf(round, "", sha).matchingReplicas <= 1
    ensures round.selected != [] ==> VoteOf(round, "", sha).matchingReplicas < |round.selected|
  {
    assert VoteOf(round, "", sha).totalReplicas == |round.selected|;
  }

  lemma SelectedNoDup(selected: seq<string>, pool: seq<string>)
    requires NoDup(pool) && multiset(selected) <= multiset(pool)
    ensures NoDup(selected) && Elements(selected) <= Elements(pool)
  {
    forall x | x in selected ensures x in pool {
      assert x in multiset(pool);
    }
    NoDupMultiset(pool);
    NoDupMultiset(selected);
  }

  /** The first `n` rounds failed. */
  ghost predicate FailsUntil(trace: seq<Round>, n: nat, sha: Bytes -> string)
  {
    forall k :: 0 <= k < n && k < |trace| ==> !VoteOf(trace[k], "", sha).consensus
  }

  /** Every failed round takes at least one node out of a pool that is not empty. */
  lemma {:induction false} PoolsShrink(trace: seq<Round>, nodes: seq<string>, factor: nat, sha: Bytes -> string, k: nat)
    requires NonEmptyHashes(sha) && NoDup(nodes) && Trace(trace, nodes, factor, LeftWith(sha)) && k <= |trace|
    requires FailsUntil(trace, k, sha) && factor > 0
    ensures var pool := PoolBefore(trace, nodes, LeftWith(sha), k);
            NoDup(pool) && |pool| <= if k <= |nodes| then |nodes| - k else 0
  {
    if k > 0 {
      PoolsShrink(trace, nodes, factor, sha, k - 1);
      ShrinkOnce(trace[k - 1], factor, sha);
    }
  }

  lemma ShrinkOnce(round: Round, factor: nat, sha: Bytes -> string)
    requires NonEmptyHashes(sha) && NoDup(round.pool) && Proper(round, factor) && factor > 0
    requires !VoteOf(round, "", sha).consensus
    ensures NoDup(LeftWith(sha)(round)) && |LeftWith(sha)(round)| <= if round.pool == [] then 0 else |round.pool| - 1
  {
    FailedRoundShrinks(round, factor, sha);
  }

  lemma {:induction false} LeavesForGood(
    trace: seq<Round>, nodes: seq<string>, factor: nat, left: Left, i: nat, j: nat, n: string)
    requires Trace(trace, nodes, factor, left) && i < j < |trace| && n !in left(trace[i])
    requires forall round, x :: x in left(round) ==> x in round.pool
    ensures n !in trace[j].pool
  {
    assert trace[j].pool == left(trace[j - 1]);
    if i + 1 < j {
      LeavesForGood(trace, nodes, factor, left, i, j - 1, n);
    }
  }

  /** A node blamed in one round is in no later pool, so it is never asked again. */
  lemma BlamedNeverAskedAgain(
    trace: seq<Round>, nodes: seq<string>, factor: nat, sha: Bytes -> string, i: nat, j: nat, n: string)
    requires Trace(trace, nodes, factor, LeftWith(sha)) && i < j < |trace| && n in Blamed(trace[i], sha)
    ensures n !in trace[j].pool && n !in trace[j].selected
  {
    LeavesForGood(trace, nodes, factor, LeftWith(sha), i, j, n);
    assert Proper(trace[j], factor);
    assert n !in multiset(trace[j].pool);
    assert multiset(trace[j].selected)[n] <= multiset(trace[j].pool)[n];
  }

  /**
   * Given more retries than nodes, a call whose rounds before the last one failed has run out of nodes: its last round
   * asks nobody.
   */
  lemma EnoughRetries(trace: seq<Round>, nodes: seq<string>, factor: nat, sha: Bytes -> string)
    requires NonEmptyHashes(sha) && NoDup(nodes) && Trace(trace, nodes, factor, LeftWith(sha)) && factor > 0
    requires |trace| > |nodes| && FailsUntil(trace, |trace| - 1, sha)
    ensures trace[|trace| - 1].selected == []
  {
    PoolsShrink(trace, nodes, factor, sha, |trace| - 1);
    assert Proper(trace[|trace| - 1], factor);
  }
}
