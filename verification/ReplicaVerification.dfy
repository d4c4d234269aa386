/**
 * Checking that the replicas of a blob are online and can prove it (src/utils/replication-verification.ts). What each
 * replica answers is a parameter.
 */
module ReplicaVerification {
  import opened Sequences

  datatype ProofReply = Proof(valid: bool) | NoProof

  /**
   * How the replicas of one blob answer, by URL. A request that fails counts as an unhealthy node, no proof or no
   * blob.
   */
  datatype Answers = Answers(
    nodeIdOf: string -> string, healthy: string -> bool, proofOf: string -> ProofReply, hasBlob: string -> bool)

  datatype Problem = NodeOffline | InvalidProof | NoProofAvailable | BlobNotFound

  datatype ReplicaStatus = ReplicaStatus(
    nodeId: string, url: string, online: bool, hasValidProof: bool, problem: Option<Problem>)

  datatype Verification = Verification(
    totalReplicas: nat, onlineReplicas: nat, validProofs: nat, replicas: seq<ReplicaStatus>, sufficient: bool)

  /** The node is up and shows what is asked of it: a valid proof, or just the blob. */
  predicate Good(answers: Answers, verifyProofs: bool, url: string)
  {
    answers.healthy(url) && if verifyProofs then answers.proofOf(url) == Proof(true) else answers.hasBlob(url)
  }

  function Status(answers: Answers, verifyProofs: bool, url: string): ReplicaStatus
  {
    ReplicaStatus(
      answers.nodeIdOf(url), url, answers.healthy(url), Good(answers, verifyProofs, url),
      if Good(answers, verifyProofs, url) then None
      else if !answers.healthy(url) then Some(NodeOffline)
      else if !verifyProofs then Some(BlobNotFound)
      else if answers.proofOf(url).Proof? then Some(InvalidProof)
      else Some(NoProofAvailable))
  }

  function StatusOf(answers: Answers, verifyProofs: bool): string -> ReplicaStatus
  {
    (url: string) => Status(answers, verifyProofs, url)
  }

  function IsGood(answers: Answers, verifyProofs: bool): string -> bool
  {
    (url: string) => Good(answers, verifyProofs, url)
  }

  function Verified(answers: Answers, urls: seq<string>, required: int, verifyProofs: bool): Verification
  {
    var online, valid := |Filter(urls, answers.healthy)|, |Filter(urls, IsGood(answers, verifyProofs))|;
    Verification(
      |urls|, online, valid, Map(urls, StatusOf(answers, verifyProofs)),
      if verifyProofs then valid >= required else online >= required)
  }

  // ---------------------------------------------------------------- the code

  method CheckReplica(answers: Answers, nodeUrl: string, verifyProof: bool) returns (status: ReplicaStatus)
    ensures status == Status(answers, verifyProof, nodeUrl)
    ensures status.nodeId == answers.nodeIdOf(nodeUrl) && status.url == nodeUrl
    ensures status.online == answers.healthy(nodeUrl)
    ensures status.hasValidProof <==>
            answers.healthy(nodeUrl) &&
            (if verifyProof then answers.proofOf(nodeUrl) == Proof(true) else answers.hasBlob(nodeUrl))
    ensures status.problem.None? <==> status.hasValidProof
    ensures status.problem == Some(NodeOffline) <==> !answers.healthy(nodeUrl)
    ensures status.problem == Some(BlobNotFound) <==>
            answers.healthy(nodeUrl) && !verifyProof && !answers.hasBlob(nodeUrl)
    ensures status.problem == Some(InvalidProof) <==>
            answers.healthy(nodeUrl) && verifyProof && answers.proofOf(nodeUrl) == Proof(false)
    ensures status.problem == Some(NoProofAvailable) <==>
            answers.healthy(nodeUrl) && verifyProof && answers.proofOf(nodeUrl) == NoProof
  {
    status := ReplicaStatus(answers.nodeIdOf(nodeUrl), nodeUrl, false, false, None);
    var isOnline := answers.healthy(nodeUrl);
    status := status.(online := isOnline);
    if !isOnline {
      return status.(problem := Some(NodeOffline));
    }
    if verifyProof {
      match answers.proofOf(nodeUrl) {
        case Proof(valid) =>
          status := status.(hasValidProof := valid);
          if !valid {
            status := status.(problem := Some(InvalidProof));
          }
        case NoProof => status := status.(problem := Some(NoProofAvailable));
      }
    } else {
      var hasBlob := answers.hasBlob(nodeUrl);
      status := status.(hasValidProof := hasBlob);
      if !hasBlob {
        status := status.(problem := Some(BlobNotFound));
      }
    }
  }

  method VerifyReplication(answers: Answers, replicaNodes: seq<string>, requiredReplicas: int, verifyProofs: bool)
    returns (result: Verification)
    ensures result == Verified(answers, replicaNodes, requiredReplicas, verifyProofs)
    ensures result.onlineReplicas == |Filter(replicaNodes, answers.healthy)|
    ensures verifyProofs ==>
              && result.validProofs ==
                 |Filter(replicaNodes, (url: string) => answers.healthy(url) && answers.proofOf(url) == Proof(true))|
              && (result.sufficient <==> result.validProofs >= requiredReplicas)
    ensures !verifyProofs ==> (result.sufficient <==> result.onlineReplicas >= requiredReplicas)
  {
    var replicas: seq<ReplicaStatus> := [];
    var onlineCount, validProofCount := 0, 0;
    for k := 0 to |replicaNodes|
      invariant (replicas, onlineCount, validProofCount) == Checked(replicaNodes[..k], StatusOf(answers, verifyProofs))
    {
      assert replicaNodes[..k + 1][..k] == replicaNodes[..k];
      var status := CheckReplica(answers, replicaNodes[k], verifyProofs);
      replicas := replicas + [status];
      if status.online {
        onlineCount := onlineCount + 1;
      }
      if status.hasValidProof {
        validProofCount := validProofCount + 1;
      }
    }
    assert replicaNodes[..|replicaNodes|] == replicaNodes;
    CheckedReplicas(replicaNodes, StatusOf(answers, verifyProofs));
    CheckedOnline(replicaNodes, StatusOf(answers, verifyProofs), answers.healthy);
    CheckedValid(replicaNodes, StatusOf(answers, verifyProofs), IsGood(answers, verifyProofs));
    FilterAgree(replicaNodes, IsGood(answers, true),
                (url: string) => answers.healthy(url) && answers.proofOf(url) == Proof(true));
    var sufficient := if verifyProofs then validProofCount >= requiredReplicas else onlineCount >= requiredReplicas;
    result := Verification(|replicaNodes|, onlineCount, validProofCount, replicas, sufficient);
  }

  /** The statuses and the two counters after some URLs. */
  ghost function Checked(urls: seq<string>, status: string -> ReplicaStatus): (seq<ReplicaStatus>, nat, nat)
  {
    if urls == [] then ([], 0, 0)
    else
      var (replicas, online, valid) := Checked(urls[..|urls| - 1], status);
      var last := status(urls[|urls| - 1]);
      (replicas + [last], if last.online then online + 1 else online, if last.hasValidProof then valid + 1 else valid)
  }

  lemma {:induction false} CheckedReplicas(urls: seq<string>, status: string -> ReplicaStatus)
    ensures Checked(urls, status).0 == Map(urls, status)
  {
    if urls != [] {
      CheckedReplicas(urls[..|urls| - 1], status);
    }
  }

  lemma {:induction false} CheckedOnline(urls: seq<string>, status: string -> ReplicaStatus, online: string -> bool)
    requires forall url :: status(url).online == online(url)
    ensures Checked(urls, status).1 == |Filter(urls, online)|
  {
    if urls != [] {
      CheckedOnline(urls[..|urls| - 1], status, online);
    }
  }

  lemma {:induction false} CheckedValid(urls: seq<string>, status: string -> ReplicaStatus, good: string -> bool)
    requires forall url :: status(url).hasValidProof == good(url)
    ensures Checked(urls, status).2 == |Filter(urls, good)|
  {
    if urls != [] {
      CheckedValid(urls[..|urls| - 1], status, good);
    }
  }

  function Active(): ReplicaStatus -> bool
  {
    (r: ReplicaStatus) => r.online && r.hasValidProof
  }

  function Failed(): ReplicaStatus -> bool
  {
    (r: ReplicaStatus) => !r.online || !r.hasValidProof
  }

  function GetActiveReplicas(result: Verification): seq<ReplicaStatus>
  {
    Filter(result.replicas, Active())
  }

  function GetFailedReplicas(result: Verification): seq<ReplicaStatus>
  {
    Filter(result.replicas, Failed())
  }

  // ---------------------------------------------------------------- what a verification says

  /** The active replicas are the statuses of the good URLs, in order. */
  lemma ActiveAreGood(answers: Answers, verifyProofs: bool, urls: seq<string>)
    ensures Filter(Map(urls, StatusOf(answers, verifyProofs)), Active()) ==
            Map(Filter(urls, IsGood(answers, verifyProofs)), StatusOf(answers, verifyProofs))
  {
    FilterOfMap(urls, StatusOf(answers, verifyProofs), Active(), IsGood(answers, verifyProofs));
  }

  /**
   * Active and failed replicas split the checked ones exactly, the active ones are what `validProofs` counts, and with
   * proofs the verdict is that there are enough of them. Without proofs a node that lacks the blob still counts.
   */
  lemma VerdictCountsActive(answers: Answers, urls: seq<string>, required: int, verifyProofs: bool)
    ensures var r := Verified(answers, urls, required, verifyProofs);
            && multiset(GetActiveReplicas(r)) + multiset(GetFailedReplicas(r)) == multiset(r.replicas)
            && |GetActiveReplicas(r)| == r.validProofs <= r.onlineReplicas <= r.totalReplicas
            && |GetActiveReplicas(r)| + |GetFailedReplicas(r)| == r.totalReplicas
            && (verifyProofs ==> (r.sufficient <==> |GetActiveReplicas(r)| >= required))
            && (!verifyProofs ==> (|GetActiveReplicas(r)| >= required ==> r.sufficient))
  {
    var r := Verified(answers, urls, required, verifyProofs);
    FilterSplit(r.replicas, Active(), Failed());
    ActiveAreGood(answers, verifyProofs, urls);
    FewerGoodThanHealthy(answers, verifyProofs, urls);
  }

  lemma {:induction false} FewerGoodThanHealthy(answers: Answers, verifyProofs: bool, urls: seq<string>)
    ensures |Filter(urls, IsGood(answers, verifyProofs))| <= |Filter(urls, answers.healthy)|
  {
    if urls != [] {
      FewerGoodThanHealthy(answers, verifyProofs, urls[..|urls| - 1]);
    }
  }

  /** The nodes that really hold a valid copy, each counted once. */
  ghost function GoodNodes(answers: Answers, urls: seq<string>, verifyProofs: bool): set<string>
  {
    Elements(Filter(urls, IsGood(answers, verifyProofs)))
  }

  /**
   * A URL that is listed twice counts twice: the count is the number of distinct good nodes exactly when no good node
   * is repeated.
   */
  lemma CountsDistinctIff(answers: Answers, urls: seq<string>, required: int, verifyProofs: bool)
    ensures var r, good := Verified(answers, urls, required, verifyProofs), GoodNodes(answers, urls, verifyProofs);
            && |good| <= r.validProofs
            && (|good| == r.validProofs <==> NoDup(Filter(urls, IsGood(answers, verifyProofs))))
  {
    SizeIffNoDup(Filter(urls, IsGood(answers, verifyProofs)));
  }

  lemma {:induction false} SizeIffNoDup<T>(s: seq<T>)
    ensures |Elements(s)| <= |s|
    ensures |Elements(s)| == |s| <==> NoDup(s)
  {
    if s != [] {
      var front, last := s[..|s| - 1], s[|s| - 1];
      SizeIffNoDup(front);
      assert Elements(s) == Elements(front) + {last};
      if last in front {
        assert Elements(s) == Elements(front);
      } else {
        assert last !in Elements(front);
      }
    }
  }

  /** One good node listed twice passes for two replicas. */
  lemma RepeatedUrlPasses(answers: Answers, url: string)
    requires Good(answers, true, url)
    ensures Verified(answers, [url, url], 2, true).sufficient && |GoodNodes(answers, [url, url], true)| == 1
  {
    FilterAll([url, url], IsGood(answers, true));
    assert Elements([url, url]) == {url};
  }

  /** The verdict is right: it is given exactly if enough different nodes hold a valid copy. */
  ghost predicate Right(answers: Answers, urls: seq<string>, required: int)
  {
    Verified(answers, urls, required, true).sufficient <==> |GoodNodes(answers, urls, true)| >= required
  }

  lemma RightVerdict(answers: Answers, urls: seq<string>, required: int)
    requires NoDup(urls) || required <= 1 || |urls| < required
    ensures Right(answers, urls, required)
  {
    var good := Filter(urls, IsGood(answers, true));
    CountsDistinctIff(answers, urls, required, true);
    if NoDup(urls) {
      FilterNoDup(urls, IsGood(answers, true));
    } else if good != [] {
      assert good[0] in Elements(good);
    }
  }

  /** Exactly these nodes are up and prove their copy. */
  function OnlyGood(good: set<string>): Answers
  {
    Answers((url: string) => url, (url: string) => url in good, (url: string) => Proof(true), (url: string) => true)
  }

  lemma {:induction false} RepeatedKept(urls: seq<string>, i: nat, j: nat, good: string -> bool)
    requires i < j < |urls| && urls[i] == urls[j] && good(urls[i])
    ensures !NoDup(Filter(urls, good))
  {
    var front, last := urls[..|urls| - 1], urls[|urls| - 1];
    var kept := Filter(front, good);
    if j < |urls| - 1 {
      RepeatedKept(front, i, j, good);
      var k, l :| 0 <= k < l < |kept| && kept[k] == kept[l];
      assert Filter(urls, good)[k] == Filter(urls, good)[l];
    } else {
      assert front[i] == last;
      var k :| 0 <= k < |kept| && kept[k] == last;
      assert Filter(urls, good)[k] == Filter(urls, good)[|kept|];
    }
  }

  lemma {:induction false} SubsetWith(all: set<string>, url: string, size: nat) returns (part: set<string>)
    requires url in all && 1 <= size <= |all|
    ensures part <= all && url in part && |part| == size
    decreases |all|
  {
    part := all;
    if size < |all| {
      assert |all - {url}| == |all| - 1 > 0;
      var other :| other in all - {url};
      part := SubsetWith(all - {other}, url, size);
    }
  }

  /** If a repeated URL is among the good ones, they are counted as more than they are. */
  lemma RepeatedCounts(urls: seq<string>, i: nat, j: nat, good: set<string>)
    requires i < j < |urls| && urls[i] == urls[j] && urls[i] in good && good <= Elements(urls)
    ensures GoodNodes(OnlyGood(good), urls, true) == good
    ensures |Filter(urls, IsGood(OnlyGood(good), true))| > |good|
  {
    var kept := Filter(urls, IsGood(OnlyGood(good), true));
    forall url ensures url in Elements(kept) <==> url in good {
      assert url in good ==> url in Elements(urls);
    }
    RepeatedKept(urls, i, j, IsGood(OnlyGood(good), true));
    SizeIffNoDup(kept);
  }

  lemma AllGoodCounted(urls: seq<string>)
    ensures Filter(urls, IsGood(OnlyGood(Elements(urls)), true)) == urls
    ensures GoodNodes(OnlyGood(Elements(urls)), urls, true) == Elements(urls)
  {
    FilterAll(urls, IsGood(OnlyGood(Elements(urls)), true));
  }

  /** The replies that make the verdict wrong: the good nodes are just too few, a repeated one among them. */
  lemma WrongVerdict(urls: seq<string>, required: int) returns (answers: Answers)
    requires !NoDup(urls) && 1 < required <= |urls|
    ensures Verified(answers, urls, required, true).sufficient && |GoodNodes(answers, urls, true)| < required
  {
    var i, j :| 0 <= i < j < |urls| && urls[i] == urls[j];
    if |Elements(urls)| < required {
      AllGoodCounted(urls);
      answers := OnlyGood(Elements(urls));
    } else {
      var good := SubsetWith(Elements(urls), urls[i], required - 1);
      RepeatedCounts(urls, i, j, good);
      answers := OnlyGood(good);
    }
  }

  /**
   * When the verdict can be trusted: whatever the nodes answer, it is right exactly if no URL is listed twice, or at
   * most one replica is required, or more are required than URLs are listed.
   */
  lemma VerdictRightIff(urls: seq<string>, required: int)
    ensures (forall answers :: Right(answers, urls, required)) <==> NoDup(urls) || required <= 1 || |urls| < required
  {
    if NoDup(urls) || required <= 1 || |urls| < required {
      forall answers ensures Right(answers, urls, required) {
        RightVerdict(answers, urls, required);
      }
    } else {
      var answers := WrongVerdict(urls, required);
      assert !Right(answers, urls, required);
    }
  }
}
