/**
 * Replay protection and the timed CID cache (src/services/storage-authorization.service.ts). The registries, signature
 * recovery, the contracts and the clock are parameters.
 */
module Authorization {
  import opened Sequences

  datatype Request = Request(
    sender: string, nonce: string, timestamp: int, contentHash: string, appId: string, contentType: string,
    signature: string)

  datatype AuthError =
    | NotInitialized | MissingAppFields | RegistryRequired | SenderNotAuthorized | AppNotAllowed | TimestampInvalid
    | HashMismatch | NonceUsed | InvalidSignature | NotAuthorizedOnChain

  /** Everything a verification learns from outside. */
  datatype Answers = Answers(
    registryReady: bool, registryRequired: bool, registryAuthorizes: bool, appAllowed: bool, signatureValid: bool,
    onChain: bool, lower: string -> string)

  const TIMESTAMP_TOLERANCE_MS: nat := 5 * 60 * 1000
  const NONCE_EXPIRY_MS: nat := 10 * 60 * 1000
  const CID_CACHE_EXPIRY_MS: nat := 60 * 60 * 1000

  type Nonces = map<string, int>

  function NonceKey(r: Request): string
  {
    r.sender + ":" + r.nonce
  }

  function Distance(a: int, b: int): nat
  {
    if a < b then b - a else a - b
  }

  /** The checks of `verifyAuthorization`, in their order. */
  function Refusal(
    nonces: Nonces, ready: bool, r: Request, actualHash: string, answers: Answers, now: int, tolerance: nat)
    : Option<AuthError>
  {
    if !ready then Some(NotInitialized)
    else if r.appId == "" || r.contentType == "" then Some(MissingAppFields)
    else if !answers.registryReady && answers.registryRequired then Some(RegistryRequired)
    else if answers.registryReady && !answers.registryAuthorizes then Some(SenderNotAuthorized)
    else if !answers.appAllowed then Some(AppNotAllowed)
    else if Distance(now, r.timestamp) > tolerance then Some(TimestampInvalid)
    else if answers.lower(r.contentHash) != answers.lower(actualHash) then Some(HashMismatch)
    else if NonceKey(r) in nonces then Some(NonceUsed)
    else if !answers.signatureValid then Some(InvalidSignature)
    else if !answers.onChain then Some(NotAuthorizedOnChain)
    else None
  }

  /** What a request must meet, its nonce apart. */
  ghost predicate InOrder(r: Request, actualHash: string, answers: Answers, now: int, tolerance: nat)
  {
    && r.appId != "" && r.contentType != ""
    && (if answers.registryReady then answers.registryAuthorizes else !answers.registryRequired)
    && answers.appAllowed && now - tolerance <= r.timestamp <= now + tolerance
    && answers.lower(r.contentHash) == answers.lower(actualHash)
    && answers.signatureValid && answers.onChain
  }

  /** The conditions in the order they are looked at, each with the refusal that its failure gives. */
  ghost function Conditions(
    nonces: Nonces, ready: bool, r: Request, actualHash: string, answers: Answers, now: int, tolerance: nat)
    : seq<(bool, AuthError)>
  {
    [(ready, NotInitialized),
     (r.appId != "" && r.contentType != "", MissingAppFields),
     (answers.registryReady || !answers.registryRequired, RegistryRequired),
     (answers.registryReady ==> answers.registryAuthorizes, SenderNotAuthorized),
     (answers.appAllowed, AppNotAllowed),
     (now - tolerance <= r.timestamp <= now + tolerance, TimestampInvalid),
     (answers.lower(r.contentHash) == answers.lower(actualHash), HashMismatch),
     (NonceKey(r) !in nonces, NonceUsed),
     (answers.signatureValid, InvalidSignature),
     (answers.onChain, NotAuthorizedOnChain)]
  }

  /** The refusal is that of the first condition that fails; there is none exactly if all hold. */
  ghost predicate FirstFailure(conditions: seq<(bool, AuthError)>, error: Option<AuthError>)
  {
    && (error.None? <==> forall i :: 0 <= i < |conditions| ==> conditions[i].0)
    && (forall i :: 0 <= i < |conditions| && !conditions[i].0 && (forall j :: 0 <= j < i ==> conditions[j].0) ==>
          error == Some(conditions[i].1))
  }

  lemma RefusalIsFirstFailure(
    nonces: Nonces, ready: bool, r: Request, actualHash: string, answers: Answers, now: int, tolerance: nat)
    ensures FirstFailure(Conditions(nonces, ready, r, actualHash, answers, now, tolerance),
                         Refusal(nonces, ready, r, actualHash, answers, now, tolerance))
    ensures Refusal(nonces, ready, r, actualHash, answers, now, tolerance).None? <==>
            ready && InOrder(r, actualHash, answers, now, tolerance) && NonceKey(r) !in nonces
  {
    var conditions := Conditions(nonces, ready, r, actualHash, answers, now, tolerance);
    assert conditions[0].0 == ready && conditions[1].0 == (r.appId != "" && r.contentType != "");
    assert conditions[2].0 == (answers.registryReady || !answers.registryRequired);
    assert conditions[3].0 == (answers.registryReady ==> answers.registryAuthorizes);
    assert conditions[4].0 == answers.appAllowed && conditions[9].0 == answers.onChain;
    assert conditions[5].0 == (now - tolerance <= r.timestamp <= now + tolerance);
    assert conditions[6].0 == (answers.lower(r.contentHash) == answers.lower(actualHash));
    assert conditions[7].0 == (NonceKey(r) !in nonces) && conditions[8].0 == answers.signatureValid;
  }

  /** Senders are addresses, which hold no colon. */
  predicate Addressed(r: Request)
  {
    ':' !in r.sender
  }

  /** So requests share a nonce key exactly if the same sender uses the same nonce. */
  lemma NonceKeyIff(a: Request, b: Request)
    requires Addressed(a) && Addressed(b)
    ensures NonceKey(a) == NonceKey(b) <==> a.sender == b.sender && a.nonce == b.nonce
  {
    if NonceKey(a) == NonceKey(b) {
      var key, m, n := NonceKey(a), |a.sender|, |b.sender|;
      assert key == a.sender + (":" + a.nonce) == b.sender + (":" + b.nonce);
      assert key[m] == ':' && key[n] == ':';
      assert forall i :: 0 <= i < m ==> key[i] == a.sender[i];
      assert forall i :: 0 <= i < n ==> key[i] == b.sender[i];
      assert a.sender == key[..m] && b.sender == key[..n];
      assert a.nonce == key[m + 1..] && b.nonce == key[n + 1..];
    }
  }

  /** What is left after removing the entries recorded more than `expiry` ago. */
  function Unexpired(nonces: Nonces, now: int, expiry: nat): Nonces
  {
    map key | key in nonces && now - nonces[key] <= expiry :: nonces[key]
  }

  datatype ChainAnswer = Exists | Missing | Unreachable

  datatype CidEntry = CidEntry(authorized: bool, source: string, timestamp: int)

  type CidCache = map<string, CidEntry>

  /** The contracts the node is configured with, and what each would answer; none if it is not configured. */
  datatype Chain = Chain(messageStorage: Option<ChainAnswer>, postStorage: Option<ChainAnswer>)

  datatype CidResult = CidResult(authorized: bool, source: Option<string>, error: bool)

  function SourceOn(chain: Chain): Option<string>
  {
    if chain.messageStorage == Some(Exists) then Some("MessageStorage")
    else if chain.postStorage == Some(Exists) then Some("PostStorage")
    else None
  }

  /** One of the configured contracts knows the CID. */
  ghost predicate OnChain(chain: Chain)
  {
    Some(Exists) in [chain.messageStorage, chain.postStorage]
  }

  predicate Fresh(cache: CidCache, cid: string, now: int, expiry: nat)
  {
    cid in cache && now - cache[cid].timestamp < expiry
  }

  /** `verifyCIDOnChain` for an initialized service: the new cache and the answer. */
  function VerifyCid(cache: CidCache, cid: string, chain: Chain, now: int, later: int, expiry: nat)
    : (CidCache, CidResult)
  {
    if Fresh(cache, cid, now, expiry) then (cache, CidResult(cache[cid].authorized, Some(cache[cid].source), false))
    else
      var source := SourceOn(chain);
      if source.Some? then (cache[cid := CidEntry(true, source.value, later)], CidResult(true, source, false))
      else (cache[cid := CidEntry(false, "none", later)], CidResult(false, None, true))
  }

  function UnexpiredCids(cache: CidCache, now: int, expiry: nat): CidCache
  {
    map cid | cid in cache && now - cache[cid].timestamp <= expiry :: cache[cid]
  }

  class StorageAuthorizationService {
    var initialized: bool
    var usedNonces: Nonces
    var cidVerificationCache: CidCache

    constructor ()
      ensures !initialized && usedNonces == map[] && cidVerificationCache == map[]
    {
      initialized, usedNonces, cidVerificationCache := false, map[], map[];
    }

    /** `now` and `later` are the two readings of the clock. */
    method VerifyAuthorization(r: Request, actualHash: string, answers: Answers, now: int, later: int)
      returns (error: Option<AuthError>)
      modifies this`usedNonces
      ensures error ==
              Refusal(old(usedNonces), initialized, r, actualHash, answers, now, TIMESTAMP_TOLERANCE_MS)
      ensures FirstFailure(
                Conditions(old(usedNonces), initialized, r, actualHash, answers, now, TIMESTAMP_TOLERANCE_MS), error)
      ensures error.None? <==>
              && initialized && InOrder(r, actualHash, answers, now, TIMESTAMP_TOLERANCE_MS)
              && NonceKey(r) !in old(usedNonces)
      ensures usedNonces == if error.None? then old(usedNonces)[NonceKey(r) := later] else old(usedNonces)
    {
      RefusalIsFirstFailure(usedNonces, initialized, r, actualHash, answers, now, TIMESTAMP_TOLERANCE_MS);
      if !initialized {
        return Some(NotInitialized);
      }
      if r.appId == "" || r.contentType == "" {
        return Some(MissingAppFields);
      }
      if !answers.registryReady {
        if answers.registryRequired {
          return Some(RegistryRequired);
        }
      } else if !answers.registryAuthorizes {
        return Some(SenderNotAuthorized);
      }
      if !answers.appAllowed {
        return Some(AppNotAllowed);
      }
      if Distance(now, r.timestamp) > TIMESTAMP_TOLERANCE_MS {
        return Some(TimestampInvalid);
      }
      if answers.lower(r.contentHash) != answers.lower(actualHash) {
        return Some(HashMismatch);
      }
      var nonceKey := NonceKey(r);
      if nonceKey in usedNonces {
        return Some(NonceUsed);
      }
      if !answers.signatureValid {
        return Some(InvalidSignature);
      }
      if !answers.onChain {
        return Some(NotAuthorizedOnChain);
      }
      usedNonces := usedNonces[nonceKey := later];
      error := None;
    }

    method CleanupExpiredNonces(now: int)
      modifies this`usedNonces
      ensures usedNonces == Unexpired(old(usedNonces), now, NONCE_EXPIRY_MS)
    {
      var keys := usedNonces.Keys;
      while keys != {}
        invariant keys <= old(usedNonces).Keys
        invariant forall key :: key in usedNonces <==>
                    key in old(usedNonces) && (key in keys || now - old(usedNonces)[key] <= NONCE_EXPIRY_MS)
        invariant forall key :: key in usedNonces ==> usedNonces[key] == old(usedNonces)[key]
        decreases keys
      {
        var key :| key in keys;
        keys := keys - {key};
        if now - usedNonces[key] > NONCE_EXPIRY_MS {
          usedNonces := usedNonces - {key};
        }
      }
    }

    method VerifyCidOnChain(cid: string, chain: Chain, now: int, later: int) returns (result: CidResult)
      modifies this`cidVerificationCache
      ensures (cidVerificationCache, result) ==
              if initialized then VerifyCid(old(cidVerificationCache), cid, chain, now, later, CID_CACHE_EXPIRY_MS)
              else (old(cidVerificationCache), CidResult(false, None, true))
      ensures var held := cid in old(cidVerificationCache) &&
                          now - old(cidVerificationCache)[cid].timestamp < CID_CACHE_EXPIRY_MS;
              && (result.authorized ==> initialized)
              && (initialized && held ==>
                    var entry := old(cidVerificationCache)[cid];
                    result == CidResult(entry.authorized, Some(entry.source), false))
              && (initialized && !held ==> (result.authorized <==> OnChain(chain)))
    {
      if !initialized {
        return CidResult(false, None, true);
      }
      if cid in cidVerificationCache {
        var cached := cidVerificationCache[cid];
        if now - cached.timestamp < CID_CACHE_EXPIRY_MS {
          return CidResult(cached.authorized, Some(cached.source), false);
        }
      }
      if chain.messageStorage.Some? {
        if chain.messageStorage.value == Exists {
          cidVerificationCache := cidVerificationCache[cid := CidEntry(true, "MessageStorage", later)];
          return CidResult(true, Some("MessageStorage"), false);
        }
      }
      if chain.postStorage.Some? {
        if chain.postStorage.value == Exists {
          cidVerificationCache := cidVerificationCache[cid := CidEntry(true, "PostStorage", later)];
          return CidResult(true, Some("PostStorage"), false);
        }
      }
      cidVerificationCache := cidVerificationCache[cid := CidEntry(false, "none", later)];
      result := CidResult(false, None, true);
    }

    method CleanupExpiredCidCache(now: int)
      modifies this`cidVerificationCache
      ensures cidVerificationCache == UnexpiredCids(old(cidVerificationCache), now, CID_CACHE_EXPIRY_MS)
    {
      var cids := cidVerificationCache.Keys;
      ghost var before := cidVerificationCache;
      while cids != {}
        invariant cids <= before.Keys
        invariant forall cid :: cid in cidVerificationCache <==>
                    cid in before && (cid in cids || now - before[cid].timestamp <= CID_CACHE_EXPIRY_MS)
        invariant forall cid :: cid in cidVerificationCache ==> cidVerificationCache[cid] == before[cid]
        decreases cids
      {
        var cid :| cid in cids;
        cids := cids - {cid};
        if now - cidVerificationCache[cid].timestamp > CID_CACHE_EXPIRY_MS {
          cidVerificationCache := cidVerificationCache - {cid};
        }
      }
    }
  }

  // ---------------------------------------------------------------- runs of verifications and cleanups

  datatype Op =
    | Verify(request: Request, actualHash: string, answers: Answers, now: int, later: int)
    | Cleanup(now: int)

  function EndOf(op: Op): int
  {
    if op.Verify? then op.later else op.now
  }

  /** The clock never runs backwards, neither within a step nor between steps. */
  ghost predicate Timely(ops: seq<Op>)
  {
    && (forall i :: 0 <= i < |ops| ==> ops[i].now <= EndOf(ops[i]))
    && (forall i, j :: 0 <= i < j < |ops| ==> EndOf(ops[i]) <= ops[j].now)
  }

  function Step(nonces: Nonces, op: Op, tolerance: nat, expiry: nat): Nonces
  {
    match op
    case Verify(r, actualHash, answers, now, later) =>
      if Refusal(nonces, true, r, actualHash, answers, now, tolerance).None? then nonces[NonceKey(r) := later]
      else nonces
    case Cleanup(now) => Unexpired(nonces, now, expiry)
  }

  function Run(ops: seq<Op>, tolerance: nat, expiry: nat): Nonces
  {
    if ops == [] then map[] else Step(Run(ops[..|ops| - 1], tolerance, expiry), ops[|ops| - 1], tolerance, expiry)
  }

  /** Step `i` is a verification that succeeds. */
  predicate Accepted(ops: seq<Op>, i: nat, tolerance: nat, expiry: nat)
    requires i < |ops|
  {
    var op := ops[i];
    op.Verify? &&
    Refusal(Run(ops[..i], tolerance, expiry), true, op.request, op.actualHash, op.answers, op.now, tolerance).None?
  }

  /** The two requests are interchangeable for replay protection; an identical request is a special case. */
  predicate Replay(a: Request, b: Request)
  {
    NonceKey(a) == NonceKey(b) && a.timestamp == b.timestamp
  }

  // ---------------------------------------------------------------- what is accepted

  /** Step `j` recorded the nonce key, and no cleanup before step `i` came late enough to forget it. */
  ghost predicate Remembered(ops: seq<Op>, j: nat, i: nat, key: string, tolerance: nat, expiry: nat)
    requires i <= |ops|
  {
    && j < i && Accepted(ops, j, tolerance, expiry) && NonceKey(ops[j].request) == key
    && forall k :: j < k < i && ops[k].Cleanup? ==> ops[k].now - ops[j].later <= expiry
  }

  /** A remembered nonce is recorded, with the time of its acceptance. */
  lemma {:induction false} RememberedStays(
    ops: seq<Op>, j: nat, i: nat, key: string, tolerance: nat, expiry: nat)
    requires i <= |ops| && Remembered(ops, j, i, key, tolerance, expiry)
    ensures var nonces := Run(ops[..i], tolerance, expiry);
            key in nonces && nonces[key] == ops[j].later
  {
    assert ops[..i][..i - 1] == ops[..i - 1];
    if j < i - 1 {
      RememberedStays(ops, j, i - 1, key, tolerance, expiry);
    }
  }

  /** A recorded nonce is a remembered one. */
  lemma {:induction false} RecordedRemembered(ops: seq<Op>, i: nat, key: string, tolerance: nat, expiry: nat)
    returns (j: nat)
    requires i <= |ops| && key in Run(ops[..i], tolerance, expiry)
    ensures Remembered(ops, j, i, key, tolerance, expiry)
  {
    assert ops[..i][..i - 1] == ops[..i - 1];
    if Accepted(ops, i - 1, tolerance, expiry) && NonceKey(ops[i - 1].request) == key {
      j := i - 1;
    } else {
      j := RecordedRemembered(ops, i - 1, key, tolerance, expiry);
      RememberedStays(ops, j, i - 1, key, tolerance, expiry);
    }
  }

  /** An earlier accepted request of the same sender with the same nonce is still remembered. */
  ghost predicate UsedBefore(ops: seq<Op>, j: nat, i: nat, tolerance: nat, expiry: nat)
    requires i < |ops| && ops[i].Verify?
  {
    && j < i && Accepted(ops, j, tolerance, expiry)
    && ops[j].request.sender == ops[i].request.sender && ops[j].request.nonce == ops[i].request.nonce
    && forall k :: j < k < i && ops[k].Cleanup? ==> ops[k].now - ops[j].later <= expiry
  }

  /**
   * What a run accepts: a verification succeeds if and only if the request is in order and its sender has not used its
   * nonce before, in an acceptance that is still remembered. The nonces of other senders do not matter.
   */
  lemma AcceptedIff(ops: seq<Op>, i: nat, tolerance: nat, expiry: nat)
    requires i < |ops| && ops[i].Verify? && forall op :: op in ops && op.Verify? ==> Addressed(op.request)
    ensures Accepted(ops, i, tolerance, expiry) <==>
            && InOrder(ops[i].request, ops[i].actualHash, ops[i].answers, ops[i].now, tolerance)
            && !exists j: nat :: UsedBefore(ops, j, i, tolerance, expiry)
  {
    var op, key := ops[i], NonceKey(ops[i].request);
    RefusalIsFirstFailure(Run(ops[..i], tolerance, expiry), true, op.request, op.actualHash, op.answers, op.now,
                          tolerance);
    if key in Run(ops[..i], tolerance, expiry) {
      var j := RecordedRemembered(ops, i, key, tolerance, expiry);
      NonceKeyIff(ops[j].request, op.request);
      assert UsedBefore(ops, j, i, tolerance, expiry);
    }
    forall j: nat | UsedBefore(ops, j, i, tolerance, expiry) ensures key in Run(ops[..i], tolerance, expiry) {
      NonceKeyIff(ops[j].request, op.request);
      RememberedStays(ops, j, i, key, tolerance, expiry);
    }
  }

  // ---------------------------------------------------------------- single use

  /** A recorded nonce stays, with its time, as long as no cleanup comes too late. */
  lemma {:induction false} NonceStays(ops: seq<Op>, i: nat, j: nat, tolerance: nat, expiry: nat)
    requires Timely(ops) && i < j <= |ops| && Accepted(ops, i, tolerance, expiry)
    requires forall k :: i < k < j ==> ops[k].now - EndOf(ops[i]) <= expiry
    ensures var nonces, key := Run(ops[..j], tolerance, expiry), NonceKey(ops[i].request);
            key in nonces && nonces[key] == EndOf(ops[i])
  {
    assert ops[..j][..j - 1] == ops[..j - 1];
    if i + 1 < j {
      NonceStays(ops, i, j - 1, tolerance, expiry);
    }
  }

  lemma AcceptedInTime(ops: seq<Op>, i: nat, tolerance: nat, expiry: nat)
    requires i < |ops| && Accepted(ops, i, tolerance, expiry)
    ensures Distance(ops[i].now, ops[i].request.timestamp) <= tolerance
  {
  }

  /** In any timely run one request is accepted at most once, if nonces are kept for at least twice the tolerance. */
  lemma SingleUse(ops: seq<Op>, i: nat, j: nat, tolerance: nat, expiry: nat)
    requires expiry >= 2 * tolerance && Timely(ops) && i < j < |ops|
    requires Accepted(ops, i, tolerance, expiry) && Accepted(ops, j, tolerance, expiry)
    ensures !Replay(ops[i].request, ops[j].request)
  {
    if Replay(ops[i].request, ops[j].request) {
      AcceptedInTime(ops, i, tolerance, expiry);
      AcceptedInTime(ops, j, tolerance, expiry);
      forall k | i < k < j ensures ops[k].now - EndOf(ops[i]) <= expiry {
        assert ops[k].now <= EndOf(ops[k]) <= ops[j].now;
      }
      NonceStays(ops, i, j, tolerance, expiry);
    }
  }

  ghost predicate AcceptsOnce(tolerance: nat, expiry: nat)
  {
    forall ops: seq<Op>, i: nat, j: nat |
      && Timely(ops) && i < j < |ops|
      && Accepted(ops, i, tolerance, expiry) && Accepted(ops, j, tolerance, expiry)
      :: !Replay(ops[i].request, ops[j].request)
  }

  /** A run that accepts one request twice, one millisecond after its nonce was forgotten. */
  lemma ShortMemoryReplays(r: Request, answers: Answers, tolerance: nat, expiry: nat)
    requires expiry < 2 * tolerance && r.timestamp == tolerance && r.appId != "" && r.contentType != ""
    requires answers.registryReady && answers.registryAuthorizes && answers.appAllowed
    requires answers.signatureValid && answers.onChain
    ensures var again := expiry + 1;
            var ops := [Verify(r, r.contentHash, answers, 0, 0), Cleanup(again),
                        Verify(r, r.contentHash, answers, again, again)];
            Timely(ops) && Accepted(ops, 0, tolerance, expiry) && Accepted(ops, 2, tolerance, expiry)
  {
    var again := expiry + 1;
    var ops := [Verify(r, r.contentHash, answers, 0, 0), Cleanup(again),
                Verify(r, r.contentHash, answers, again, again)];
    assert ops[..0] == [] && ops[..1][..0] == [] && ops[..2][..1] == ops[..1];
    assert Run(ops[..1], tolerance, expiry) == map[NonceKey(r) := 0];
    assert Run(ops[..2], tolerance, expiry) == Unexpired(map[NonceKey(r) := 0], again, expiry) == map[];
  }

  /** The bound is exact: single use holds over all runs if and only if nonces outlive twice the tolerance. */
  lemma SingleUseIff(tolerance: nat, expiry: nat)
    ensures AcceptsOnce(tolerance, expiry) <==> expiry >= 2 * tolerance
  {
    if expiry >= 2 * tolerance {
      forall ops: seq<Op>, i: nat, j: nat |
        && Timely(ops) && i < j < |ops|
        && Accepted(ops, i, tolerance, expiry) && Accepted(ops, j, tolerance, expiry)
        ensures !Replay(ops[i].request, ops[j].request)
      {
        SingleUse(ops, i, j, tolerance, expiry);
      }
    } else {
      var r := Request("s", "n", tolerance, "h", "a", "c", "x");
      var answers := Answers(true, true, true, true, true, true, (s: string) => s);
      ShortMemoryReplays(r, answers, tolerance, expiry);
      var again := expiry + 1;
      var ops := [Verify(r, "h", answers, 0, 0), Cleanup(again), Verify(r, "h", answers, again, again)];
      assert Timely(ops) && Accepted(ops, 0, tolerance, expiry) && Accepted(ops, 2, tolerance, expiry);
      assert Replay(ops[0].request, ops[2].request);
    }
  }

  /** The constants of the service meet the bound exactly. */
  lemma ServiceAcceptsOnce()
    ensures AcceptsOnce(TIMESTAMP_TOLERANCE_MS, NONCE_EXPIRY_MS)
    ensures !AcceptsOnce(TIMESTAMP_TOLERANCE_MS, NONCE_EXPIRY_MS - 1)
  {
    SingleUseIff(TIMESTAMP_TOLERANCE_MS, NONCE_EXPIRY_MS);
    SingleUseIff(TIMESTAMP_TOLERANCE_MS, NONCE_EXPIRY_MS - 1);
  }

  // ---------------------------------------------------------------- the CID cache

  datatype CidOp = Lookup(cid: string, chain: Chain, now: int, later: int) | Prune(now: int)

  function CidStep(cache: CidCache, op: CidOp, expiry: nat): CidCache
  {
    match op
    case Lookup(cid, chain, now, later) => VerifyCid(cache, cid, chain, now, later, expiry).0
    case Prune(now) => UnexpiredCids(cache, now, expiry)
  }

  /** The caches a run of the service goes through, the first one empty. */
  ghost predicate CidRun(ops: seq<CidOp>, caches: seq<CidCache>, expiry: nat)
  {
    && |caches| == |ops| + 1 && caches[0] == map[]
    && (forall i :: 0 <= i < |ops| ==> caches[i + 1] == CidStep(caches[i], ops[i], expiry))
  }

  /** The lookup finds no fresh entry and asks the chain. */
  ghost predicate Asks(cache: CidCache, op: CidOp, expiry: nat)
  {
    op.Lookup? && (op.cid in cache ==> op.now - cache[op.cid].timestamp >= expiry)
  }

  /** Step `k` asked about the CID, nobody has asked about it since, and no pruning came late enough to forget it. */
  ghost predicate Answered(ops: seq<CidOp>, caches: seq<CidCache>, k: nat, i: nat, cid: string, expiry: nat)
    requires i <= |ops| <= |caches|
  {
    && k < i && Asks(caches[k], ops[k], expiry) && ops[k].cid == cid
    && forall l :: k < l < i ==>
         && !(Asks(caches[l], ops[l], expiry) && ops[l].cid == cid)
         && (ops[l].Prune? ==> ops[l].now - ops[k].later <= expiry)
  }

  /** The cache holds what the chain answered in step `k`. */
  ghost predicate HoldsAnswer(cache: CidCache, op: CidOp, cid: string)
  {
    && op.Lookup? && cid in cache && cache[cid].timestamp == op.later
    && (cache[cid].authorized <==> OnChain(op.chain))
    && cache[cid].source == if op.chain.messageStorage == Some(Exists) then "MessageStorage"
                            else if op.chain.postStorage == Some(Exists) then "PostStorage"
                            else "none"
  }

  /** One step: a lookup that asks records the answer; any other step keeps the entry, unless it prunes it. */
  lemma CidStepMeans(cache: CidCache, op: CidOp, cid: string, expiry: nat)
    ensures var after := CidStep(cache, op, expiry);
            if Asks(cache, op, expiry) && op.cid == cid then HoldsAnswer(after, op, cid)
            else
              && (cid in after <==> cid in cache && (op.Prune? ==> op.now - cache[cid].timestamp <= expiry))
              && (cid in after ==> after[cid] == cache[cid])
  {
  }

  /** An answer that is not forgotten is held, with its time. */
  lemma {:induction false} AnsweredStays(
    ops: seq<CidOp>, caches: seq<CidCache>, k: nat, i: nat, cid: string, expiry: nat)
    requires CidRun(ops, caches, expiry) && i <= |ops| && Answered(ops, caches, k, i, cid, expiry)
    ensures HoldsAnswer(caches[i], ops[k], cid)
  {
    CidStepMeans(caches[i - 1], ops[i - 1], cid, expiry);
    if k < i - 1 {
      AnsweredStays(ops, caches, k, i - 1, cid, expiry);
    }
  }

  /** What is held is such an answer. */
  lemma {:induction false} CachedAnswered(ops: seq<CidOp>, caches: seq<CidCache>, i: nat, cid: string, expiry: nat)
    returns (k: nat)
    requires CidRun(ops, caches, expiry) && i <= |ops| && cid in caches[i]
    ensures Answered(ops, caches, k, i, cid, expiry)
  {
    CidStepMeans(caches[i - 1], ops[i - 1], cid, expiry);
    if Asks(caches[i - 1], ops[i - 1], expiry) && ops[i - 1].cid == cid {
      k := i - 1;
    } else {
      k := CachedAnswered(ops, caches, i - 1, cid, expiry);
      AnsweredStays(ops, caches, k, i - 1, cid, expiry);
    }
  }

  /**
   * What a lookup answers after any run: what the chain said when it was last asked about the CID, if that was less
   * than the expiry ago and is not forgotten; otherwise, and only then, what the chain says now.
   */
  lemma LookupAnswers(
    ops: seq<CidOp>, caches: seq<CidCache>, cid: string, chain: Chain, now: int, later: int, expiry: nat)
    requires CidRun(ops, caches, expiry)
    ensures var answer := VerifyCid(caches[|ops|], cid, chain, now, later, expiry).1.authorized;
            && (forall k: nat :: Answered(ops, caches, k, |ops|, cid, expiry) && now - ops[k].later < expiry ==>
                  (answer <==> OnChain(ops[k].chain)))
            && ((forall k: nat :: Answered(ops, caches, k, |ops|, cid, expiry) ==> now - ops[k].later >= expiry) ==>
                  (answer <==> OnChain(chain)))
  {
    var n := |ops|;
    if cid in caches[n] {
      var k := CachedAnswered(ops, caches, n, cid, expiry);
      AnsweredStays(ops, caches, k, n, cid, expiry);
    }
    forall k: nat | Answered(ops, caches, k, n, cid, expiry) ensures HoldsAnswer(caches[n], ops[k], cid) {
      AnsweredStays(ops, caches, k, n, cid, expiry);
    }
  }

  /** So it is never older than the expiry. */
  lemma StalenessBounded(
    ops: seq<CidOp>, caches: seq<CidCache>, cid: string, chain: Chain, now: int, later: int, expiry: nat)
    requires CidRun(ops, caches, expiry)
    ensures var answer := VerifyCid(caches[|ops|], cid, chain, now, later, expiry).1.authorized;
            || (answer <==> OnChain(chain))
            || exists k: nat :: k < |ops| && ops[k].Lookup? && ops[k].cid == cid && now - ops[k].later < expiry &&
                                (answer <==> OnChain(ops[k].chain))
  {
    LookupAnswers(ops, caches, cid, chain, now, later, expiry);
  }

  /** Which contract an answer names: the one for messages if it knows the CID, otherwise the one for posts. */
  lemma SourceNamed(cache: CidCache, cid: string, chain: Chain, now: int, later: int, expiry: nat)
    requires cid in cache ==> now - cache[cid].timestamp >= expiry
    ensures var (after, result) := VerifyCid(cache, cid, chain, now, later, expiry);
            && (result.source == Some("MessageStorage") <==> chain.messageStorage == Some(Exists))
            && (result.source == Some("PostStorage") <==>
                chain.messageStorage != Some(Exists) && chain.postStorage == Some(Exists))
            && (result.source.None? <==> !OnChain(chain)) && (result.error <==> !OnChain(chain))
            && after.Keys == cache.Keys + {cid}
  {
  }
}
