/** Chain building and fork resolution for feeds (src/services/feed.service.ts). */
module FeedChains {
  import opened Sequences

  datatype FeedEvent = FeedEvent(
    feedId: string, cid: string, parentCid: Option<string>, authorKey: string, timestamp: int, signature: string)

  type Chain = seq<FeedEvent>

  ghost predicate DistinctCids(events: seq<FeedEvent>)
  {
    forall i, j :: 0 <= i < j < |events| ==> events[i].cid != events[j].cid
  }

  function Children(events: seq<FeedEvent>, cid: string): seq<FeedEvent>
  {
    Filter(events, (e: FeedEvent) => e.parentCid == Some(cid))
  }

  lemma ChildrenSnoc(events: seq<FeedEvent>, e: FeedEvent, cid: string)
    ensures Children([], cid) == []
    ensures Children(events + [e], cid) == Children(events, cid) + if e.parentCid == Some(cid) then [e] else []
  {
    assert (events + [e])[..|events|] == events;
  }

  function FirstChild(events: seq<FeedEvent>, cid: string): (r: Option<FeedEvent>)
    ensures r.Some? ==> r.value in events && r.value.parentCid == Some(cid)
  {
    var children := Children(events, cid);
    if children == [] then None else assert children[0] in children; Some(children[0])
  }

  function Roots(events: seq<FeedEvent>, rootCid: string): seq<FeedEvent>
  {
    Filter(events, (e: FeedEvent) => e.parentCid == None || e.cid == rootCid)
  }

  /** How the walk goes on from an event. */
  type Next = FeedEvent -> Option<FeedEvent>

  function FirstChildIn(events: seq<FeedEvent>): Next
  {
    (e: FeedEvent) => FirstChild(events, e.cid)
  }

  /** All that termination needs to know about the step: it leads to an event of the list whose parent is this one. */
  ghost predicate ToChild(next: Next, events: seq<FeedEvent>)
  {
    forall e :: next(e).Some? ==> next(e).value in events && next(e).value.parentCid == Some(e.cid)
  }

  lemma FirstChildToChild(events: seq<FeedEvent>)
    ensures ToChild(FirstChildIn(events), events)
  {
  }

  /** The event reached from `start` after `n` steps, if the walk gets that far. */
  function Walk(next: Next, start: FeedEvent, n: nat): Option<FeedEvent>
  {
    if n == 0 then Some(start)
    else match Walk(next, start, n - 1)
      case None => None
      case Some(e) => next(e)
  }

  /** The walk comes back to where it started within `bound` steps. */
  ghost predicate OnCycle(next: Next, start: FeedEvent, bound: nat)
  {
    exists n: nat :: 1 <= n <= bound && Walk(next, start, n) == Some(start)
  }

  /** The chain the loop collects from `e`, cut off after `fuel` events. */
  function Follow(next: Next, e: FeedEvent, fuel: nat): Chain
    decreases fuel
  {
    if fuel == 0 then []
    else if next(e).None? then [e]
    else [e] + Follow(next, next(e).value, fuel - 1)
  }

  function ChainOf(events: seq<FeedEvent>, root: FeedEvent): Chain
  {
    Follow(FirstChildIn(events), root, |events|)
  }

  function ChainsOf(events: seq<FeedEvent>, roots: seq<FeedEvent>): seq<Chain>
  {
    Map(roots, (r: FeedEvent) => ChainOf(events, r))
  }

  /** A complete walk: it starts at the root, every event leads to the one behind it, the last leads nowhere. */
  ghost predicate IsChain(next: Next, root: FeedEvent, chain: Chain)
  {
    && chain != [] && chain[0] == root
    && (forall i, j :: 0 <= i && j == i + 1 < |chain| ==> next(chain[i]) == Some(chain[j]))
    && next(chain[|chain| - 1]) == None
  }

  // ---------------------------------------------------------------- termination of the walk

  lemma {:induction false} WalkStays(next: Next, events: seq<FeedEvent>, start: FeedEvent, n: nat)
    requires ToChild(next, events) && start in events && Walk(next, start, n).Some?
    ensures Walk(next, start, n).value in events
  {
    if n > 0 {
      WalkStays(next, events, start, n - 1);
    }
  }

  /** Every event has one parent, so two walks that meet have met all the way back. */
  lemma {:induction false} WalksMeetBackwards(
    next: Next, events: seq<FeedEvent>, a: FeedEvent, b: FeedEvent, i: nat, j: nat)
    requires ToChild(next, events) && DistinctCids(events) && a in events && b in events && i <= j
    requires Walk(next, a, i).Some? && Walk(next, a, i) == Walk(next, b, j)
    ensures Walk(next, b, j - i) == Some(a)
  {
    if i > 0 {
      var p, q := Walk(next, a, i - 1).value, Walk(next, b, j - 1).value;
      WalkStays(next, events, a, i - 1);
      WalkStays(next, events, b, j - 1);
      assert Some(p.cid) == next(p).value.parentCid == next(q).value.parentCid == Some(q.cid);
      SameCid(events, p, q);
      WalksMeetBackwards(next, events, a, b, i - 1, j - 1);
    }
  }

  lemma SameCid(events: seq<FeedEvent>, p: FeedEvent, q: FeedEvent)
    requires DistinctCids(events) && p in events && q in events && p.cid == q.cid
    ensures p == q
  {
    var i :| 0 <= i < |events| && events[i] == p;
    var j :| 0 <= j < |events| && events[j] == q;
    assert events[i].cid == events[j].cid;
  }

  lemma {:induction false} WalkPrefix(next: Next, start: FeedEvent, m: nat, n: nat)
    requires m <= n && Walk(next, start, n).Some?
    ensures Walk(next, start, m).Some?
    decreases n
  {
    if m < n {
      WalkPrefix(next, start, m, n - 1);
    }
  }

  lemma {:induction false} WalkSplit(next: Next, start: FeedEvent, mid: FeedEvent, m: nat, n: nat)
    requires Walk(next, start, m) == Some(mid)
    ensures Walk(next, start, m + n) == Walk(next, mid, n)
  {
    if n > 0 {
      WalkSplit(next, start, mid, m, n - 1);
    }
  }

  /** The first `n` events of a walk, as a list. */
  ghost function Visited(next: Next, start: FeedEvent, n: nat): (r: seq<FeedEvent>)
    requires n > 0 ==> Walk(next, start, n - 1).Some?
    ensures |r| == n
    ensures forall i :: 0 <= i < n ==> Walk(next, start, i) == Some(r[i])
  {
    if n == 0 then [] else Visited(next, start, n - 1) + [Walk(next, start, n - 1).value]
  }

  lemma VisitedStays(next: Next, events: seq<FeedEvent>, start: FeedEvent, n: nat)
    requires ToChild(next, events) && start in events
    requires n > 0 ==> Walk(next, start, n - 1).Some?
    ensures forall x :: x in Visited(next, start, n) ==> x in events
  {
    var visited := Visited(next, start, n);
    forall x | x in visited ensures x in events {
      var i :| 0 <= i < |visited| && visited[i] == x;
      assert Walk(next, start, i) == Some(x);
      WalkStays(next, events, start, i);
    }
  }

  lemma DistinctEvents(events: seq<FeedEvent>)
    requires DistinctCids(events)
    ensures NoDup(events) && |Elements(events)| == |events|
  {
    NoDupSize(events);
  }

  /** A walk that visits some event twice has come back to its start. */
  lemma RevisitReturns(next: Next, events: seq<FeedEvent>, start: FeedEvent, i: nat, j: nat)
    requires ToChild(next, events) && DistinctCids(events) && start in events && i < j
    requires Walk(next, start, i).Some? && Walk(next, start, i) == Walk(next, start, j)
    ensures Walk(next, start, j - i) == Some(start)
  {
    WalksMeetBackwards(next, events, start, start, i, j);
  }

  /** A walk of more steps than there are events has come back to its start. */
  lemma LongWalkReturns(next: Next, events: seq<FeedEvent>, start: FeedEvent)
    requires ToChild(next, events) && DistinctCids(events) && start in events
    requires Walk(next, start, |events|).Some?
    ensures OnCycle(next, start, |events|)
  {
    var visited := Visited(next, start, |events| + 1);
    if NoDup(visited) {
      DistinctEvents(events);
      VisitedStays(next, events, start, |events| + 1);
      NoDupWithin(visited, Elements(events));
      assert false;
    }
    var i, j :| 0 <= i < j < |visited| && visited[i] == visited[j];
    RevisitReturns(next, events, start, i, j);
    assert Walk(next, start, j - i) == Some(start);
  }

  /** Once the walk has come back to its start it goes on for ever. */
  lemma {:induction false} CycleNeverEnds(next: Next, start: FeedEvent, k: nat, n: nat)
    requires k > 0 && Walk(next, start, k) == Some(start)
    ensures Walk(next, start, n).Some?
  {
    if n <= k {
      WalkPrefix(next, start, n, k);
    } else {
      WalkSplit(next, start, start, k, n - k);
      CycleNeverEnds(next, start, k, n - k);
    }
  }

  lemma EndsIffOffCycle(next: Next, events: seq<FeedEvent>, start: FeedEvent)
    requires ToChild(next, events) && DistinctCids(events) && start in events
    ensures !OnCycle(next, start, |events|) ==> Walk(next, start, |events|) == None
    ensures OnCycle(next, start, |events|) ==> forall n: nat :: Walk(next, start, n).Some?
  {
    if k: nat :| 1 <= k <= |events| && Walk(next, start, k) == Some(start) {
      forall n: nat ensures Walk(next, start, n).Some? {
        CycleNeverEnds(next, start, k, n);
      }
    } else if Walk(next, start, |events|).Some? {
      LongWalkReturns(next, events, start);
    }
  }

  lemma ParentlessOffCycle(next: Next, events: seq<FeedEvent>, start: FeedEvent)
    requires ToChild(next, events) && start.parentCid == None
    ensures forall n: nat :: n > 0 ==> Walk(next, start, n) != Some(start)
  {
    forall n: nat | n > 0 ensures Walk(next, start, n) != Some(start) {
      assert Walk(next, start, n) ==
             if Walk(next, start, n - 1).None? then None else next(Walk(next, start, n - 1).value);
    }
  }

  /**
   * The unguarded loop ends exactly when the walk does not come back to its start within |events| steps; it has then
   * ended after at most |events| events. No acyclicity of the events is assumed, and an event without a parent always
   * qualifies as a start.
   */
  lemma WalkEndsIff(events: seq<FeedEvent>, start: FeedEvent)
    requires DistinctCids(events) && start in events
    ensures var next := FirstChildIn(events);
            && ((exists n: nat :: Walk(next, start, n) == None) <==> !OnCycle(next, start, |events|))
            && (!OnCycle(next, start, |events|) ==> Walk(next, start, |events|) == None)
            && (start.parentCid == None ==> !OnCycle(next, start, |events|))
  {
    FirstChildToChild(events);
    EndsIffOffCycle(FirstChildIn(events), events, start);
    if start.parentCid == None {
      ParentlessOffCycle(FirstChildIn(events), events, start);
    }
  }

  // ---------------------------------------------------------------- climbing to the parents

  /** `up` leads every child step back, from a child to the event of the list it is a child of. */
  ghost predicate LeadsBack(up: Next, next: Next, events: seq<FeedEvent>)
  {
    forall e :: e in events && next(e).Some? ==> up(next(e).value) == Some(e)
  }

  /** A walk down is a climb back. */
  lemma {:induction false} WalkIsClimb(
    up: Next, next: Next, events: seq<FeedEvent>, start: FeedEvent, e: FeedEvent, n: nat)
    requires ToChild(next, events) && LeadsBack(up, next, events) && start in events && Walk(next, start, n) == Some(e)
    ensures Walk(up, e, n) == Some(start)
    decreases n
  {
    if n > 0 {
      var p := Walk(next, start, n - 1).value;
      WalkStays(next, events, start, n - 1);
      WalkIsClimb(up, next, events, start, p, n - 1);
      assert Walk(up, e, 0) == Some(e) && Walk(up, e, 1) == Some(p);
      WalkSplit(up, e, p, 1, n - 1);
    }
  }

  /** A step that never leaves a set of events never ends. */
  lemma {:induction false} StaysWithin(next: Next, within: set<FeedEvent>, start: FeedEvent, n: nat)
    requires start in within && forall e {:trigger next(e)} :: e in within ==> next(e).Some? && next(e).value in within
    ensures Walk(next, start, n).Some? && Walk(next, start, n).value in within
  {
    if n > 0 {
      StaysWithin(next, within, start, n - 1);
    }
  }

  /** The events of a climb that comes back to its start. */
  ghost function Loop(up: Next, start: FeedEvent, k: nat): set<FeedEvent>
    requires k > 0 && Walk(up, start, k) == Some(start)
  {
    WalkPrefix(up, start, k - 1, k);
    Elements(Visited(up, start, k))
  }

  /** Each of them is the parent of another one. */
  lemma LoopHasChildren(up: Next, start: FeedEvent, k: nat, e: FeedEvent) returns (child: FeedEvent)
    requires k > 0 && Walk(up, start, k) == Some(start) && e in Loop(up, start, k)
    ensures child in Loop(up, start, k) && up(child) == Some(e)
  {
    WalkPrefix(up, start, k - 1, k);
    var visited := Visited(up, start, k);
    var i :| 0 <= i < k && visited[i] == e;
    child := visited[if i > 0 then i - 1 else k - 1];
    assert i > 0 ==> Walk(up, start, i) == up(visited[i - 1]);
    assert i == 0 ==> Walk(up, start, k) == up(visited[k - 1]);
  }

  lemma ChildrenConcat(a: seq<FeedEvent>, b: seq<FeedEvent>, cid: string)
    ensures Children(a + b, cid) == Children(a, cid) + Children(b, cid)
  {
    FilterConcat(a, b, (e: FeedEvent) => e.parentCid == Some(cid));
  }

  ghost predicate HasChild(events: seq<FeedEvent>, e: FeedEvent)
  {
    exists child :: child in events && child.parentCid == Some(e.cid)
  }

  /** With the events of a loop listed first, the walk from any of them never ends. */
  lemma LoopListedFirst(first: seq<FeedEvent>, rest: seq<FeedEvent>, start: FeedEvent)
    requires start in first
    requires forall e {:trigger HasChild(first, e)} :: e in first ==> HasChild(first, e)
    ensures forall n: nat :: Walk(FirstChildIn(first + rest), start, n).Some?
  {
    var next := FirstChildIn(first + rest);
    forall e {:trigger next(e)} | e in Elements(first) ensures next(e).Some? && next(e).value in Elements(first) {
      assert HasChild(first, e);
      FirstChildInFront(first, rest, e);
    }
    forall n: nat ensures Walk(next, start, n).Some? {
      StaysWithin(next, Elements(first), start, n);
    }
  }

  lemma FirstChildInFront(first: seq<FeedEvent>, rest: seq<FeedEvent>, e: FeedEvent)
    requires HasChild(first, e)
    ensures FirstChild(first + rest, e.cid).Some? && FirstChild(first + rest, e.cid).value in first
  {
    ChildrenConcat(first, rest, e.cid);
    var front := Children(first, e.cid);
    var child :| child in first && child.parentCid == Some(e.cid);
    assert child in front;
    assert front[0] in front;
  }

  // ---------------------------------------------------------------- what the chains are

  lemma {:induction false} FollowIsWalk(next: Next, root: FeedEvent, e: FeedEvent, n: nat, fuel: nat)
    requires Walk(next, root, n) == Some(e) && Walk(next, root, n + fuel) == None
    ensures Follow(next, e, fuel) != [] && Follow(next, e, fuel)[0] == e
    ensures forall i: nat :: i < |Follow(next, e, fuel)| ==> Walk(next, root, n + i) == Some(Follow(next, e, fuel)[i])
    ensures Walk(next, root, n + |Follow(next, e, fuel)|) == None
    decreases fuel
  {
    assert Walk(next, root, n + 1) == next(e);
    if next(e).Some? {
      FollowIsWalk(next, root, next(e).value, n + 1, fuel - 1);
      var tail, chain := Follow(next, next(e).value, fuel - 1), Follow(next, e, fuel);
      assert chain == [e] + tail;
      forall i: nat | i < |chain| ensures Walk(next, root, n + i) == Some(chain[i]) {
        if i > 0 {
          assert Walk(next, root, n + 1 + (i - 1)) == Some(tail[i - 1]);
        }
      }
      assert n + 1 + |tail| == n + |chain|;
    }
  }

  lemma FollowAt(next: Next, root: FeedEvent, fuel: nat, i: nat)
    requires Walk(next, root, fuel) == None && i < |Follow(next, root, fuel)|
    ensures Walk(next, root, i) == Some(Follow(next, root, fuel)[i])
  {
    FollowIsWalk(next, root, root, 0, fuel);
    assert Walk(next, root, 0 + i) == Some(Follow(next, root, fuel)[i]);
  }

  /** `Follow` with enough fuel lists the whole walk from the root. */
  lemma FollowFromRoot(next: Next, root: FeedEvent, fuel: nat)
    requires Walk(next, root, fuel) == None
    ensures IsChain(next, root, Follow(next, root, fuel))
  {
    var chain := Follow(next, root, fuel);
    FollowIsWalk(next, root, root, 0, fuel);
    forall i: nat | i < |chain| ensures Walk(next, root, i) == Some(chain[i]) {
      FollowAt(next, root, fuel, i);
    }
    WalkedToEnd(next, root, chain);
  }

  lemma WalkedToEnd(next: Next, root: FeedEvent, chain: Chain)
    requires chain != [] && chain[0] == root && Walk(next, root, |chain|) == None
    requires forall i: nat :: i < |chain| ==> Walk(next, root, i) == Some(chain[i])
    ensures IsChain(next, root, chain)
  {
    forall i, j | 0 <= i && j == i + 1 < |chain| ensures next(chain[i]) == Some(chain[j]) {
      assert Walk(next, root, j) == next(chain[i]);
    }
    assert Walk(next, root, |chain|) == next(chain[|chain| - 1]);
  }

  lemma FollowNoDup(next: Next, events: seq<FeedEvent>, root: FeedEvent)
    requires ToChild(next, events) && DistinctCids(events) && root in events && Walk(next, root, |events|) == None
    ensures var chain := Follow(next, root, |events|);
            NoDup(chain) && forall e :: e in chain ==> e in events
  {
    var chain := Follow(next, root, |events|);
    forall i, j | 0 <= i < j < |chain| ensures chain[i] != chain[j] {
      if chain[i] == chain[j] {
        FollowAt(next, root, |events|, i);
        FollowAt(next, root, |events|, j);
        RevisitReturns(next, events, root, i, j);
        CycleNeverEnds(next, root, j - i, |events|);
      }
    }
    forall e | e in chain ensures e in events {
      var i :| 0 <= i < |chain| && chain[i] == e;
      FollowAt(next, root, |events|, i);
      WalkStays(next, events, root, i);
    }
  }

  /** A root off every cycle yields a complete chain of first children, none of whose events repeats. */
  lemma ChainComplete(events: seq<FeedEvent>, root: FeedEvent)
    requires DistinctCids(events) && root in events && !OnCycle(FirstChildIn(events), root, |events|)
    ensures IsChain(FirstChildIn(events), root, ChainOf(events, root))
    ensures NoDup(ChainOf(events, root)) && forall e :: e in ChainOf(events, root) ==> e in events
  {
    FirstChildToChild(events);
    EndsIffOffCycle(FirstChildIn(events), events, root);
    FollowFromRoot(FirstChildIn(events), root, |events|);
    FollowNoDup(FirstChildIn(events), events, root);
  }

  // ---------------------------------------------------------------- forks

  /** No two events have the same parent. */
  ghost predicate NoFork(events: seq<FeedEvent>)
  {
    forall x, y :: x in events && y in events && x.parentCid.Some? && x.parentCid == y.parentCid ==> x == y
  }

  /** Events each of which is the parent of the one behind it. */
  ghost predicate Linked(path: Chain, events: seq<FeedEvent>)
  {
    && path != [] && (forall e :: e in path ==> e in events)
    && (forall i, j :: 0 <= i && j == i + 1 < |path| ==> path[j].parentCid == Some(path[i].cid))
  }

  lemma {:induction false} PathIsWalk(events: seq<FeedEvent>, path: Chain, i: nat)
    requires NoFork(events) && Linked(path, events) && i < |path|
    ensures Walk(FirstChildIn(events), path[0], i) == Some(path[i])
  {
    if i > 0 {
      PathIsWalk(events, path, i - 1);
      assert path[i] in path && path[i].parentCid == Some(path[i - 1].cid);
      assert path[i] in Children(events, path[i - 1].cid);
    }
  }

  /** Without forks the chain built from a root is the longest there is: every path from the root is a part of it. */
  lemma NoForkLongest(events: seq<FeedEvent>, root: FeedEvent, path: Chain)
    requires DistinctCids(events) && NoFork(events) && root in events && !OnCycle(FirstChildIn(events), root, |events|)
    requires Linked(path, events) && path[0] == root
    ensures path <= ChainOf(events, root)
  {
    WalkEndsIff(events, root);
    forall i | 0 <= i < |path| ensures Walk(FirstChildIn(events), root, i) == Some(path[i]) {
      PathIsWalk(events, path, i);
    }
    WalkedIsFollowed(FirstChildIn(events), root, path, |events|);
  }

  lemma WalkedIsFollowed(next: Next, root: FeedEvent, path: Chain, fuel: nat)
    requires Walk(next, root, fuel) == None && forall i: nat :: i < |path| ==> Walk(next, root, i) == Some(path[i])
    ensures path <= Follow(next, root, fuel)
  {
    var chain := Follow(next, root, fuel);
    FollowIsWalk(next, root, root, 0, fuel);
    assert Walk(next, root, 0 + |chain|) == None;
    forall i | 0 <= i < |path| && i < |chain| ensures path[i] == chain[i] {
      assert Walk(next, root, 0 + i) == Some(chain[i]);
    }
  }

  /** So it does not depend on the order in which the events are listed. */
  lemma NoForkOrderIrrelevant(events: seq<FeedEvent>, shuffled: seq<FeedEvent>, root: FeedEvent)
    requires DistinctCids(events) && DistinctCids(shuffled) && NoFork(events) && root in events
    requires forall e :: e in events <==> e in shuffled
    requires !OnCycle(FirstChildIn(events), root, |events|) && !OnCycle(FirstChildIn(shuffled), root, |shuffled|)
    ensures ChainOf(events, root) == ChainOf(shuffled, root)
  {
    var a, b := ChainOf(events, root), ChainOf(shuffled, root);
    ChainIsPath(events, root);
    ChainIsPath(shuffled, root);
    assert Linked(b, events) && Linked(a, shuffled);
    NoForkLongest(events, root, b);
    NoForkLongest(shuffled, root, a);
  }

  lemma ChainIsPath(events: seq<FeedEvent>, root: FeedEvent)
    requires DistinctCids(events) && root in events && !OnCycle(FirstChildIn(events), root, |events|)
    ensures Linked(ChainOf(events, root), events) && ChainOf(events, root)[0] == root
  {
    ChainComplete(events, root);
    FirstChildToChild(events);
  }

  /**
   * With a fork the chain follows the child listed first: of two branches the longer one is built or lost depending
   * on the order in which the files are listed.
   */
  lemma ForkFollowsFirstChild(root: FeedEvent, a: FeedEvent, b: FeedEvent, c: FeedEvent)
    requires root.parentCid == None && a.parentCid == b.parentCid == Some(root.cid) && c.parentCid == Some(b.cid)
    requires DistinctCids([root, a, b, c])
    ensures ChainOf([root, a, b, c], root) == [root, a]
    ensures ChainOf([root, b, c, a], root) == [root, b, c]
  {
    var events := [root, a, b, c];
    assert events[0].cid != events[1].cid && events[0].cid != events[2].cid && events[0].cid != events[3].cid;
    assert events[1].cid != events[2].cid && events[1].cid != events[3].cid && events[2].cid != events[3].cid;
    ShortBranchFirst(root, a, b, c);
    LongBranchFirst(root, b, c, a);
  }

  lemma ShortBranchFirst(root: FeedEvent, a: FeedEvent, b: FeedEvent, c: FeedEvent)
    requires root.parentCid == None && a.parentCid == b.parentCid == Some(root.cid) && c.parentCid == Some(b.cid)
    requires a.cid != root.cid && a.cid != b.cid
    ensures ChainOf([root, a, b, c], root) == [root, a]
  {
    ChildrenOfFour(root, a, b, c);
    FollowTwo(FirstChildIn([root, a, b, c]), root, a);
  }

  lemma LongBranchFirst(root: FeedEvent, b: FeedEvent, c: FeedEvent, a: FeedEvent)
    requires root.parentCid == None && a.parentCid == b.parentCid == Some(root.cid) && c.parentCid == Some(b.cid)
    requires b.cid != root.cid && c.cid != root.cid && c.cid != b.cid
    ensures ChainOf([root, b, c, a], root) == [root, b, c]
  {
    ChildrenOfFour(root, b, c, a);
    FollowThree(FirstChildIn([root, b, c, a]), root, b, c);
  }

  lemma FollowTwo(next: Next, x: FeedEvent, y: FeedEvent)
    requires next(x) == Some(y) && next(y) == None
    ensures Follow(next, x, 4) == [x, y]
  {
    assert Follow(next, y, 3) == [y];
  }

  lemma FollowThree(next: Next, x: FeedEvent, y: FeedEvent, z: FeedEvent)
    requires next(x) == Some(y) && next(y) == Some(z) && next(z) == None
    ensures Follow(next, x, 4) == [x, y, z]
  {
    assert Follow(next, z, 2) == [z];
    assert Follow(next, y, 3) == [y, z];
  }

  lemma ChildrenOfFour(r: FeedEvent, x: FeedEvent, y: FeedEvent, z: FeedEvent)
    ensures forall cid :: Children([r, x, y, z], cid) ==
                          (if r.parentCid == Some(cid) then [r] else []) +
                          (if x.parentCid == Some(cid) then [x] else []) +
                          (if y.parentCid == Some(cid) then [y] else []) +
                          (if z.parentCid == Some(cid) then [z] else [])
  {
    assert [r] == [] + [r] && [r, x] == [r] + [x] && [r, x, y] == [r, x] + [y] && [r, x, y, z] == [r, x, y] + [z];
    forall cid ensures Children([r, x, y, z], cid) ==
                       (if r.parentCid == Some(cid) then [r] else []) + (if x.parentCid == Some(cid) then [x] else []) +
                       (if y.parentCid == Some(cid) then [y] else []) + (if z.parentCid == Some(cid) then [z] else []) {
      ChildrenSnoc([], r, cid);
      ChildrenSnoc([r], x, cid);
      ChildrenSnoc([r, x], y, cid);
      ChildrenSnoc([r, x, y], z, cid);
    }
  }

  // ---------------------------------------------------------------- chains of different roots

  lemma ReachedHasParent(next: Next, events: seq<FeedEvent>, start: FeedEvent, n: nat, e: FeedEvent)
    requires ToChild(next, events)
    ensures n > 0 && Walk(next, start, n) == Some(e) ==> e.parentCid.Some?
  {
  }

  lemma MeetOnlyAtStart(next: Next, events: seq<FeedEvent>, a: FeedEvent, b: FeedEvent, i: nat, j: nat)
    requires ToChild(next, events) && DistinctCids(events) && a in events && b in events
    requires i <= j && a.parentCid == None
    requires Walk(next, a, i).Some? && Walk(next, a, i) == Walk(next, b, j)
    ensures a == b
  {
    ReachedHasParent(next, events, b, j - i, a);
    WalksMeetBackwards(next, events, a, b, i, j);
  }

  lemma FollowsMeet(next: Next, events: seq<FeedEvent>, a: FeedEvent, b: FeedEvent, e: FeedEvent)
    requires ToChild(next, events) && DistinctCids(events) && a in events && b in events
    requires a.parentCid == None && b.parentCid == None
    requires Walk(next, a, |events|) == None && Walk(next, b, |events|) == None
    requires e in Follow(next, a, |events|) && e in Follow(next, b, |events|)
    ensures a == b
  {
    var s, t := Follow(next, a, |events|), Follow(next, b, |events|);
    var i: nat :| i < |s| && s[i] == e;
    var j: nat :| j < |t| && t[j] == e;
    FollowAt(next, a, |events|, i);
    FollowAt(next, b, |events|, j);
    if i <= j {
      MeetOnlyAtStart(next, events, a, b, i, j);
    } else {
      MeetOnlyAtStart(next, events, b, a, j, i);
    }
  }

  /** Chains of two different parentless roots share no event. */
  lemma ChainsDisjoint(events: seq<FeedEvent>, a: FeedEvent, b: FeedEvent)
    requires DistinctCids(events) && a in events && b in events && a != b
    requires a.parentCid == None && b.parentCid == None
    ensures forall e :: !(e in ChainOf(events, a) && e in ChainOf(events, b))
  {
    FirstChildToChild(events);
    WalkEndsIff(events, a);
    WalkEndsIff(events, b);
    forall e | e in ChainOf(events, a) && e in ChainOf(events, b) ensures false {
      FollowsMeet(FirstChildIn(events), events, a, b, e);
    }
  }

  ghost function TotalLength(chains: seq<Chain>): nat
  {
    if chains == [] then 0 else TotalLength(chains[..|chains| - 1]) + |chains[|chains| - 1]|
  }

  ghost predicate ParentlessRoots(roots: seq<FeedEvent>, events: seq<FeedEvent>)
  {
    forall r :: r in roots ==> r in events && r.parentCid == None
  }

  /** The chains of parentless roots are disjoint parts of the events, so together they are no longer. */
  lemma ChainLengthsBounded(events: seq<FeedEvent>, roots: seq<FeedEvent>)
    requires DistinctCids(events) && NoDup(roots) && ParentlessRoots(roots, events)
    ensures TotalLength(ChainsOf(events, roots)) <= |events|
  {
    var chainOf := (r: FeedEvent) => ChainOf(events, r);
    forall r | r in roots ensures NoDup(chainOf(r)) && forall e :: e in chainOf(r) ==> e in events {
      WalkEndsIff(events, r);
      ChainComplete(events, r);
    }
    forall q, r, e | q in roots && r in roots && e in chainOf(q) && e in chainOf(r) ensures q == r {
      if q != r {
        ChainsDisjoint(events, q, r);
      }
    }
    var covered := Cover(chainOf, roots);
    forall e | e in covered ensures e in Elements(events) {
      var r :| r in roots && e in chainOf(r);
    }
    DistinctEvents(events);
    SubsetSize(covered, Elements(events));
  }

  /** Lists of distinct events, pairwise disjoint, are together as long as the set of their events is large. */
  lemma {:induction false} Cover(chainOf: FeedEvent -> Chain, roots: seq<FeedEvent>) returns (covered: set<FeedEvent>)
    requires NoDup(roots) && forall r :: r in roots ==> NoDup(chainOf(r))
    requires forall q, r, e :: q in roots && r in roots && e in chainOf(q) && e in chainOf(r) ==> q == r
    ensures |covered| == TotalLength(Map(roots, chainOf))
    ensures forall e :: e in covered ==> exists r :: r in roots && e in chainOf(r)
  {
    if roots == [] {
      covered := {};
    } else {
      var front, last := roots[..|roots| - 1], roots[|roots| - 1];
      assert roots == front + [last];
      assert forall r :: r in front ==> r in roots;
      var before := Cover(chainOf, front);
      forall e | e in before ensures e !in chainOf(last) {
        var r :| r in front && e in chainOf(r);
        assert last in roots && last !in front;
      }
      assert before !! Elements(chainOf(last));
      NoDupSize(chainOf(last));
      MapSnoc(front, last, chainOf);
      assert (Map(front, chainOf) + [chainOf(last)])[..|roots| - 1] == Map(front, chainOf);
      covered := before + Elements(chainOf(last));
    }
  }

  // ---------------------------------------------------------------- what is built

  /** No event listed before `child` has the same parent. */
  ghost predicate FirstListed(events: seq<FeedEvent>, e: FeedEvent, child: FeedEvent)
  {
    exists k :: 0 <= k < |events| && events[k] == child && child.parentCid == Some(e.cid) &&
                forall l :: 0 <= l < k ==> events[l].parentCid != Some(e.cid)
  }

  /** The chain goes from event to first listed child and ends with an event that has no child. */
  ghost predicate Complete(events: seq<FeedEvent>, chain: Chain)
  {
    && chain != [] && (forall i, j :: 0 <= i && j == i + 1 < |chain| ==> FirstListed(events, chain[i], chain[j]))
    && (forall e :: e in events ==> e.parentCid != Some(chain[|chain| - 1].cid))
  }

  ghost predicate HasStart(chains: seq<Chain>, e: FeedEvent)
  {
    exists c: Chain :: c in chains && c != [] && c[0] == e
  }

  /**
   * Complete chains begin with exactly the listed events that are parentless or carry the root CID, each once and in
   * the order of the list.
   */
  ghost predicate Built(events: seq<FeedEvent>, rootCid: string, chains: seq<Chain>)
  {
    && (forall c: Chain :: c in chains ==> Complete(events, c))
    && (forall c: Chain :: c in chains ==> c[0] in events && (c[0].parentCid == None || c[0].cid == rootCid))
    && (forall e :: e in events && (e.parentCid == None || e.cid == rootCid) ==> HasStart(chains, e))
    && (forall i, j :: 0 <= i < j < |chains| && chains[i] != [] && chains[j] != [] ==>
          Precedes(events, chains[i][0], chains[j][0]))
  }

  lemma FirstChildListed(events: seq<FeedEvent>, e: FeedEvent)
    ensures FirstChildIn(events)(e).Some? ==> FirstListed(events, e, FirstChildIn(events)(e).value)
    ensures FirstChildIn(events)(e).None? ==> forall x :: x in events ==> x.parentCid != Some(e.cid)
  {
    var children := Children(events, e.cid);
    if children != [] {
      var k := FilterFirst(events, (x: FeedEvent) => x.parentCid == Some(e.cid));
      assert events[k] == children[0];
    } else {
      assert forall x :: x in events && x.parentCid == Some(e.cid) ==> x in children;
    }
  }

  lemma ChainIsComplete(events: seq<FeedEvent>, root: FeedEvent)
    requires DistinctCids(events) && root in events && !OnCycle(FirstChildIn(events), root, |events|)
    ensures Complete(events, ChainOf(events, root)) && ChainOf(events, root)[0] == root
  {
    var chain := ChainOf(events, root);
    ChainComplete(events, root);
    forall i, j | 0 <= i && j == i + 1 < |chain| ensures FirstListed(events, chain[i], chain[j]) {
      FirstChildListed(events, chain[i]);
    }
    FirstChildListed(events, chain[|chain| - 1]);
  }

  lemma ChainsBuilt(events: seq<FeedEvent>, rootCid: string)
    requires DistinctCids(events)
    requires forall e :: e in events && (e.parentCid == None || e.cid == rootCid) ==>
               !OnCycle(FirstChildIn(events), e, |events|)
    ensures Built(events, rootCid, ChainsOf(events, Roots(events, rootCid)))
  {
    var roots := Roots(events, rootCid);
    var chains := ChainsOf(events, roots);
    forall i | 0 <= i < |roots| ensures Complete(events, chains[i]) && chains[i][0] == roots[i] {
      assert roots[i] in roots;
      ChainIsComplete(events, roots[i]);
    }
    StartsBuilt(events, rootCid, chains);
    forall i, j | 0 <= i < j < |chains| ensures Precedes(events, chains[i][0], chains[j][0]) {
      RootsInOrder(events, rootCid, i, j);
    }
  }

  lemma StartsBuilt(events: seq<FeedEvent>, rootCid: string, chains: seq<Chain>)
    requires |chains| == |Roots(events, rootCid)|
    requires forall i :: 0 <= i < |chains| ==> chains[i] != [] && chains[i][0] == Roots(events, rootCid)[i]
    ensures forall e :: e in events && (e.parentCid == None || e.cid == rootCid) ==> HasStart(chains, e)
    ensures forall c: Chain :: c in chains ==> c != [] && c[0] in Roots(events, rootCid)
  {
    var roots := Roots(events, rootCid);
    forall e | e in events && (e.parentCid == None || e.cid == rootCid) ensures HasStart(chains, e) {
      var i :| 0 <= i < |roots| && roots[i] == e;
      assert chains[i] in chains;
    }
  }

  lemma RootsInOrder(events: seq<FeedEvent>, rootCid: string, i: nat, j: nat)
    requires DistinctCids(events) && i < j < |Roots(events, rootCid)|
    ensures Precedes(events, Roots(events, rootCid)[i], Roots(events, rootCid)[j])
  {
    var roots := Roots(events, rootCid);
    DistinctEvents(events);
    forall p, q | 0 <= p < |events| && 0 <= q < |events| && events[p] == roots[i] && events[q] == roots[j]
      ensures p < q {
      FilterOrder(events, (e: FeedEvent) => e.parentCid == None || e.cid == rootCid, i, j, p, q);
    }
  }

  // ---------------------------------------------------------------- the methods

  /** `buildChains`. Its inner loop has no guard: it needs every root to be off the cycles. */
  method BuildChains(events: seq<FeedEvent>, rootCid: Option<string>) returns (chains: seq<Chain>)
    requires DistinctCids(events)
    requires rootCid.Some? && rootCid.value != "" ==>
               forall e :: e in events && (e.parentCid == None || e.cid == rootCid.value) ==>
                 !OnCycle(FirstChildIn(events), e, |events|)
    ensures rootCid.None? || rootCid.value == "" ==> chains == []
    ensures rootCid.Some? && rootCid.value != "" ==>
              Built(events, rootCid.value, chains) && chains == ChainsOf(events, Roots(events, rootCid.value))
  {
    chains := [];
    if rootCid.None? || rootCid.value == "" {
      return;
    }
    chains := CollectChains(events, Roots(events, rootCid.value));
    ChainsBuilt(events, rootCid.value);
  }

  /** The outer loop. */
  method CollectChains(events: seq<FeedEvent>, roots: seq<FeedEvent>) returns (chains: seq<Chain>)
    requires DistinctCids(events)
    requires forall r :: r in roots ==> r in events && !OnCycle(FirstChildIn(events), r, |events|)
    ensures chains == ChainsOf(events, roots)
  {
    chains := [];
    for k := 0 to |roots|
      invariant chains == ChainsOf(events, roots[..k])
    {
      WalkEndsIff(events, roots[k]);
      var chain := CollectChain(events, roots[k], FirstChildIn(events));
      chains := chains + [chain];
      assert roots[..k + 1] == roots[..k] + [roots[k]];
    }
    assert roots[..|roots|] == roots;
  }

  /** The walk the loop follows, one event at a time. */
  ghost predicate StepAgrees(next: Next, events: seq<FeedEvent>, e: FeedEvent)
  {
    var children := Children(events, e.cid);
    next(e) == if children == [] then None else Some(children[0])
  }

  /** The body of the outer loop. */
  method CollectChain(events: seq<FeedEvent>, root: FeedEvent, ghost next: Next) returns (chain: Chain)
    requires forall e :: StepAgrees(next, events, e)
    requires |events| > 0 && Walk(next, root, |events|) == None
    ensures chain == Follow(next, root, |events|) && chain != []
  {
    chain := [root];
    var current := root;
    ghost var before: Chain := [];
    NothingFollowed(next, root, |events|);
    while true
      invariant chain == before + [current]
      invariant Following(next, root, |events|, before, current)
      decreases |events| - |before|
    {
      var children := Children(events, current.cid);
      assert StepAgrees(next, events, current);
      if |children| == 0 {
        LastFollowed(next, root, |events|, before, current);
        break;
      }
      OneMoreFollowed(next, root, |events|, before, current);
      before := chain;
      current := children[0];
      chain := chain + [current];
    }
  }

  /** The walk has come to `current` by way of `before`, and the chain goes on from there. */
  ghost predicate Following(next: Next, root: FeedEvent, total: nat, before: Chain, current: FeedEvent)
  {
    && |before| < total && Walk(next, root, total) == None && Walk(next, root, |before|) == Some(current)
    && Follow(next, root, total) == before + Follow(next, current, total - |before|)
  }

  lemma NothingFollowed(next: Next, root: FeedEvent, total: nat)
    requires total > 0 && Walk(next, root, total) == None
    ensures Following(next, root, total, [], root)
  {
    assert [] + Follow(next, root, total) == Follow(next, root, total);
  }

  lemma OneMoreFollowed(next: Next, root: FeedEvent, total: nat, before: Chain, current: FeedEvent)
    requires Following(next, root, total, before, current) && next(current).Some?
    ensures Following(next, root, total, before + [current], next(current).value)
  {
    var child := next(current).value;
    assert Walk(next, root, |before| + 1) == Some(child);
    assert before + Follow(next, current, total - |before|) ==
           before + [current] + Follow(next, child, total - |before| - 1);
  }

  lemma LastFollowed(next: Next, root: FeedEvent, total: nat, before: Chain, current: FeedEvent)
    requires Following(next, root, total, before, current) && next(current) == None
    ensures Follow(next, root, total) == before + [current]
  {
  }

  /** The three rules: the longer chain, then the earlier root, then the root CID that collates lower. */
  predicate ChainLeq(a: Chain, b: Chain, collate: string -> int)
  {
    if |a| != |b| then |a| > |b|
    else if a == [] then true
    else if a[0].timestamp != b[0].timestamp then a[0].timestamp < b[0].timestamp
    else collate(a[0].cid) <= collate(b[0].cid)
  }

  /** No chain is longer, no longest one has an earlier root, and no such one has a root CID that collates lower. */
  ghost predicate Wins(winner: Chain, chains: seq<Chain>, collate: string -> int)
  {
    forall chain: Chain :: chain in chains ==>
      && |chain| <= |winner|
      && (|chain| == |winner| && chain != [] ==> chain[0].timestamp >= winner[0].timestamp)
      && (|chain| == |winner| && chain != [] && chain[0].timestamp == winner[0].timestamp ==>
            collate(winner[0].cid) <= collate(chain[0].cid))
  }

  /** Ranks two or more chains. */
  method RankChains(chains: seq<Chain>, collate: string -> int)
    returns (winningChain: Chain, discardedChains: seq<Chain>)
    requires chains != []
    ensures multiset([winningChain] + discardedChains) == multiset(chains)
    ensures Wins(winningChain, chains, collate)
    ensures Sorted(discardedChains, Ranking(collate))
  {
    var sorted := Sort(chains, Ranking(collate));
    SortedRanking(chains, collate);
    winningChain, discardedChains := sorted[0], sorted[1..];
    assert [sorted[0]] + sorted[1..] == sorted;
  }

  function Ranking(collate: string -> int): (Chain, Chain) -> bool
  {
    (a: Chain, b: Chain) => ChainLeq(a, b, collate)
  }

  lemma SortedRanking(chains: seq<Chain>, collate: string -> int)
    requires chains != []
    ensures var sorted := Sort(chains, Ranking(collate));
            Sorted(sorted, Ranking(collate)) && Wins(sorted[0], chains, collate)
  {
    var sorted := Sort(chains, Ranking(collate));
    SortSorted(chains, Ranking(collate));
    SortElements(chains, Ranking(collate));
    forall chain | chain in chains ensures ChainLeq(sorted[0], chain, collate) {
      var k :| 0 <= k < |sorted| && sorted[k] == chain;
      assert k > 0 ==> Ranking(collate)(sorted[0], sorted[k]);
    }
  }

  lemma EveryStartCounts(events: seq<FeedEvent>, rootCid: string)
    ensures forall e :: e in events && (e.parentCid == None || e.cid == rootCid) ==>
              ChainOf(events, e) in ChainsOf(events, Roots(events, rootCid))
  {
    var roots := Roots(events, rootCid);
    forall e | e in events && (e.parentCid == None || e.cid == rootCid)
      ensures ChainOf(events, e) in ChainsOf(events, roots) {
      var i :| 0 <= i < |roots| && roots[i] == e;
      assert ChainsOf(events, roots)[i] == ChainOf(events, e);
    }
  }

  /**
   * `resolveForks` on the loaded events. `collate` ranks strings as `localeCompare` orders them. The winner is first by
   * the three rules among the chains built, and winner and discarded chains are together exactly those chains.
   */
  method ResolveForks(events: seq<FeedEvent>, rootCid: Option<string>, collate: string -> int)
    returns (winningChain: Chain, discardedChains: seq<Chain>, ghost chains: seq<Chain>)
    requires DistinctCids(events)
    requires rootCid.Some? && rootCid.value != "" ==>
               forall e :: e in events && (e.parentCid == None || e.cid == rootCid.value) ==>
                 !OnCycle(FirstChildIn(events), e, |events|)
    ensures rootCid.None? || rootCid.value == "" ==> chains == []
    ensures rootCid.Some? && rootCid.value != "" ==>
              && Built(events, rootCid.value, chains)
              && forall e :: e in events && (e.parentCid == None || e.cid == rootCid.value) ==>
                   ChainOf(events, e) in chains && |ChainOf(events, e)| <= |winningChain|
    ensures chains == [] ==> winningChain == [] && discardedChains == []
    ensures chains != [] ==> multiset([winningChain] + discardedChains) == multiset(chains)
    ensures Wins(winningChain, chains, collate)
    ensures Sorted(discardedChains, Ranking(collate))
  {
    var built := BuildChains(events, rootCid);
    chains := built;
    if |built| == 0 {
      winningChain, discardedChains := [], [];
    } else if |built| == 1 {
      winningChain, discardedChains := built[0], [];
      assert built == [winningChain] == [winningChain] + [];
    } else {
      winningChain, discardedChains := RankChains(built, collate);
    }
    if rootCid.Some? && rootCid.value != "" {
      EveryStartCounts(events, rootCid.value);
    }
  }
}
