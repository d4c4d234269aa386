/** Shard keys, shard responsibility and shard coverage (src/utils/sharding.ts). */
module Sharding {
  import opened Sequences

  datatype ShardRange = ShardRange(start: int, end: int)

  /** A node lists shards one by one or as ranges with both ends included. */
  datatype Shards = Explicit(shards: seq<int>) | Ranges(ranges: seq<ShardRange>)

  datatype NodeShards = NodeShards(nodeId: string, shards: Shards)

  // ---------------------------------------------------------------- the shard of a CID

  function HexDigit(c: char): int
  {
    if '0' <= c <= '9' then c as int - '0' as int
    else if 'a' <= c <= 'f' then c as int - 'a' as int + 10
    else if 'A' <= c <= 'F' then c as int - 'A' as int + 10
    else -1
  }

  /** `Buffer.from(text, 'hex')`: whole pairs of digits up to the first character that is none. */
  function HexBytes(text: string): (r: seq<nat>)
    ensures forall b :: b in r ==> b < 256
  {
    if |text| < 2 || HexDigit(text[0]) < 0 || HexDigit(text[1]) < 0 then []
    else [16 * HexDigit(text[0]) + HexDigit(text[1])] + HexBytes(text[2..])
  }

  function WithoutPrefix(cid: string): string
  {
    if "0x" <= cid then cid[2..] else cid
  }

  /** `readUIntBE`. */
  function BigEndian(bytes: seq<nat>): nat
  {
    if bytes == [] then 0 else 256 * BigEndian(bytes[..|bytes| - 1]) + bytes[|bytes| - 1]
  }

  /** `hash48` is the first six bytes of the SHA-256 of the text, used when the CID is not hexadecimal. */
  function ShardKey(cid: string, shardCount: nat, hash48: string -> nat): (r: nat)
    requires shardCount > 0
    ensures r < shardCount
  {
    var bytes := HexBytes(WithoutPrefix(cid));
    if bytes == [] then hash48(cid) % shardCount
    else BigEndian(bytes[..if |bytes| < 6 then |bytes| else 6]) % shardCount
  }

  lemma {:induction false} HexBytesPrefix(a: string, b: string, n: nat)
    requires |a| >= 2 * n && |b| >= 2 * n && a[..2 * n] == b[..2 * n] && |HexBytes(a)| >= n
    ensures |HexBytes(b)| >= n && HexBytes(a)[..n] == HexBytes(b)[..n]
  {
    if n > 0 {
      assert a[0] == a[..2 * n][0] == b[0] && a[1] == a[..2 * n][1] == b[1];
      assert a[2..][..2 * (n - 1)] == a[..2 * n][2..] == b[..2 * n][2..] == b[2..][..2 * (n - 1)];
      HexBytesPrefix(a[2..], b[2..], n - 1);
      assert HexBytes(a)[..n] == [HexBytes(a)[0]] + HexBytes(a[2..])[..n - 1];
      assert HexBytes(b)[..n] == [HexBytes(b)[0]] + HexBytes(b[2..])[..n - 1];
    }
  }

  /** The shard depends on the first twelve hexadecimal digits only, with or without the "0x" in front of them. */
  lemma ShardKeyLocal(a: string, b: string, shardCount: nat, hash48: string -> nat)
    requires shardCount > 0 && |WithoutPrefix(a)| >= 12 && |WithoutPrefix(b)| >= 12
    requires WithoutPrefix(a)[..12] == WithoutPrefix(b)[..12] && |HexBytes(WithoutPrefix(a))| >= 6
    ensures ShardKey(a, shardCount, hash48) == ShardKey(b, shardCount, hash48)
  {
    HexBytesPrefix(WithoutPrefix(a), WithoutPrefix(b), 6);
  }

  /** The first `n` characters are hexadecimal digits. */
  ghost predicate AllHex(text: string, n: nat)
    requires n <= |text|
  {
    forall i :: 0 <= i < n ==> HexDigit(text[i]) >= 0
  }

  /** The number a text of hexadecimal digits denotes. */
  ghost function HexNumber(text: string): int
  {
    if text == [] then 0 else 16 * HexNumber(text[..|text| - 1]) + HexDigit(text[|text| - 1])
  }

  /** The byte two digits denote. */
  ghost function Pair(text: string, k: nat): int
    requires 2 * k + 1 < |text|
  {
    16 * HexDigit(text[2 * k]) + HexDigit(text[2 * k + 1])
  }

  lemma HexTail(text: string, n: nat)
    requires 2 <= n <= |text| && AllHex(text, n)
    ensures AllHex(text[2..], n - 2) && HexBytes(text) == [Pair(text, 0)] + HexBytes(text[2..])
  {
    forall i | 0 <= i < n - 2 ensures HexDigit(text[2..][i]) >= 0 {
      assert text[2..][i] == text[i + 2];
    }
  }

  lemma {:induction false} HexPairs(text: string, n: nat)
    requires |text| >= 2 * n && AllHex(text, 2 * n)
    ensures |HexBytes(text)| >= n && forall k :: 0 <= k < n ==> HexBytes(text)[k] == Pair(text, k)
  {
    if n > 0 {
      HexTail(text, 2 * n);
      HexPairs(text[2..], n - 1);
      forall k | 0 < k < n ensures HexBytes(text)[k] == Pair(text, k) {
        assert Pair(text[2..], k - 1) == Pair(text, k);
      }
    }
  }

  lemma {:induction false} PairsAreNumber(text: string, bytes: seq<nat>, n: nat)
    requires |text| >= 2 * n && |bytes| >= n
    requires forall k :: 0 <= k < n ==> bytes[k] == Pair(text, k)
    ensures BigEndian(bytes[..n]) == HexNumber(text[..2 * n])
  {
    if n > 0 {
      PairsAreNumber(text, bytes, n - 1);
      assert bytes[n - 1] == Pair(text, n - 1);
      assert bytes[..n][..n - 1] == bytes[..n - 1];
      assert text[..2 * n][..2 * n - 1] == text[..2 * n - 1];
      assert text[..2 * n - 1][..2 * n - 2] == text[..2 * (n - 1)];
      assert HexNumber(text[..2 * n]) == 16 * HexNumber(text[..2 * n - 1]) + HexDigit(text[2 * n - 1]);
    }
  }

  /** The shard of a hexadecimal CID is the number its first twelve digits denote, modulo the number of shards. */
  lemma ShardKeyIsNumber(cid: string, shardCount: nat, hash48: string -> nat)
    requires shardCount > 0 && |WithoutPrefix(cid)| >= 12 && AllHex(WithoutPrefix(cid), 12)
    ensures ShardKey(cid, shardCount, hash48) == HexNumber(WithoutPrefix(cid)[..12]) % shardCount
  {
    var text := WithoutPrefix(cid);
    HexPairs(text, 6);
    PairsAreNumber(text, HexBytes(text), 6);
  }

  lemma HexDigits(d: nat)
    ensures d < 16 ==> HexDigit("0123456789abcdef"[d]) == d && HexDigit("0123456789ABCDEF"[d]) == d
    ensures forall c: char :: c !in "0123456789abcdefABCDEF" ==> HexDigit(c) == -1
  {
  }

  /** The pairs of digits end where `n` pairs are followed by something else. */
  lemma {:induction false} HexBytesEnd(text: string, n: nat)
    requires |text| >= 2 * n && AllHex(text, 2 * n)
    requires |text| < 2 * n + 2 || HexDigit(text[2 * n]) < 0 || HexDigit(text[2 * n + 1]) < 0
    ensures |HexBytes(text)| == n
  {
    if n > 0 {
      HexTail(text, 2 * n);
      HexBytesEnd(text[2..], n - 1);
    }
  }

  /**
   * The shard of any CID whose text, without the "0x" it may begin with, begins with exactly `n` pairs of hexadecimal
   * digits: the number the first six of them denote, or the hash of the CID if there are none.
   */
  lemma ShardKeyMeans(cid: string, text: string, n: nat, shardCount: nat, hash48: string -> nat)
    requires shardCount > 0 && (cid == "0x" + text || (cid == text && !("0x" <= cid)))
    requires |text| >= 2 * n && AllHex(text, 2 * n)
    requires |text| < 2 * n + 2 || HexDigit(text[2 * n]) < 0 || HexDigit(text[2 * n + 1]) < 0
    ensures ShardKey(cid, shardCount, hash48) ==
            if n == 0 then hash48(cid) % shardCount else HexNumber(text[..2 * (if n < 6 then n else 6)]) % shardCount
  {
    var m := if n < 6 then n else 6;
    assert WithoutPrefix(cid) == text;
    HexBytesEnd(text, n);
    HexPairs(text, m);
    PairsAreNumber(text, HexBytes(text), m);
  }

  // ---------------------------------------------------------------- responsibility

  predicate InRange(shard: int, range: ShardRange)
  {
    range.start <= shard <= range.end
  }

  predicate Responsible(shardKey: int, shards: Shards)
  {
    match shards
    case Explicit(list) => shardKey in list
    case Ranges(ranges) => exists r :: r in ranges && InRange(shardKey, r)
  }

  function EligibleNodes(shardKey: int, nodes: seq<NodeShards>): seq<string>
  {
    Map(Filter(nodes, (n: NodeShards) => Responsible(shardKey, n.shards)), (n: NodeShards) => n.nodeId)
  }

  // ---------------------------------------------------------------- expansion

  function RangeList(start: int, end: int): (r: seq<int>)
    ensures |r| == if start <= end then end - start + 1 else 0
    ensures forall i :: 0 <= i < |r| ==> r[i] == start + i
  {
    seq(if start <= end then end - start + 1 else 0, i => start + i)
  }

  function FullExpansion(ranges: seq<ShardRange>): seq<int>
  {
    if ranges == [] then []
    else
      var last := ranges[|ranges| - 1];
      FullExpansion(ranges[..|ranges| - 1]) + RangeList(last.start, last.end)
  }

  function Take(list: seq<int>, n: nat): seq<int>
  {
    if n < |list| then list[..n] else list
  }

  /** What `expandShardRanges` yields: ranges are cut off at `maxShards` entries, an explicit list never is. */
  function Expansion(shards: Shards, maxShards: nat): seq<int>
  {
    match shards
    case Explicit(list) => list
    case Ranges(ranges) => Take(FullExpansion(ranges), maxShards)
  }

  method ExpandShardRanges(shards: Shards, maxShards: nat) returns (expanded: seq<int>)
    ensures expanded == Expansion(shards, maxShards)
  {
    if shards.Explicit? {
      return shards.shards;
    }
    var ranges := shards.ranges;
    expanded := [];
    for k := 0 to |ranges|
      invariant expanded == Take(FullExpansion(ranges[..k]), maxShards)
    {
      assert ranges[..k + 1][..k] == ranges[..k];
      expanded := ExpandRange(expanded, ranges[k], maxShards, FullExpansion(ranges[..k]));
    }
    assert ranges[..|ranges|] == ranges;
  }

  /** The inner loop; `done` is what the earlier ranges expand to. */
  method ExpandRange(before: seq<int>, range: ShardRange, maxShards: nat, ghost done: seq<int>)
    returns (expanded: seq<int>)
    requires before == Take(done, maxShards)
    ensures expanded == Take(done + RangeList(range.start, range.end), maxShards)
  {
    expanded := before;
    var i := range.start;
    assert done + RangeList(range.start, i - 1) == done;
    while i <= range.end && |expanded| < maxShards
      invariant range.start <= i && (range.start <= range.end ==> i <= range.end + 1)
      invariant range.start > range.end ==> i == range.start
      invariant expanded == Take(done + RangeList(range.start, i - 1), maxShards)
    {
      assert RangeList(range.start, i) == RangeList(range.start, i - 1) + [i];
      assert done + RangeList(range.start, i) == done + RangeList(range.start, i - 1) + [i];
      expanded := expanded + [i];
      i := i + 1;
    }
    if i <= range.end {
      assert RangeList(range.start, range.end) == RangeList(range.start, i - 1) + RangeList(i, range.end);
      TakeSaturated(done + RangeList(range.start, i - 1), RangeList(i, range.end), maxShards);
      assert done + RangeList(range.start, range.end) == done + RangeList(range.start, i - 1) + RangeList(i, range.end);
    }
  }

  lemma TakeSaturated(a: seq<int>, b: seq<int>, n: nat)
    requires |a| >= n
    ensures Take(a + b, n) == Take(a, n)
  {
    assert (a + b)[..n] == a[..n];
  }

  // ---------------------------------------------------------------- counting

  function Occurrences(list: seq<int>, shard: int): nat
  {
    multiset(list)[shard]
  }

  /** How often the expansions of the nodes mention a shard. */
  function Coverage(nodes: seq<NodeShards>, shardCount: nat, shard: int): nat
  {
    if nodes == [] then 0
    else Coverage(nodes[..|nodes| - 1], shardCount, shard) +
         Occurrences(Expansion(nodes[|nodes| - 1].shards, shardCount), shard)
  }

  function CoverageList(nodes: seq<NodeShards>, shardCount: nat): (r: seq<nat>)
    ensures |r| == shardCount
  {
    seq(shardCount, shard => Coverage(nodes, shardCount, shard))
  }

  datatype Distribution = Distribution(
    totalShards: nat, coveredShards: nat, uncoveredShards: nat, avgTenths: nat, minNodesPerShard: nat,
    maxNodesPerShard: nat)

  function Positive(): nat -> bool
  {
    (count: nat) => count > 0
  }

  /** `Math.round(10 * avg)`, the average taken over the covered shards. */
  function RoundedTenths(total: nat, covered: nat): nat
  {
    if covered > 0 then (20 * total + covered) / (2 * covered) else 0
  }

  method CountCoverage(nodes: seq<NodeShards>, shardCount: nat) returns (shardCoverage: array<nat>)
    ensures fresh(shardCoverage) && shardCoverage[..] == CoverageList(nodes, shardCount)
  {
    shardCoverage := new nat[shardCount](_ => 0);
    for n := 0 to |nodes|
      invariant fresh(shardCoverage) && shardCoverage.Length == shardCount
      invariant forall s :: 0 <= s < shardCount ==> shardCoverage[s] == Coverage(nodes[..n], shardCount, s)
    {
      OneMoreNode(nodes, n, shardCount);
      var shards := ExpandShardRanges(nodes[n].shards, shardCount);
      AddOccurrences(shardCoverage, shards);
    }
    assert nodes[..|nodes|] == nodes;
  }

  lemma OneMoreNode(nodes: seq<NodeShards>, n: nat, shardCount: nat)
    requires n < |nodes|
    ensures forall s :: Coverage(nodes[..n + 1], shardCount, s) ==
                        Coverage(nodes[..n], shardCount, s) + Occurrences(Expansion(nodes[n].shards, shardCount), s)
  {
    assert nodes[..n + 1][..n] == nodes[..n];
  }

  /** Increments the cell of every listed shard; a shard outside the array changes no cell. */
  method AddOccurrences(cells: array<nat>, shards: seq<int>)
    modifies cells
    ensures forall s :: 0 <= s < cells.Length ==> cells[s] == old(cells[s]) + Occurrences(shards, s)
  {
    for k := 0 to |shards|
      invariant forall s :: 0 <= s < cells.Length ==> cells[s] == old(cells[s]) + Occurrences(shards[..k], s)
    {
      assert shards[..k + 1] == shards[..k] + [shards[k]];
      var shard := shards[k];
      if 0 <= shard < cells.Length {
        cells[shard] := cells[shard] + 1;
      }
    }
    assert shards[..|shards|] == shards;
  }

  /** `calculateShardDistribution`; its minimum is taken together with a literal 0 and is therefore always 0. */
  method CalculateShardDistribution(nodes: seq<NodeShards>, shardCount: nat) returns (d: Distribution)
    requires shardCount > 0
    ensures var cells := CoverageList(nodes, shardCount);
            && d.totalShards == shardCount
            && d.coveredShards == |Filter(cells, Positive())| && d.coveredShards + d.uncoveredShards == shardCount
            && d.avgTenths == RoundedTenths(Sum(cells), d.coveredShards)
            && (d.coveredShards == 0 ==> d.avgTenths == 0)
            && (d.coveredShards > 0 ==>
                  var doubled := 2 * d.coveredShards * d.avgTenths;
                  doubled <= 20 * Sum(cells) + d.coveredShards < doubled + 2 * d.coveredShards)
            && d.minNodesPerShard == 0
            && d.maxNodesPerShard in cells && forall c :: c in cells ==> c <= d.maxNodesPerShard
  {
    var shardCoverage := CountCoverage(nodes, shardCount);
    var cells := shardCoverage[..];
    var covered := Filter(cells, Positive());
    d := Distribution(shardCount, |covered|, shardCount - |covered|, RoundedTenths(Sum(cells), |covered|),
                      LeastOf(covered, 0), GreatestOf(cells));
    if |covered| > 0 {
      TenthsRounded(Sum(cells), |covered|);
    }
  }

  /** The tenths are the nearest whole number to ten times the average, a half rounded up. */
  lemma TenthsRounded(total: nat, covered: nat)
    requires covered > 0
    ensures var doubled := 2 * covered * RoundedTenths(total, covered);
            doubled <= 20 * total + covered < doubled + 2 * covered
  {
  }

  function GreatestOf(list: seq<nat>): (r: nat)
    requires list != []
    ensures r in list && forall c :: c in list ==> c <= r
  {
    var last := list[|list| - 1];
    assert list == list[..|list| - 1] + [last];
    if |list| == 1 then last
    else
      var front := GreatestOf(list[..|list| - 1]);
      if last > front then last else front
  }

  function LeastOf(list: seq<nat>, seed: nat): (r: nat)
    ensures r <= seed
  {
    if list == [] then seed
    else
      var front := LeastOf(list[..|list| - 1], seed);
      if list[|list| - 1] < front then list[|list| - 1] else front
  }

  // ---------------------------------------------------------------- coverage is eligibility

  ghost predicate Disjoint(a: ShardRange, b: ShardRange)
  {
    forall s :: !(InRange(s, a) && InRange(s, b))
  }

  /** Ranges inside [0, shardCount) that do not overlap, or an explicit list without duplicates. */
  ghost predicate Tidy(shards: Shards, shardCount: nat)
  {
    match shards
    case Explicit(list) => NoDup(list)
    case Ranges(ranges) =>
      && (forall r, s :: r in ranges && InRange(s, r) ==> 0 <= s < shardCount)
      && (forall i, j :: 0 <= i < j < |ranges| ==> Disjoint(ranges[i], ranges[j]))
  }

  lemma {:induction false} ExpansionMembers(ranges: seq<ShardRange>, shard: int)
    ensures shard in FullExpansion(ranges) <==> exists r :: r in ranges && InRange(shard, r)
  {
    if ranges != [] {
      var front, last := ranges[..|ranges| - 1], ranges[|ranges| - 1];
      assert ranges == front + [last];
      ExpansionMembers(front, shard);
      var list := RangeList(last.start, last.end);
      if InRange(shard, last) {
        assert list[shard - last.start] == shard;
      }
    }
  }

  lemma {:induction false} TidyExpansion(ranges: seq<ShardRange>, shardCount: nat)
    requires Tidy(Ranges(ranges), shardCount)
    ensures NoDup(FullExpansion(ranges))
  {
    if ranges != [] {
      var front, last := ranges[..|ranges| - 1], ranges[|ranges| - 1];
      assert ranges == front + [last];
      TidyExpansion(front, shardCount);
      var done, list := FullExpansion(front), RangeList(last.start, last.end);
      forall i, j | 0 <= i < |done| && 0 <= j < |list| ensures done[i] != list[j] {
        ExpansionMembers(front, done[i]);
        var r :| r in front && InRange(done[i], r);
        var k :| 0 <= k < |front| && front[k] == r;
        assert Disjoint(ranges[k], ranges[|ranges| - 1]);
      }
    }
  }

  lemma Interval(n: nat) returns (all: set<int>)
    ensures |all| == n && forall s :: s in all <==> 0 <= s < n
  {
    var list := RangeList(0, n - 1);
    assert NoDup(list);
    NoDupSize(list);
    all := Elements(list);
    forall s | 0 <= s < n ensures s in all {
      assert list[s] == s;
    }
  }

  /** A tidy assignment is never cut off by the limit that `calculateShardDistribution` passes. */
  lemma NeverTruncated(ranges: seq<ShardRange>, shardCount: nat)
    requires Tidy(Ranges(ranges), shardCount)
    ensures Expansion(Ranges(ranges), shardCount) == FullExpansion(ranges)
  {
    TidyExpansion(ranges, shardCount);
    var all := Interval(shardCount);
    forall s | s in FullExpansion(ranges) ensures s in all {
      ExpansionMembers(ranges, s);
    }
    NoDupWithin(FullExpansion(ranges), all);
  }

  /** A tidy node is counted once for each shard it is responsible for and not at all for the others. */
  lemma TidyCountedOnce(shards: Shards, shardCount: nat, shard: int)
    requires Tidy(shards, shardCount)
    ensures Occurrences(Expansion(shards, shardCount), shard) == if Responsible(shard, shards) then 1 else 0
  {
    if shards.Ranges? {
      NeverTruncated(shards.ranges, shardCount);
      TidyExpansion(shards.ranges, shardCount);
      ExpansionMembers(shards.ranges, shard);
    }
    NoDupCounts(Expansion(shards, shardCount));
  }

  /** Each cell of the coverage array is the number of nodes eligible for its shard. */
  lemma {:induction false} CoverageIsEligibility(nodes: seq<NodeShards>, shardCount: nat, shard: int)
    requires forall n :: n in nodes ==> Tidy(n.shards, shardCount)
    ensures Coverage(nodes, shardCount, shard) == |EligibleNodes(shard, nodes)|
  {
    if nodes != [] {
      var front, last := nodes[..|nodes| - 1], nodes[|nodes| - 1];
      assert nodes == front + [last];
      CoverageIsEligibility(front, shardCount, shard);
      TidyCountedOnce(last.shards, shardCount, shard);
    }
  }

  // ---------------------------------------------------------------- exactly when they agree

  /** What the expansion lists is what the node is responsible for. */
  lemma ExpansionResponsible(shards: Shards, shardCount: nat, shard: int)
    requires shard in Expansion(shards, shardCount)
    ensures Responsible(shard, shards)
  {
    if shards.Ranges? {
      ExpansionMembers(shards.ranges, shard);
    }
  }

  /** No shard of the array is listed twice. */
  ghost predicate ListedOnce(list: seq<int>, shardCount: nat)
  {
    forall i, j :: 0 <= i < j < |list| && list[i] == list[j] ==> !(0 <= list[i] < shardCount)
  }

  /** Every shard of the array behind the cut occurs before it as well. */
  ghost predicate CutHidesNothing(shards: Shards, shardCount: nat)
  {
    shards.Ranges? ==>
      forall i ::
        shardCount <= i < |FullExpansion(shards.ranges)| && 0 <= FullExpansion(shards.ranges)[i] < shardCount ==>
        FullExpansion(shards.ranges)[i] in FullExpansion(shards.ranges)[..shardCount]
  }

  /**
   * A node is counted as it should be, once for each shard of the array it is responsible for and not at all for the
   * others, if and only if its expansion lists no such shard twice and hides none behind the cut.
   */
  lemma CountedOnceIff(shards: Shards, shardCount: nat)
    ensures (forall shard :: 0 <= shard < shardCount ==>
               Occurrences(Expansion(shards, shardCount), shard) == if Responsible(shard, shards) then 1 else 0) <==>
            ListedOnce(Expansion(shards, shardCount), shardCount) && CutHidesNothing(shards, shardCount)
  {
    var list := Expansion(shards, shardCount);
    if ListedOnce(list, shardCount) && CutHidesNothing(shards, shardCount) {
      forall shard | 0 <= shard < shardCount
        ensures Occurrences(list, shard) == if Responsible(shard, shards) then 1 else 0 {
        OccursIff(list, shard);
        NothingHidden(shards, shardCount, shard);
      }
    } else if !ListedOnce(list, shardCount) {
      var i, j :| 0 <= i < j < |list| && list[i] == list[j] && 0 <= list[i] < shardCount;
      OccursIff(list, list[i]);
    } else {
      var full := FullExpansion(shards.ranges);
      var i :| shardCount <= i < |full| && 0 <= full[i] < shardCount && full[i] !in full[..shardCount];
      OccursIff(list, full[i]);
      ExpansionMembers(shards.ranges, full[i]);
    }
  }

  lemma OccursIff(list: seq<int>, shard: int)
    ensures Occurrences(list, shard) > 0 <==> shard in list
    ensures Occurrences(list, shard) > 1 <==> exists i, j :: 0 <= i < j < |list| && list[i] == list[j] == shard
  {
    assert Occurrences(list, shard) > 0 <==> shard in multiset(list);
    if i, j :| 0 <= i < j < |list| && list[i] == list[j] == shard {
      assert list == list[..i] + [shard] + list[i + 1..j] + [shard] + list[j + 1..];
    } else {
      OccursOnce(list, shard);
    }
  }

  lemma {:induction false} OccursOnce(list: seq<int>, shard: int)
    requires forall i, j :: 0 <= i < j < |list| ==> !(list[i] == shard && list[j] == shard)
    ensures Occurrences(list, shard) <= 1
  {
    if list != [] {
      var front, last := list[..|list| - 1], list[|list| - 1];
      assert list == front + [last];
      OccursOnce(front, shard);
      if last == shard {
        assert shard !in multiset(front);
      }
    }
  }

  /** A node responsible for a shard that its expansion does not list has it behind the cut only. */
  lemma HiddenIff(shards: Shards, shardCount: nat, shard: int)
    ensures Responsible(shard, shards) && shard !in Expansion(shards, shardCount) <==>
            && shards.Ranges? && shard in FullExpansion(shards.ranges)
            && |FullExpansion(shards.ranges)| > shardCount && shard !in FullExpansion(shards.ranges)[..shardCount]
  {
    if shards.Ranges? {
      ExpansionMembers(shards.ranges, shard);
    }
  }

  lemma NothingHidden(shards: Shards, shardCount: nat, shard: int)
    requires CutHidesNothing(shards, shardCount) && 0 <= shard < shardCount
    ensures shard in Expansion(shards, shardCount) <==> Responsible(shard, shards)
  {
    HiddenIff(shards, shardCount, shard);
    if shard in Expansion(shards, shardCount) {
      ExpansionResponsible(shards, shardCount, shard);
    }
  }

  /** How often the nodes list a shard beyond the first time. */
  function Surplus(nodes: seq<NodeShards>, shardCount: nat, shard: int): nat
  {
    if nodes == [] then 0
    else
      var occurrences := Occurrences(Expansion(nodes[|nodes| - 1].shards, shardCount), shard);
      Surplus(nodes[..|nodes| - 1], shardCount, shard) + if occurrences > 1 then occurrences - 1 else 0
  }

  /** The node is responsible for the shard, but its expansion does not list it. */
  function Hides(shardCount: nat, shard: int): NodeShards -> bool
  {
    (n: NodeShards) => Responsible(shard, n.shards) && shard !in Expansion(n.shards, shardCount)
  }

  /**
   * What a cell of the coverage array counts, whatever the nodes: the nodes eligible for its shard, plus what is listed
   * more than once, less the nodes that hide the shard.
   */
  lemma {:induction false} CoverageBalance(nodes: seq<NodeShards>, shardCount: nat, shard: int)
    ensures Coverage(nodes, shardCount, shard) + |Filter(nodes, Hides(shardCount, shard))| ==
            |EligibleNodes(shard, nodes)| + Surplus(nodes, shardCount, shard)
  {
    if nodes != [] {
      var front, last := nodes[..|nodes| - 1], nodes[|nodes| - 1];
      CoverageBalance(front, shardCount, shard);
      var list := Expansion(last.shards, shardCount);
      assert Occurrences(list, shard) > 0 <==> shard in list;
      if shard in list {
        ExpansionResponsible(last.shards, shardCount, shard);
      }
    }
  }

  /**
   * A cell of the array is the number of nodes eligible for its shard if and only if what is listed more than once
   * makes up for the nodes that hide the shard.
   */
  lemma CoverageIsEligibilityIff(nodes: seq<NodeShards>, shardCount: nat, shard: int)
    ensures Coverage(nodes, shardCount, shard) == |EligibleNodes(shard, nodes)| <==>
            Surplus(nodes, shardCount, shard) == |Filter(nodes, Hides(shardCount, shard))|
  {
    CoverageBalance(nodes, shardCount, shard);
  }

  /** No node's ranges expand to more entries than there are shards. */
  ghost predicate Complete(shards: Shards, shardCount: nat)
  {
    shards.Ranges? ==> |FullExpansion(shards.ranges)| <= shardCount
  }

  /** Some node's expansion lists the shard. */
  ghost predicate SomeLists(nodes: seq<NodeShards>, shardCount: nat, shard: int)
  {
    exists n :: n in nodes && shard in Expansion(n.shards, shardCount)
  }

  lemma {:induction false} CoveredIffListed(nodes: seq<NodeShards>, shardCount: nat, shard: int)
    ensures Coverage(nodes, shardCount, shard) > 0 <==> SomeLists(nodes, shardCount, shard)
  {
    if nodes != [] {
      var front, last := nodes[..|nodes| - 1], nodes[|nodes| - 1];
      assert nodes == front + [last];
      CoveredIffListed(front, shardCount, shard);
      var list := Expansion(last.shards, shardCount);
      assert Occurrences(list, shard) > 0 <==> shard in list;
    }
  }

  ghost function PositiveCells(cells: seq<nat>): set<int>
  {
    set s | 0 <= s < |cells| && cells[s] > 0
  }

  ghost predicate SomeResponsible(nodes: seq<NodeShards>, shard: int)
  {
    exists n :: n in nodes && Responsible(shard, n.shards)
  }

  ghost function CoveredShards(nodes: seq<NodeShards>, shardCount: nat): set<int>
  {
    set s | 0 <= s < shardCount && SomeResponsible(nodes, s)
  }

  lemma {:induction false} PositiveCount(cells: seq<nat>)
    ensures |Filter(cells, Positive())| == |PositiveCells(cells)|
  {
    if cells == [] {
      assert PositiveCells(cells) == {};
    } else {
      var front, last := cells[..|cells| - 1], |cells| - 1;
      PositiveCount(front);
      assert PositiveCells(cells) == if cells[last] > 0 then PositiveCells(front) + {last} else PositiveCells(front);
    }
  }

  /**
   * `coveredShards` counts exactly the shards of the array some node is responsible for if and only if each of them is
   * listed by some node before the cut.
   */
  lemma CoveredShardsExactIff(nodes: seq<NodeShards>, shardCount: nat)
    ensures |Filter(CoverageList(nodes, shardCount), Positive())| == |CoveredShards(nodes, shardCount)| <==>
            forall shard :: 0 <= shard < shardCount && SomeResponsible(nodes, shard) ==>
              SomeLists(nodes, shardCount, shard)
  {
    var cells := CoverageList(nodes, shardCount);
    var counted, covered := PositiveCells(cells), CoveredShards(nodes, shardCount);
    PositiveCount(cells);
    forall s | 0 <= s < shardCount ensures s in counted <==> SomeLists(nodes, shardCount, s) {
      CoveredIffListed(nodes, shardCount, s);
    }
    forall s | s in counted ensures s in covered {
      var n :| n in nodes && s in Expansion(n.shards, shardCount);
      ExpansionResponsible(n.shards, shardCount, s);
    }
    SameSize(counted, covered);
    assert counted == covered <==> forall s :: s in covered ==> s in counted;
  }

  lemma SameSize(a: set<int>, b: set<int>)
    requires a <= b
    ensures |a| == |b| <==> a == b
  {
    assert b == a + (b - a);
  }

  /** So it does as long as no expansion is cut off. */
  lemma CoveredShardsExact(nodes: seq<NodeShards>, shardCount: nat)
    requires forall n :: n in nodes ==> Complete(n.shards, shardCount)
    ensures |Filter(CoverageList(nodes, shardCount), Positive())| == |CoveredShards(nodes, shardCount)|
  {
    CoveredShardsExactIff(nodes, shardCount);
    forall shard | 0 <= shard < shardCount && SomeResponsible(nodes, shard)
      ensures SomeLists(nodes, shardCount, shard) {
      var n :| n in nodes && Responsible(shard, n.shards);
      HiddenIff(n.shards, shardCount, shard);
    }
  }

  lemma ExpansionOfTwo(r: ShardRange, s: ShardRange)
    ensures FullExpansion([r, s]) == RangeList(r.start, r.end) + RangeList(s.start, s.end)
  {
    assert [r, s][..1] == [r] && [r][..0] == [];
    assert FullExpansion([]) == [];
    assert FullExpansion([r]) == RangeList(r.start, r.end);
  }

  /** Overlapping ranges count a node twice. */
  lemma OverlapCountsTwice()
    ensures var nodes := [NodeShards("a", Ranges([ShardRange(0, 0), ShardRange(0, 0)]))];
            Coverage(nodes, 2, 0) == 2 && |EligibleNodes(0, nodes)| == 1
  {
    var r := ShardRange(0, 0);
    var nodes := [NodeShards("a", Ranges([r, r]))];
    ExpansionOfTwo(r, r);
    assert RangeList(0, 0) == [0];
    assert Expansion(nodes[0].shards, 2) == [0, 0];
    assert nodes[..0] == [];
    assert r in [r, r] && InRange(0, r);
  }

  /** Ranges that expand to more entries than there are shards hide a shard that comes late. */
  lemma LongExpansionHidesShard()
    ensures var nodes := [NodeShards("a", Ranges([ShardRange(5, 6), ShardRange(1, 1)]))];
            Coverage(nodes, 2, 1) == 0 && |EligibleNodes(1, nodes)| == 1
  {
    var r, s := ShardRange(5, 6), ShardRange(1, 1);
    var nodes := [NodeShards("a", Ranges([r, s]))];
    ExpansionOfTwo(r, s);
    assert RangeList(5, 6) == [5, 6] && RangeList(1, 1) == [1];
    assert Expansion(nodes[0].shards, 2) == [5, 6];
    assert nodes[..0] == [];
    assert s in [r, s] && InRange(1, s);
  }
}
