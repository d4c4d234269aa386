/** The in-memory blob index and its queries (src/services/index.service.ts). */
module BlobIndex {
  import opened Sequences
  import opened Paging

  datatype BlobType = Message | Post | Comment | Attachment

  datatype Metadata = Metadata(
    kind: BlobType, timestamp: int, threadId: string, guildId: Option<string>, parentCid: Option<string>,
    size: nat, mediaType: Option<string>)

  datatype Entry = Entry(cid: string, metadata: Metadata, indexed: int)

  type Filing<!K> = map<K, seq<Entry>>

  /** The five structures. */
  datatype State = State(
    globalIndex: seq<Entry>, byType: Filing<BlobType>, byThread: Filing<string>, byGuild: Filing<string>,
    byCid: map<string, Entry>)

  const EMPTY := State([], map[], map[], map[], map[])

  /** `map.get(key) || []`. */
  function ListAt<K(==)>(filing: Filing<K>, key: K): seq<Entry>
  {
    if key in filing then filing[key] else []
  }

  function Push<K(==)>(filing: Filing<K>, key: K, entry: Entry): Filing<K>
  {
    filing[key := ListAt(filing, key) + [entry]]
  }

  /** `findIndex` and `splice`: drops the first entry with the CID. */
  function Splice(list: seq<Entry>, cid: string): seq<Entry>
  {
    var at := FindIndex(list, (e: Entry) => e.cid == cid);
    if at >= 0 then list[..at] + list[at + 1..] else list
  }

  function Pull<K(==)>(filing: Filing<K>, key: K, cid: string): Filing<K>
  {
    if key in filing then filing[key := Splice(filing[key], cid)] else filing
  }

  /** An absent or empty guild id files the entry under no guild. */
  predicate HasGuild(e: Entry)
  {
    e.metadata.guildId.Some? && e.metadata.guildId.value != ""
  }

  function IndexBlob(s: State, entry: Entry): State
  {
    if entry.cid in s.byCid then s
    else State(
      s.globalIndex + [entry],
      Push(s.byType, entry.metadata.kind, entry),
      Push(s.byThread, entry.metadata.threadId, entry),
      if HasGuild(entry) then Push(s.byGuild, entry.metadata.guildId.value, entry) else s.byGuild,
      s.byCid[entry.cid := entry])
  }

  function RemoveFromIndex(s: State, cid: string): State
  {
    if cid !in s.byCid then s
    else
      var entry := s.byCid[cid];
      State(
        Splice(s.globalIndex, cid),
        Pull(s.byType, entry.metadata.kind, cid),
        Pull(s.byThread, entry.metadata.threadId, cid),
        if HasGuild(entry) then Pull(s.byGuild, entry.metadata.guildId.value, cid) else s.byGuild,
        s.byCid - {cid})
  }

  /** Files the entry under the key, starting an empty list first if there is none. */
  method PushUnder<K(==)>(filing: Filing<K>, key: K, entry: Entry) returns (r: Filing<K>)
    ensures r == Push(filing, key, entry)
  {
    r := filing;
    if key !in r {
      r := r[key := []];
    }
    r := r[key := r[key] + [entry]];
  }

  method SpliceOut(list: seq<Entry>, cid: string) returns (r: seq<Entry>)
    ensures r == Splice(list, cid)
  {
    r := list;
    var at := FindIndex(list, (e: Entry) => e.cid == cid);
    if at >= 0 {
      r := r[..at] + r[at + 1..];
    }
  }

  method PullUnder<K(==)>(filing: Filing<K>, key: K, cid: string) returns (r: Filing<K>)
    ensures r == Pull(filing, key, cid)
  {
    r := filing;
    if key in r {
      var list := SpliceOut(r[key], cid);
      r := r[key := list];
    }
  }

  class IndexService {
    var globalIndex: seq<Entry>
    var byType: Filing<BlobType>
    var byThread: Filing<string>
    var byGuild: Filing<string>
    var byCid: map<string, Entry>

    function View(): State
      reads this
    {
      State(globalIndex, byType, byThread, byGuild, byCid)
    }

    constructor ()
      ensures View() == EMPTY
    {
      globalIndex, byType, byThread, byGuild, byCid := [], map[], map[], map[], map[];
    }

    method Index(cid: string, metadata: Metadata, now: int)
      modifies this
      ensures View() == IndexBlob(old(View()), Entry(cid, metadata, now))
    {
      if cid in byCid {
        return;
      }
      var entry := Entry(cid, metadata, now);
      globalIndex := globalIndex + [entry];
      byType := PushUnder(byType, metadata.kind, entry);
      byThread := PushUnder(byThread, metadata.threadId, entry);
      if metadata.guildId.Some? && metadata.guildId.value != "" {
        byGuild := PushUnder(byGuild, metadata.guildId.value, entry);
      }
      byCid := byCid[cid := entry];
    }

    method Remove(cid: string)
      modifies this
      ensures View() == RemoveFromIndex(old(View()), cid)
    {
      if cid !in byCid {
        return;
      }
      var entry := byCid[cid];
      globalIndex := SpliceOut(globalIndex, cid);
      byType := PullUnder(byType, entry.metadata.kind, cid);
      byThread := PullUnder(byThread, entry.metadata.threadId, cid);
      if entry.metadata.guildId.Some? && entry.metadata.guildId.value != "" {
        byGuild := PullUnder(byGuild, entry.metadata.guildId.value, cid);
      }
      byCid := byCid - {cid};
    }

    method Clear()
      modifies this
      ensures View() == EMPTY
    {
      globalIndex := [];
      byType, byThread, byGuild, byCid := map[], map[], map[], map[];
    }

    /** A page of the entries of the global list the query asks for, in its time order. */
    method Query(query: Query, limit: int, cursor: Option<string>) returns (page: Option<Page<Entry>>)
      ensures page == QueryPage(View(), query, limit, cursor)
      ensures Refines(View()) && limit >= 0 ==>
                && IsPage(Answer(globalIndex, query), CidOf(), limit, cursor, page)
                && (page.Some? ==> forall e :: e in page.value.entries ==> e in globalIndex && Wanted(query, e))
    {
      var entries := Source(View(), query);
      entries := Sort(entries, OrderOf(query));
      page := CutPage(entries, CidOf(), limit, cursor);
      if Refines(View()) && limit >= 0 {
        SourceIsFilter(View(), query);
        PageIsSlice(entries, CidOf(), limit, cursor);
        PageWithin(entries, CidOf(), limit, cursor, page);
        AnswerMembers(globalIndex, query);
      }
    }
  }

  // ---------------------------------------------------------------- the log the structures stand for

  ghost predicate DistinctCids(log: seq<Entry>)
  {
    forall i, j :: 0 <= i < j < |log| ==> log[i].cid != log[j].cid
  }

  function CidOf(): Entry -> string
  {
    (e: Entry) => e.cid
  }

  function OfType(kind: BlobType): Entry -> bool
  {
    (e: Entry) => e.metadata.kind == kind
  }

  function InThread(threadId: string): Entry -> bool
  {
    (e: Entry) => e.metadata.threadId == threadId
  }

  function InGuild(guildId: string): Entry -> bool
  {
    (e: Entry) => HasGuild(e) && e.metadata.guildId.value == guildId
  }

  function OtherThan(cid: string): Entry -> bool
  {
    (e: Entry) => e.cid != cid
  }

  /** Each list is the filter of the global list it should be, in the same order, and the CID map is the global list. */
  ghost predicate Refines(s: State)
  {
    && DistinctCids(s.globalIndex)
    && (forall kind :: ListAt(s.byType, kind) == Filter(s.globalIndex, OfType(kind)))
    && (forall threadId :: ListAt(s.byThread, threadId) == Filter(s.globalIndex, InThread(threadId)))
    && (forall guildId :: ListAt(s.byGuild, guildId) == Filter(s.globalIndex, InGuild(guildId)))
    && CidMapAgrees(s.byCid, s.globalIndex)
  }

  ghost predicate CidMapAgrees(byCid: map<string, Entry>, log: seq<Entry>)
  {
    && (forall e :: e in log ==> e.cid in byCid && byCid[e.cid] == e)
    && (forall cid :: cid in byCid ==> byCid[cid] in log && byCid[cid].cid == cid)
  }

  lemma {:induction false} DropOne(list: seq<Entry>, at: nat, keep: Entry -> bool)
    requires at < |list| && !keep(list[at])
    requires forall i :: 0 <= i < |list| && i != at ==> keep(list[i])
    ensures Filter(list, keep) == list[..at] + list[at + 1..]
  {
    var front, last := list[..|list| - 1], list[|list| - 1];
    if at == |front| {
      FilterAll(front, keep);
    } else {
      DropOne(front, at, keep);
      assert front[at + 1..] + [last] == list[at + 1..] && front[..at] == list[..at];
    }
  }

  lemma SpliceIsFilter(list: seq<Entry>, cid: string)
    requires DistinctCids(list)
    ensures Splice(list, cid) == Filter(list, OtherThan(cid))
  {
    var at := FindIndex(list, (e: Entry) => e.cid == cid);
    var keep := OtherThan(cid);
    if at < 0 {
      FilterAll(list, keep);
    } else {
      forall i | 0 <= i < |list| && i != at ensures keep(list[i]) {
        assert i < at ==> list[i].cid != list[at].cid;
        assert i > at ==> list[at].cid != list[i].cid;
      }
      DropOne(list, at, keep);
    }
  }

  lemma {:induction false} FilterDistinct(log: seq<Entry>, p: Entry -> bool)
    requires DistinctCids(log)
    ensures DistinctCids(Filter(log, p))
  {
    if log != [] {
      var front, last := log[..|log| - 1], log[|log| - 1];
      FilterDistinct(front, p);
      forall x | x in Filter(front, p) ensures x.cid != last.cid {
        var k :| 0 <= k < |front| && front[k] == x;
        assert log[k].cid != log[|log| - 1].cid;
      }
    }
  }

  /** Filing and dropping commute. */
  lemma SpliceFiltered(log: seq<Entry>, p: Entry -> bool, cid: string)
    requires DistinctCids(log)
    ensures Splice(Filter(log, p), cid) == Filter(Splice(log, cid), p)
  {
    var keep := OtherThan(cid);
    FilterDistinct(log, p);
    SpliceIsFilter(Filter(log, p), cid);
    SpliceIsFilter(log, cid);
    FiltersCommute(log, p, keep);
  }

  lemma FiltersCommute(log: seq<Entry>, p: Entry -> bool, q: Entry -> bool)
    ensures Filter(Filter(log, p), q) == Filter(Filter(log, q), p)
  {
    FilterFilter(log, p, q);
    FilterFilter(log, q, p);
    FilterAgree(log, x => p(x) && q(x), x => q(x) && p(x));
  }

  lemma SameCid(log: seq<Entry>, x: Entry, y: Entry)
    requires DistinctCids(log) && x in log && y in log
    ensures x.cid == y.cid ==> x == y
  {
  }

  /** A filter that the dropped entry does not pass is not affected. */
  lemma SpliceUnfiled(log: seq<Entry>, p: Entry -> bool, entry: Entry)
    requires DistinctCids(log) && entry in log && !p(entry)
    ensures Filter(Splice(log, entry.cid), p) == Filter(log, p)
  {
    FilterDistinct(log, p);
    SpliceFiltered(log, p, entry.cid);
    SpliceIsFilter(Filter(log, p), entry.cid);
    forall x | x in Filter(log, p) ensures OtherThan(entry.cid)(x) {
      SameCid(log, x, entry);
    }
    FilterAll(Filter(log, p), OtherThan(entry.cid));
  }

  // ---------------------------------------------------------------- runs

  lemma IndexKeeps(s: State, entry: Entry)
    requires Refines(s)
    ensures Refines(IndexBlob(s, entry))
    ensures IndexBlob(s, entry).globalIndex ==
            if exists e :: e in s.globalIndex && e.cid == entry.cid then s.globalIndex else s.globalIndex + [entry]
  {
    if entry.cid !in s.byCid {
      var s', log := IndexBlob(s, entry), s.globalIndex;
      forall kind ensures ListAt(s'.byType, kind) == Filter(s'.globalIndex, OfType(kind)) {
        PushKeeps(s.byType, kind, entry.metadata.kind, log, OfType(kind), entry);
      }
      forall threadId ensures ListAt(s'.byThread, threadId) == Filter(s'.globalIndex, InThread(threadId)) {
        PushKeeps(s.byThread, threadId, entry.metadata.threadId, log, InThread(threadId), entry);
      }
      forall guildId ensures ListAt(s'.byGuild, guildId) == Filter(s'.globalIndex, InGuild(guildId)) {
        if HasGuild(entry) {
          PushKeeps(s.byGuild, guildId, entry.metadata.guildId.value, log, InGuild(guildId), entry);
        } else {
          FilterSnoc(log, entry, InGuild(guildId));
        }
      }
      CidMapAdd(s.byCid, log, entry);
    }
  }

  lemma CidMapAdd(byCid: map<string, Entry>, log: seq<Entry>, entry: Entry)
    requires CidMapAgrees(byCid, log) && DistinctCids(log) && entry.cid !in byCid
    ensures CidMapAgrees(byCid[entry.cid := entry], log + [entry]) && DistinctCids(log + [entry])
  {
    var longer := log + [entry];
    forall i, j | 0 <= i < j < |longer| ensures longer[i].cid != longer[j].cid {
      assert longer[i] in log;
    }
  }

  /** `key` is any key of the filing, `filed` the one the entry is filed under. */
  lemma PushKeeps<K>(filing: Filing<K>, key: K, filed: K, log: seq<Entry>, p: Entry -> bool, entry: Entry)
    requires (p(entry) <==> key == filed) && ListAt(filing, key) == Filter(log, p)
    ensures ListAt(Push(filing, filed, entry), key) == Filter(log + [entry], p)
  {
    FilterSnoc(log, entry, p);
  }

  lemma RemoveKeeps(s: State, cid: string)
    requires Refines(s)
    ensures Refines(RemoveFromIndex(s, cid))
    ensures RemoveFromIndex(s, cid).globalIndex == Filter(s.globalIndex, OtherThan(cid))
  {
    var log := s.globalIndex;
    if cid !in s.byCid {
      FilterAll(log, OtherThan(cid));
    } else {
      var s', entry := RemoveFromIndex(s, cid), s.byCid[cid];
      SpliceIsFilter(log, cid);
      FilterDistinct(log, OtherThan(cid));
      forall kind ensures ListAt(s'.byType, kind) == Filter(s'.globalIndex, OfType(kind)) {
        PullKeeps(s.byType, kind, entry.metadata.kind, log, OfType(kind), entry);
      }
      forall threadId ensures ListAt(s'.byThread, threadId) == Filter(s'.globalIndex, InThread(threadId)) {
        PullKeeps(s.byThread, threadId, entry.metadata.threadId, log, InThread(threadId), entry);
      }
      forall guildId ensures ListAt(s'.byGuild, guildId) == Filter(s'.globalIndex, InGuild(guildId)) {
        if HasGuild(entry) {
          PullKeeps(s.byGuild, guildId, entry.metadata.guildId.value, log, InGuild(guildId), entry);
        } else {
          SpliceUnfiled(log, InGuild(guildId), entry);
        }
      }
      CidMapRemove(s.byCid, log, cid);
    }
  }

  lemma CidMapRemove(byCid: map<string, Entry>, log: seq<Entry>, cid: string)
    requires CidMapAgrees(byCid, log)
    ensures CidMapAgrees(byCid - {cid}, Filter(log, OtherThan(cid)))
  {
  }

  lemma PullKeeps<K>(filing: Filing<K>, key: K, filed: K, log: seq<Entry>, p: Entry -> bool, entry: Entry)
    requires DistinctCids(log) && entry in log && (p(entry) <==> key == filed)
    requires ListAt(filing, key) == Filter(log, p)
    ensures ListAt(Pull(filing, filed, entry.cid), key) == Filter(Splice(log, entry.cid), p)
  {
    if key == filed {
      SpliceFiltered(log, p, entry.cid);
    } else {
      SpliceUnfiled(log, p, entry);
    }
  }

  datatype Op = IndexOp(entry: Entry) | RemoveOp(cid: string) | ClearOp

  function Step(s: State, op: Op): State
  {
    match op
    case IndexOp(entry) => IndexBlob(s, entry)
    case RemoveOp(cid) => RemoveFromIndex(s, cid)
    case ClearOp => EMPTY
  }

  function Run(ops: seq<Op>): State
  {
    if ops == [] then EMPTY else Step(Run(ops[..|ops| - 1]), ops[|ops| - 1])
  }

  /** The plain log of the same run. */
  function LogStep(log: seq<Entry>, op: Op): seq<Entry>
  {
    match op
    case IndexOp(entry) => if exists e :: e in log && e.cid == entry.cid then log else log + [entry]
    case RemoveOp(cid) => Filter(log, OtherThan(cid))
    case ClearOp => []
  }

  function RunLog(ops: seq<Op>): seq<Entry>
  {
    if ops == [] then [] else LogStep(RunLog(ops[..|ops| - 1]), ops[|ops| - 1])
  }

  lemma EmptyRefines()
    ensures Refines(EMPTY)
  {
  }

  /** In every reachable state the five structures are the filters of one log, and that log is the plain run. */
  lemma {:induction false} RunRefines(ops: seq<Op>)
    ensures Refines(Run(ops)) && Run(ops).globalIndex == RunLog(ops)
  {
    EmptyRefines();
    if ops != [] {
      var front, op := ops[..|ops| - 1], ops[|ops| - 1];
      RunRefines(front);
      if op.IndexOp? {
        IndexKeeps(Run(front), op.entry);
      } else if op.RemoveOp? {
        RemoveKeeps(Run(front), op.cid);
      }
    }
  }

  /** Removing a freshly indexed blob restores the contents of every list. */
  lemma RemoveUndoesIndex(s: State, entry: Entry)
    requires Refines(s) && entry.cid !in s.byCid
    ensures var t := RemoveFromIndex(IndexBlob(s, entry), entry.cid);
            && t.globalIndex == s.globalIndex && t.byCid == s.byCid
            && (forall kind :: ListAt(t.byType, kind) == ListAt(s.byType, kind))
            && (forall threadId :: ListAt(t.byThread, threadId) == ListAt(s.byThread, threadId))
            && (forall guildId :: ListAt(t.byGuild, guildId) == ListAt(s.byGuild, guildId))
  {
    LogRestored(s, entry);
    RefinesDetermines(s, RemoveFromIndex(IndexBlob(s, entry), entry.cid));
  }

  lemma LogRestored(s: State, entry: Entry)
    requires Refines(s) && entry.cid !in s.byCid
    ensures var t := RemoveFromIndex(IndexBlob(s, entry), entry.cid);
            Refines(t) && t.globalIndex == s.globalIndex
  {
    IndexKeeps(s, entry);
    RemoveKeeps(IndexBlob(s, entry), entry.cid);
    FilterSnoc(s.globalIndex, entry, OtherThan(entry.cid));
    FilterAll(s.globalIndex, OtherThan(entry.cid));
  }

  /** The global list determines the contents of every other structure. */
  lemma RefinesDetermines(s: State, t: State)
    requires Refines(s) && Refines(t) && s.globalIndex == t.globalIndex
    ensures t.byCid == s.byCid
    ensures forall kind :: ListAt(t.byType, kind) == ListAt(s.byType, kind)
    ensures forall threadId :: ListAt(t.byThread, threadId) == ListAt(s.byThread, threadId)
    ensures forall guildId :: ListAt(t.byGuild, guildId) == ListAt(s.byGuild, guildId)
  {
    assert s.byCid.Keys == t.byCid.Keys;
  }

  /** The number of threads in the statistics is restored only if the thread was already known. */
  lemma ThreadCountRestoredIff(s: State, entry: Entry)
    requires entry.cid !in s.byCid
    ensures |RemoveFromIndex(IndexBlob(s, entry), entry.cid).byThread| == |s.byThread| <==>
            entry.metadata.threadId in s.byThread
  {
    KeyCount(s.byThread, entry.metadata.threadId, entry);
  }

  lemma KeyCount<K>(filing: Filing<K>, key: K, entry: Entry)
    ensures |Pull(Push(filing, key, entry), key, entry.cid)| == |filing| <==> key in filing
  {
    var pushed := Push(filing, key, entry);
    assert pushed.Keys == filing.Keys + {key};
    SameKeys(pushed, key, entry.cid);
    assert |Pull(pushed, key, entry.cid).Keys| == |filing.Keys + {key}|;
  }

  lemma SameKeys<K>(filing: Filing<K>, key: K, cid: string)
    ensures Pull(filing, key, cid).Keys == filing.Keys
  {
  }

  // ---------------------------------------------------------------- queries

  datatype Query =
    | Latest(kind: Option<BlobType>)
    | Thread(threadId: string)
    | Guild(guildId: string)
    | GuildPosts(guildId: string)
    | Comments(guildId: string, postCid: string)

  function CommentOn(postCid: string): Entry -> bool
  {
    (e: Entry) => e.metadata.kind == Comment && e.metadata.parentCid == Some(postCid)
  }

  /** The list a query starts from. */
  function Source(s: State, query: Query): seq<Entry>
  {
    match query
    case Latest(kind) => if kind.Some? then ListAt(s.byType, kind.value) else s.globalIndex
    case Thread(threadId) => ListAt(s.byThread, threadId)
    case Guild(guildId) => ListAt(s.byGuild, guildId)
    case GuildPosts(guildId) => Filter(ListAt(s.byGuild, guildId), OfType(Post))
    case Comments(guildId, postCid) => Filter(ListAt(s.byGuild, guildId), CommentOn(postCid))
  }

  /** Newest first, but comments oldest first. */
  function OrderOf(query: Query): (Entry, Entry) -> bool
  {
    if query.Comments? then (a: Entry, b: Entry) => a.metadata.timestamp <= b.metadata.timestamp
    else (a: Entry, b: Entry) => a.metadata.timestamp >= b.metadata.timestamp
  }

  function QueryPage(s: State, query: Query, limit: int, cursor: Option<string>): Option<Page<Entry>>
  {
    PageOf(Sort(Source(s, query), OrderOf(query)), CidOf(), limit, cursor)
  }

  /** Which entries of the log a query asks for. */
  predicate Wanted(query: Query, e: Entry)
  {
    match query
    case Latest(kind) => kind.None? || e.metadata.kind == kind.value
    case Thread(threadId) => e.metadata.threadId == threadId
    case Guild(guildId) => e.metadata.guildId == Some(guildId) && guildId != ""
    case GuildPosts(guildId) => e.metadata.guildId == Some(guildId) && guildId != "" && e.metadata.kind == Post
    case Comments(guildId, postCid) =>
      && e.metadata.guildId == Some(guildId) && guildId != ""
      && e.metadata.kind == Comment && e.metadata.parentCid == Some(postCid)
  }

  function Wants(query: Query): Entry -> bool
  {
    (e: Entry) => Wanted(query, e)
  }

  lemma SourceIsFilter(s: State, query: Query)
    requires Refines(s)
    ensures Source(s, query) == Filter(s.globalIndex, Wants(query))
  {
    var log, wanted := s.globalIndex, Wants(query);
    match query
    case Latest(kind) =>
      if kind.None? {
        FilterAll(log, wanted);
      } else {
        FilterAgree(log, OfType(kind.value), wanted);
      }
    case Thread(threadId) => FilterAgree(log, InThread(threadId), wanted);
    case Guild(guildId) => FilterAgree(log, InGuild(guildId), wanted);
    case GuildPosts(guildId) => FilterTwice(log, InGuild(guildId), OfType(Post), wanted);
    case Comments(guildId, postCid) => FilterTwice(log, InGuild(guildId), CommentOn(postCid), wanted);
  }

  /** What a query pages through: the wanted entries of the log in its time order. */
  function Answer(log: seq<Entry>, query: Query): seq<Entry>
  {
    Sort(Filter(log, Wants(query)), OrderOf(query))
  }

  /** The answer is sorted, holds exactly the wanted entries, and holds no CID twice. */
  lemma AnswerSound(log: seq<Entry>, query: Query)
    requires DistinctCids(log)
    ensures forall i, j :: 0 <= i < j < |Answer(log, query)| ==>
              var a, b := Answer(log, query)[i].metadata.timestamp, Answer(log, query)[j].metadata.timestamp;
              if query.Comments? then a <= b else a >= b
    ensures forall e :: e in Answer(log, query) <==> e in log && Wanted(query, e)
    ensures DistinctKeys(Answer(log, query), CidOf())
  {
    var kept := Filter(log, Wants(query));
    FilterDistinct(log, Wants(query));
    SortSorted(kept, OrderOf(query));
    SortElements(kept, OrderOf(query));
    SortDistinct(kept, OrderOf(query));
  }

  lemma AnswerMembers(log: seq<Entry>, query: Query)
    ensures forall e :: e in Answer(log, query) <==> e in log && Wanted(query, e)
  {
    SortElements(Filter(log, Wants(query)), OrderOf(query));
  }

  lemma SortDistinct(list: seq<Entry>, leq: (Entry, Entry) -> bool)
    requires DistinctCids(list)
    ensures DistinctKeys(Sort(list, leq), CidOf())
  {
    var sorted := Sort(list, leq);
    SortElements(list, leq);
    SortNoDup(list, leq);
    forall i, j | 0 <= i < j < |sorted| ensures CidOf()(sorted[i]) != CidOf()(sorted[j]) {
      assert sorted[i] in list && sorted[j] in list && sorted[i] != sorted[j];
      SameCid(list, sorted[i], sorted[j]);
    }
  }

  function QueryPages(s: State, query: Query, limit: int): Pages<Entry>
  {
    IndexPages(Sort(Source(s, query), OrderOf(query)), CidOf(), limit)
  }

  /**
   * In every reachable state, following the cursors of any query yields exactly the wanted entries of the log in time
   * order, once each, if and only if no page ends with an entry whose CID is empty.
   */
  lemma QueriesComplete(ops: seq<Op>, query: Query, limit: nat, rounds: nat)
    requires limit > 0 && rounds > |Answer(RunLog(ops), query)|
    ensures var answer, pages := Answer(RunLog(ops), query), QueryPages(Run(ops), query, limit);
            && (BoundariesNamed(answer, CidOf(), limit, 0) ==> Collect(pages, None, rounds) == Some(answer))
            && (!BoundariesNamed(answer, CidOf(), limit, 0) ==> forall n: nat :: Collect(pages, None, n) == None)
  {
    RunRefines(ops);
    SourceIsFilter(Run(ops), query);
    var answer := Answer(RunLog(ops), query);
    AnswerSound(RunLog(ops), query);
    PagingCompleteIff(QueryPages(Run(ops), query, limit), answer, CidOf(), limit, rounds);
  }

  /** An index that gets there: with the empty CID as the newest entry, pages of one never reach the end. */
  lemma EmptyCidNeverEnds(first: Entry, second: Entry, n: nat)
    requires first.cid != "" && second.cid == "" && first.metadata.timestamp < second.metadata.timestamp
    ensures Collect(QueryPages(Run([IndexOp(first), IndexOp(second)]), Latest(None), 1), None, n) == None
  {
    LogOfTwo(first, second);
    LatestOfTwo(first, second);
    assert !BoundariesNamed([second, first], CidOf(), 1, 0);
    QueriesComplete([IndexOp(first), IndexOp(second)], Latest(None), 1, 3);
  }

  lemma LogOfTwo(first: Entry, second: Entry)
    requires first.cid != second.cid
    ensures RunLog([IndexOp(first)]) == [first] && RunLog([IndexOp(first), IndexOp(second)]) == [first, second]
  {
    assert [IndexOp(first), IndexOp(second)][..1] == [IndexOp(first)] && [IndexOp(first)][..0] == [];
    assert RunLog([]) == [];
  }

  lemma LatestOfTwo(first: Entry, second: Entry)
    requires first.metadata.timestamp < second.metadata.timestamp
    ensures Answer([first, second], Latest(None)) == [second, first]
  {
    FilterAll([first, second], Wants(Latest(None)));
    SortTwo(first, second, OrderOf(Latest(None)));
  }

  // ---------------------------------------------------------------- delta sync

  function NewerThan(since: int): Entry -> bool
  {
    (e: Entry) => e.metadata.timestamp > since
  }

  function OldestFirst(): (Entry, Entry) -> bool
  {
    (a: Entry, b: Entry) => a.metadata.timestamp <= b.metadata.timestamp
  }

  function ThreadDelta(s: State, threadId: string, since: int): seq<Entry>
  {
    Sort(Filter(ListAt(s.byThread, threadId), NewerThan(since)), OldestFirst())
  }

  /** A delta holds exactly the entries of the thread newer than `since`, oldest first. */
  lemma DeltaSound(s: State, threadId: string, since: int)
    requires Refines(s)
    ensures var delta := ThreadDelta(s, threadId, since);
            && (forall e :: e in delta <==>
                            e in s.globalIndex && e.metadata.threadId == threadId && e.metadata.timestamp > since)
            && (forall i, j :: 0 <= i < j < |delta| ==> delta[i].metadata.timestamp <= delta[j].metadata.timestamp)
  {
    assert ListAt(s.byThread, threadId) == Filter(s.globalIndex, InThread(threadId));
    NewerSorted(Filter(s.globalIndex, InThread(threadId)), since);
  }

  lemma NewerSorted(list: seq<Entry>, since: int)
    ensures var delta := Sort(Filter(list, NewerThan(since)), OldestFirst());
            && (forall e :: e in delta <==> e in list && e.metadata.timestamp > since)
            && (forall i, j :: 0 <= i < j < |delta| ==> delta[i].metadata.timestamp <= delta[j].metadata.timestamp)
  {
    SortElements(Filter(list, NewerThan(since)), OldestFirst());
    SortSorted(Filter(list, NewerThan(since)), OldestFirst());
  }

  /**
   * A client that knows a thread up to `since` and asks for the delta after more blobs were indexed is complete exactly
   * when every new entry of the thread is newer than `since`: late arrivals with older timestamps are never delivered.
   */
  lemma DeltaCompleteIff(s: State, later: State, threadId: string, since: int)
    requires Refines(s) && Refines(later) && s.globalIndex <= later.globalIndex
    requires forall e :: e in ListAt(s.byThread, threadId) ==> e.metadata.timestamp <= since
    ensures (forall e :: e in ListAt(later.byThread, threadId) ==>
               e in ListAt(s.byThread, threadId) || e in ThreadDelta(later, threadId, since)) <==>
            (forall e :: e in later.globalIndex && e.metadata.threadId == threadId && e !in s.globalIndex ==>
               e.metadata.timestamp > since)
    ensures forall e :: !(e in ListAt(s.byThread, threadId) && e in ThreadDelta(later, threadId, since))
  {
    FiledInThread(s, threadId);
    FiledInThread(later, threadId);
    DeltaSound(later, threadId, since);
    assert forall e :: e in s.globalIndex ==> e in later.globalIndex;
  }

  /**
   * A late arrival: an older entry of the same thread, indexed after the client asked, is missing from every later
   * delta.
   */
  lemma LateArrivalMissed(first: Entry, late: Entry, since: int)
    requires first.cid != late.cid && first.metadata.threadId == late.metadata.threadId
    requires late.metadata.timestamp <= since
    ensures var threadId := first.metadata.threadId;
            var s, later := Run([IndexOp(first)]), Run([IndexOp(first), IndexOp(late)]);
            && late in ListAt(later.byThread, threadId) && late !in ListAt(s.byThread, threadId)
            && late !in ThreadDelta(later, threadId, since)
  {
    LogOfTwo(first, late);
    RunRefines([IndexOp(first)]);
    RunRefines([IndexOp(first), IndexOp(late)]);
    FiledInThread(Run([IndexOp(first)]), first.metadata.threadId);
    FiledInThread(Run([IndexOp(first), IndexOp(late)]), first.metadata.threadId);
    DeltaSound(Run([IndexOp(first), IndexOp(late)]), first.metadata.threadId, since);
  }

  lemma FiledInThread(s: State, threadId: string)
    requires Refines(s)
    ensures forall e :: e in ListAt(s.byThread, threadId) <==> e in s.globalIndex && e.metadata.threadId == threadId
  {
    assert ListAt(s.byThread, threadId) == Filter(s.globalIndex, InThread(threadId));
  }
}
