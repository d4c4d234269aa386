/** The least-recently-used blob cache (src/services/cache.service.ts). The clock is a parameter. */
module Cache {
  import opened Sequences
  import opened Framing

  datatype Entry = Entry(data: Bytes, size: nat, timestamp: int, accessCount: nat)

  /** `order` lists the keys of `entries` in insertion order, as a JavaScript Map iterates. */
  datatype State = State(order: seq<string>, entries: map<string, Entry>, totalSize: int, hits: nat, misses: nat)

  const EMPTY := State([], map[], 0, 0, 0)

  ghost predicate WellFormed(s: State)
  {
    && NoDup(s.order)
    && (forall k :: k in s.order <==> k in s.entries)
    && (forall k :: k in s.entries ==> s.entries[k].size == |s.entries[k].data|)
  }

  /** No key is the empty string, which `evictLRU` mistakes for "nothing found". */
  ghost predicate Valid(s: State)
  {
    WellFormed(s) && "" !in s.entries
  }

  // ---------------------------------------------------------------- the operations as functions

  /** The scan of `evictLRU`: the first key with the least timestamp. */
  function Oldest(order: seq<string>, entries: map<string, Entry>): (r: Option<string>)
    requires forall k :: k in order ==> k in entries
    ensures r.None? <==> order == []
    ensures r.Some? ==> r.value in order
    ensures r.Some? ==> forall k :: k in order ==> entries[r.value].timestamp <= entries[k].timestamp
  {
    if order == [] then None
    else
      var front, last := order[..|order| - 1], order[|order| - 1];
      assert order == front + [last];
      var best := Oldest(front, entries);
      if best.None? || entries[last].timestamp < entries[best.value].timestamp then Some(last) else best
  }

  function Remove(s: State, key: string): State
  {
    if key !in s.entries then s
    else s.(order := Filter(s.order, (k: string) => k != key), entries := s.entries - {key},
            totalSize := s.totalSize - s.entries[key].size)
  }

  function EvictOnce(s: State): (r: State)
    requires WellFormed(s)
    ensures WellFormed(r) && (Valid(s) ==> Valid(r))
    ensures s.order != [] && Valid(s) ==> |r.order| < |s.order|
  {
    var oldest := Oldest(s.order, s.entries);
    if oldest.None? || oldest.value == "" then s
    else
      RemoveShrinks(s, oldest.value);
      Remove(s, oldest.value)
  }

  predicate Fits(s: State, size: nat, maxSize: nat)
  {
    s.totalSize + size <= maxSize || s.order == []
  }

  /** The sizes of the entries older than the one under the empty key, or as old and filed before it. */
  function OlderThanEmpty(order: seq<string>, entries: map<string, Entry>): nat
    requires "" in entries && forall k :: k in order ==> k in entries
  {
    if order == [] then 0
    else
      var front, last := order[..|order| - 1], order[|order| - 1];
      assert order == front + [last];
      OlderThanEmpty(front, entries) +
      if entries[last].timestamp < entries[""].timestamp ||
         (entries[last].timestamp == entries[""].timestamp && last != "" && "" !in front)
      then entries[last].size else 0
  }

  /** There is no entry under the empty key, or enough can be evicted before it becomes the oldest. */
  predicate RoomCanBeMade(s: State, size: nat, maxSize: nat)
    requires WellFormed(s)
  {
    "" !in s.entries || s.totalSize + size - OlderThanEmpty(s.order, s.entries) <= maxSize
  }

  /** The eviction loop of `set`. */
  function MakeRoom(s: State, size: nat, maxSize: nat): (r: State)
    requires WellFormed(s) && RoomCanBeMade(s, size, maxSize)
    ensures WellFormed(r) && Fits(r, size, maxSize) && (Valid(s) ==> Valid(r))
    decreases |s.order|
  {
    if Fits(s, size, maxSize) then s
    else
      EvictionHelps(s, size, maxSize);
      MakeRoom(EvictOnce(s), size, maxSize)
  }

  predicate Accepts(size: nat, maxSize: nat)
  {
    maxSize != 0 && 10 * size <= maxSize
  }

  lemma PutWellFormed(s: State, key: string, data: Bytes, now: int)
    requires WellFormed(s)
    ensures WellFormed(Put(s, key, data, now)) && (Valid(s) && key != "" ==> Valid(Put(s, key, data, now)))
  {
  }

  function Put(s: State, key: string, data: Bytes, now: int): State
  {
    s.(order := if key in s.entries then s.order else s.order + [key],
       entries := s.entries[key := Entry(data, |data|, now, 1)],
       totalSize := s.totalSize + |data|)
  }

  /** A `set` ends: it is refused, or its eviction loop ends. */
  predicate SetEnds(s: State, size: nat, maxSize: nat)
    requires WellFormed(s)
  {
    Accepts(size, maxSize) ==> RoomCanBeMade(s, size, maxSize)
  }

  function Set(s: State, key: string, data: Bytes, now: int, maxSize: nat): State
    requires WellFormed(s) && SetEnds(s, |data|, maxSize)
  {
    if !Accepts(|data|, maxSize) then s else Put(MakeRoom(s, |data|, maxSize), key, data, now)
  }

  function Touch(s: State, key: string, now: int): State
  {
    if key !in s.entries then s.(misses := s.misses + 1)
    else
      var e := s.entries[key];
      s.(entries := s.entries[key := e.(accessCount := e.accessCount + 1, timestamp := now)], hits := s.hits + 1)
  }

  /** A miss changes nothing but the count of misses. */
  lemma MissKeeps(s: State, key: string, now: int)
    requires WellFormed(s) && key !in s.entries
    ensures WellFormed(Touch(s, key, now)) && (Valid(s) ==> Valid(Touch(s, key, now)))
    ensures forall size: nat, maxSize: nat :: SetEnds(Touch(s, key, now), size, maxSize) == SetEnds(s, size, maxSize)
  {
  }

  function Lookup(s: State, key: string): Option<Bytes>
  {
    if key in s.entries then Some(s.entries[key].data) else None
  }

  lemma RemoveShrinks(s: State, key: string)
    requires WellFormed(s) && key in s.entries
    ensures WellFormed(Remove(s, key)) && |Remove(s, key).order| < |s.order|
    ensures Valid(s) ==> Valid(Remove(s, key))
  {
    FilterNoDup(s.order, (k: string) => k != key);
    FilterSplit(s.order, (k: string) => k != key, (k: string) => k == key);
    assert key in Filter(s.order, (k: string) => k == key);
  }

  // ---------------------------------------------------------------- what one eviction changes

  /** Whatever is filed before the oldest entry is more recent. */
  lemma {:induction false} OldestIsFirst(order: seq<string>, entries: map<string, Entry>, i: nat, j: nat)
    requires (forall k :: k in order ==> k in entries) && NoDup(order) && i < j < |order|
    requires Oldest(order, entries) == Some(order[j])
    ensures entries[order[j]].timestamp < entries[order[i]].timestamp
  {
    var front, last := order[..|order| - 1], order[|order| - 1];
    assert order == front + [last];
    if j < |front| {
      OldestIsFirst(front, entries, i, j);
    } else {
      assert front[i] in front;
    }
  }

  lemma {:induction false} OlderAgree(order: seq<string>, a: map<string, Entry>, b: map<string, Entry>)
    requires "" in a && "" in b && a[""] == b[""]
    requires forall k :: k in order ==> k in a && k in b && a[k] == b[k]
    ensures OlderThanEmpty(order, a) == OlderThanEmpty(order, b)
  {
    if order != [] {
      assert order == order[..|order| - 1] + [order[|order| - 1]];
      OlderAgree(order[..|order| - 1], a, b);
    }
  }

  /** The entry is one of those counted by `OlderThanEmpty`. */
  ghost predicate Ahead(order: seq<string>, entries: map<string, Entry>, key: string, at: nat)
    requires "" in entries && key in entries && at < |order|
  {
    && order[at] == key && key != ""
    && (entries[key].timestamp < entries[""].timestamp ||
        (entries[key].timestamp == entries[""].timestamp && "" !in order[..at]))
  }

  lemma {:induction false} OlderWithout(
    order: seq<string>, entries: map<string, Entry>, key: string, at: nat, others: string -> bool)
    requires "" in entries && NoDup(order) && forall k :: k in order ==> k in entries
    requires key in entries && at < |order| && Ahead(order, entries, key, at) && forall k :: others(k) <==> k != key
    ensures OlderThanEmpty(Filter(order, others), entries) == OlderThanEmpty(order, entries) - entries[key].size
  {
    var front, last := order[..|order| - 1], order[|order| - 1];
    assert order == front + [last];
    FilterSnoc(front, last, others);
    if at < |front| {
      AheadInFront(front, last, entries, key, at);
      OlderWithout(front, entries, key, at, others);
      OlderPassedOn(front, Filter(front, others), last, entries, entries[key].size);
    } else {
      OlderWithoutLast(front, last, entries, others);
    }
  }

  lemma AheadInFront(front: seq<string>, last: string, entries: map<string, Entry>, key: string, at: nat)
    requires "" in entries && key in entries && NoDup(front + [last]) && at < |front|
    requires Ahead(front + [last], entries, key, at)
    ensures Ahead(front, entries, key, at) && last != key && NoDup(front)
  {
    assert (front + [last])[..at] == front[..at];
    assert (front + [last])[at] == front[at] && (front + [last])[|front|] == last;
    forall i, j | 0 <= i < j < |front| ensures front[i] != front[j] {
      assert (front + [last])[i] != (front + [last])[j];
    }
  }

  lemma OlderWithoutLast(front: seq<string>, key: string, entries: map<string, Entry>, others: string -> bool)
    requires "" in entries && key in entries && key !in front && forall k :: k in front ==> k in entries
    requires Ahead(front + [key], entries, key, |front|) && forall k :: others(k) <==> k != key
    ensures Filter(front, others) == front
    ensures OlderThanEmpty(front + [key], entries) == OlderThanEmpty(front, entries) + entries[key].size
  {
    FilterAll(front, others);
    assert (front + [key])[..|front|] == front;
    OlderSnoc(front, key, entries);
  }

  /** Whether the last entry is counted depends only on whether the empty key is filed before it. */
  lemma OlderPassedOn(a: seq<string>, b: seq<string>, last: string, entries: map<string, Entry>, lost: int)
    requires "" in entries && last in entries
    requires (forall k :: k in a ==> k in entries) && (forall k :: k in b ==> k in entries)
    requires "" in a <==> "" in b
    requires OlderThanEmpty(b, entries) == OlderThanEmpty(a, entries) - lost
    ensures OlderThanEmpty(b + [last], entries) == OlderThanEmpty(a + [last], entries) - lost
  {
    OlderSnoc(a, last, entries);
    OlderSnoc(b, last, entries);
  }

  lemma OlderSnoc(front: seq<string>, last: string, entries: map<string, Entry>)
    requires "" in entries && last in entries && forall k :: k in front ==> k in entries
    ensures OlderThanEmpty(front + [last], entries) ==
            OlderThanEmpty(front, entries) +
            if entries[last].timestamp < entries[""].timestamp ||
               (entries[last].timestamp == entries[""].timestamp && last != "" && "" !in front)
            then entries[last].size else 0
  {
    assert (front + [last])[..|front|] == front;
  }

  lemma {:induction false} NothingOlder(order: seq<string>, entries: map<string, Entry>)
    requires "" in entries && forall k :: k in order ==> k in entries
    requires forall i :: 0 <= i < |order| ==>
               && entries[order[i]].timestamp >= entries[""].timestamp
               && (entries[order[i]].timestamp == entries[""].timestamp && order[i] != "" ==> "" in order[..i])
    ensures OlderThanEmpty(order, entries) == 0
  {
    if order != [] {
      var front := order[..|order| - 1];
      forall i | 0 <= i < |front| ensures front[i] == order[i] && front[..i] == order[..i] {
      }
      NothingOlder(front, entries);
    }
  }

  lemma OldestEmptyKey(s: State)
    requires WellFormed(s) && Oldest(s.order, s.entries) == Some("")
    ensures OlderThanEmpty(s.order, s.entries) == 0
  {
    var at :| 0 <= at < |s.order| && s.order[at] == "";
    forall i | 0 <= i < |s.order|
      ensures s.entries[s.order[i]].timestamp >= s.entries[""].timestamp
      ensures s.entries[s.order[i]].timestamp == s.entries[""].timestamp && s.order[i] != "" ==> "" in s.order[..i]
    {
      if i < at {
        OldestIsFirst(s.order, s.entries, i, at);
      } else if at < i {
        assert s.order[..i][at] == "";
      }
    }
    NothingOlder(s.order, s.entries);
  }

  /** An eviction takes as many bytes from the counter as from what can still be evicted. */
  lemma EvictionUsesUp(s: State)
    requires WellFormed(s) && "" in s.entries && Oldest(s.order, s.entries) != Some("")
    ensures var t := EvictOnce(s);
            && "" in t.entries && |t.order| < |s.order|
            && t.totalSize - OlderThanEmpty(t.order, t.entries) == s.totalSize - OlderThanEmpty(s.order, s.entries)
  {
    var key := Oldest(s.order, s.entries).value;
    var t := Remove(s, key);
    RemoveShrinks(s, key);
    var at :| 0 <= at < |s.order| && s.order[at] == key;
    var empty :| 0 <= empty < |s.order| && s.order[empty] == "";
    if empty < at {
      OldestIsFirst(s.order, s.entries, empty, at);
    }
    forall i | 0 <= i < at ensures s.order[..at][i] != "" || s.entries[key].timestamp < s.entries[""].timestamp {
    }
    OlderWithout(s.order, s.entries, key, at, (k: string) => k != key);
    OlderAgree(t.order, s.entries, t.entries);
  }

  /** Room that can be made can still be made after an eviction, and room that cannot, cannot. */
  lemma EvictionKeepsRoom(s: State, size: nat, maxSize: nat)
    requires WellFormed(s)
    ensures RoomCanBeMade(EvictOnce(s), size, maxSize) <==> RoomCanBeMade(s, size, maxSize)
  {
    if "" in s.entries && Oldest(s.order, s.entries) != Some("") {
      EvictionUsesUp(s);
    }
  }

  lemma EvictionHelps(s: State, size: nat, maxSize: nat)
    requires WellFormed(s) && RoomCanBeMade(s, size, maxSize) && !Fits(s, size, maxSize)
    ensures RoomCanBeMade(EvictOnce(s), size, maxSize) && |EvictOnce(s).order| < |s.order|
  {
    EvictionKeepsRoom(s, size, maxSize);
    if Oldest(s.order, s.entries) == Some("") {
      OldestEmptyKey(s);
    } else {
      RemoveShrinks(s, Oldest(s.order, s.entries).value);
    }
  }

  // ---------------------------------------------------------------- the class

  class CacheService {
    var cache: map<string, Entry>
    var order: seq<string>
    var totalSize: int
    var hits: nat
    var misses: nat
    const maxSizeBytes: nat

    function View(): State
      reads this
    {
      State(order, cache, totalSize, hits, misses)
    }

    constructor (maxSizeBytes: nat)
      ensures View() == EMPTY && this.maxSizeBytes == maxSizeBytes
    {
      cache, order, totalSize, hits, misses := map[], [], 0, 0, 0;
      this.maxSizeBytes := maxSizeBytes;
    }

    method Get(key: string, now: int) returns (data: Option<Bytes>)
      modifies this
      ensures View() == Touch(old(View()), key, now)
      ensures data == Lookup(old(View()), key)
    {
      if key !in cache {
        misses := misses + 1;
        return None;
      }
      var entry := cache[key];
      entry := entry.(accessCount := entry.accessCount + 1);
      entry := entry.(timestamp := now);
      cache := cache[key := entry];
      hits := hits + 1;
      data := Some(entry.data);
    }

    /** Asks no more than that its eviction loop ends. */
    method Store(key: string, data: Bytes, now: int)
      requires WellFormed(View()) && SetEnds(View(), |data|, maxSizeBytes)
      modifies this
      ensures WellFormed(View())
      ensures View() == Set(old(View()), key, data, now, maxSizeBytes)
    {
      if maxSizeBytes == 0 {
        return;
      }
      var size := |data|;
      if 10 * size > maxSizeBytes {
        return;
      }
      while totalSize + size > maxSizeBytes && order != []
        invariant WellFormed(View()) && RoomCanBeMade(View(), size, maxSizeBytes)
        invariant MakeRoom(View(), size, maxSizeBytes) == MakeRoom(old(View()), size, maxSizeBytes)
        decreases |order|
      {
        EvictionHelps(View(), size, maxSizeBytes);
        EvictLRU();
      }
      PutWellFormed(View(), key, data, now);
      if key !in cache {
        order := order + [key];
      }
      cache := cache[key := Entry(data, size, now, 1)];
      totalSize := totalSize + size;
    }

    method Delete(key: string)
      modifies this
      ensures View() == Remove(old(View()), key)
    {
      if key in cache {
        var entry := cache[key];
        cache := cache - {key};
        order := Filter(order, (k: string) => k != key);
        totalSize := totalSize - entry.size;
      }
    }

    method Clear()
      modifies this
      ensures View() == EMPTY
    {
      cache, order := map[], [];
      totalSize := 0;
      hits := 0;
      misses := 0;
    }

    method EvictLRU()
      requires WellFormed(View())
      modifies this
      ensures View() == EvictOnce(old(View()))
    {
      var oldestKey: Option<string> := None;
      var oldestTime := 0;
      for i := 0 to |order|
        invariant oldestKey == Oldest(order[..i], cache)
        invariant oldestKey.Some? ==> oldestTime == cache[oldestKey.value].timestamp
      {
        assert order[..i + 1][..i] == order[..i];
        var key := order[i];
        if oldestKey.None? || cache[key].timestamp < oldestTime {
          oldestTime := cache[key].timestamp;
          oldestKey := Some(key);
        }
      }
      assert order[..|order|] == order;
      if oldestKey.Some? && oldestKey.value != "" {
        Delete(oldestKey.value);
      }
    }
  }

  // ---------------------------------------------------------------- eviction

  /** An eviction changes nothing exactly when the cache is empty or its victim is filed under the empty key. */
  lemma EvictionStallsIff(s: State)
    requires WellFormed(s)
    ensures EvictOnce(s) == s <==> s.order == [] || Oldest(s.order, s.entries) == Some("")
  {
    if s.order != [] {
      RemoveShrinks(s, Oldest(s.order, s.entries).value);
    }
  }

  ghost function EvictTimes(s: State, n: nat): State
    requires WellFormed(s)
    decreases n
  {
    if n == 0 then s else EvictTimes(EvictOnce(s), n - 1)
  }

  /** Once the empty key is the oldest and space is short, no number of evictions helps: the loop would not end. */
  lemma {:induction false} EmptyKeyStalls(s: State, n: nat)
    requires WellFormed(s) && Oldest(s.order, s.entries) == Some("")
    ensures EvictTimes(s, n) == s
  {
    if n > 0 {
      assert EvictOnce(s) == s;
      EmptyKeyStalls(s, n - 1);
    }
  }

  /** How many entries the loop of `set` evicts. */
  ghost function Evictions(s: State, size: nat, maxSize: nat): nat
    requires WellFormed(s) && RoomCanBeMade(s, size, maxSize)
    decreases |s.order|
  {
    if Fits(s, size, maxSize) then 0
    else
      EvictionHelps(s, size, maxSize);
      1 + Evictions(EvictOnce(s), size, maxSize)
  }

  /** Where room cannot be made, no number of evictions makes it. */
  lemma {:induction false} NoRoomEver(s: State, size: nat, maxSize: nat, n: nat)
    requires WellFormed(s) && !RoomCanBeMade(s, size, maxSize)
    ensures !Fits(EvictTimes(s, n), size, maxSize)
    decreases n
  {
    if n > 0 {
      EvictionKeepsRoom(s, size, maxSize);
      NoRoomEver(EvictOnce(s), size, maxSize, n - 1);
    }
  }

  /**
   * The eviction loop of `set` ends, in any state, if and only if no entry is filed under the empty key or the entries
   * evicted before that one becomes the oldest make room enough.
   */
  lemma EvictionLoopEndsIff(s: State, size: nat, maxSize: nat)
    requires WellFormed(s)
    ensures (exists n: nat :: Fits(EvictTimes(s, n), size, maxSize)) <==> RoomCanBeMade(s, size, maxSize)
  {
    if RoomCanBeMade(s, size, maxSize) {
      EvictsNoMoreThanNeeded(s, size, maxSize, 0);
    } else {
      forall n: nat ensures !Fits(EvictTimes(s, n), size, maxSize) {
        NoRoomEver(s, size, maxSize, n);
      }
    }
  }

  /**
   * `set` evicts one oldest entry after another and stops at the first state in which the new item fits: after fewer
   * evictions it does not fit.
   */
  lemma {:induction false} EvictsNoMoreThanNeeded(s: State, size: nat, maxSize: nat, fewer: nat)
    requires WellFormed(s) && RoomCanBeMade(s, size, maxSize)
    ensures MakeRoom(s, size, maxSize) == EvictTimes(s, Evictions(s, size, maxSize))
    ensures fewer < Evictions(s, size, maxSize) ==> !Fits(EvictTimes(s, fewer), size, maxSize)
    decreases |s.order|
  {
    if !Fits(s, size, maxSize) {
      EvictionHelps(s, size, maxSize);
      EvictsNoMoreThanNeeded(EvictOnce(s), size, maxSize, if fewer > 0 then fewer - 1 else 0);
    }
  }

  /** Whatever survives is at least as recent as whatever was evicted, and is unchanged. */
  lemma {:induction false} EvictsLeastRecent(s: State, size: nat, maxSize: nat)
    requires WellFormed(s) && RoomCanBeMade(s, size, maxSize)
    ensures var r := MakeRoom(s, size, maxSize);
            && (forall k :: k in r.entries ==> k in s.entries && r.entries[k] == s.entries[k])
            && (forall kept, gone :: kept in r.entries && gone in s.entries && gone !in r.entries ==>
                  s.entries[gone].timestamp <= s.entries[kept].timestamp)
    decreases |s.order|
  {
    if !Fits(s, size, maxSize) {
      EvictionHelps(s, size, maxSize);
      EvictsLeastRecent(EvictOnce(s), size, maxSize);
    }
  }

  // ---------------------------------------------------------------- accounting

  /** The bytes really held. */
  function Held(order: seq<string>, entries: map<string, Entry>): nat
    requires forall k :: k in order ==> k in entries
  {
    if order == [] then 0
    else
      assert order[|order| - 1] in order;
      Held(order[..|order| - 1], entries) + entries[order[|order| - 1]].size
  }

  function HeldBytes(s: State): nat
    requires WellFormed(s)
  {
    Held(s.order, s.entries)
  }

  /** The counter may exceed the bytes held, by what overwriting sets have counted twice. */
  function Drift(s: State): int
    requires WellFormed(s)
  {
    s.totalSize - HeldBytes(s)
  }

  ghost predicate Bounded(s: State, maxSize: nat)
  {
    WellFormed(s) && Drift(s) >= 0 && HeldBytes(s) <= maxSize
  }

  lemma {:induction false} HeldAgree(order: seq<string>, a: map<string, Entry>, b: map<string, Entry>)
    requires forall k :: k in order ==> k in a && k in b && a[k].size == b[k].size
    ensures Held(order, a) == Held(order, b)
  {
    if order != [] {
      assert order == order[..|order| - 1] + [order[|order| - 1]];
      HeldAgree(order[..|order| - 1], a, b);
    }
  }

  lemma {:induction false} HeldWithout(order: seq<string>, entries: map<string, Entry>, key: string)
    requires NoDup(order) && forall k :: k in order ==> k in entries
    ensures Held(Filter(order, (k: string) => k != key), entries) ==
            Held(order, entries) - if key in order then entries[key].size else 0
  {
    if order != [] {
      var front, last := order[..|order| - 1], order[|order| - 1];
      assert order == front + [last];
      HeldWithout(front, entries, key);
      var kept := Filter(front, (k: string) => k != key);
      assert (kept + [last])[..|kept|] == kept;
      assert last !in front;
    }
  }

  lemma {:induction false} HeldReplace(order: seq<string>, entries: map<string, Entry>, key: string, e: Entry)
    requires NoDup(order) && key in order && forall k :: k in order ==> k in entries
    ensures Held(order, entries[key := e]) == Held(order, entries) - entries[key].size + e.size
  {
    var front, last := order[..|order| - 1], order[|order| - 1];
    assert order == front + [last];
    assert last !in front;
    if last == key {
      HeldAgree(front, entries, entries[key := e]);
    } else {
      HeldReplace(front, entries, key, e);
    }
  }

  lemma RemoveDrift(s: State, key: string)
    requires WellFormed(s)
    ensures WellFormed(Remove(s, key)) && (Valid(s) ==> Valid(Remove(s, key)))
    ensures Drift(Remove(s, key)) == Drift(s) && HeldBytes(Remove(s, key)) <= HeldBytes(s)
  {
    if key in s.entries {
      RemoveShrinks(s, key);
      HeldWithout(s.order, s.entries, key);
      HeldAgree(Remove(s, key).order, s.entries, Remove(s, key).entries);
    }
  }

  lemma {:induction false} MakeRoomDrift(s: State, size: nat, maxSize: nat)
    requires WellFormed(s) && RoomCanBeMade(s, size, maxSize)
    ensures Drift(MakeRoom(s, size, maxSize)) == Drift(s)
    ensures HeldBytes(MakeRoom(s, size, maxSize)) <= HeldBytes(s)
    decreases |s.order|
  {
    if !Fits(s, size, maxSize) {
      EvictionHelps(s, size, maxSize);
      RemoveDrift(s, Oldest(s.order, s.entries).value);
      MakeRoomDrift(EvictOnce(s), size, maxSize);
    }
  }

  lemma PutDrift(s: State, key: string, data: Bytes, now: int)
    requires WellFormed(s)
    ensures WellFormed(Put(s, key, data, now)) && (Valid(s) && key != "" ==> Valid(Put(s, key, data, now)))
    ensures var replaced := if key in s.entries then s.entries[key].size else 0;
            && Drift(Put(s, key, data, now)) == Drift(s) + replaced
            && HeldBytes(Put(s, key, data, now)) == HeldBytes(s) - replaced + |data|
  {
    var e := Entry(data, |data|, now, 1);
    if key in s.entries {
      HeldReplace(s.order, s.entries, key, e);
    } else {
      HeldAgree(s.order, s.entries, s.entries[key := e]);
      assert (s.order + [key])[..|s.order|] == s.order;
    }
  }

  /** What the sets of a run overwrite: the old size of each key that survives the eviction before it is set again. */
  function Overwritten(s: State, key: string, size: nat, maxSize: nat): nat
    requires WellFormed(s) && SetEnds(s, size, maxSize)
  {
    if !Accepts(size, maxSize) then 0
    else
      var r := MakeRoom(s, size, maxSize);
      if key in r.entries then r.entries[key].size else 0
  }

  lemma SetKeeps(s: State, key: string, data: Bytes, now: int, maxSize: nat)
    requires Bounded(s, maxSize) && SetEnds(s, |data|, maxSize)
    ensures Bounded(Set(s, key, data, now, maxSize), maxSize)
    ensures Drift(Set(s, key, data, now, maxSize)) == Drift(s) + Overwritten(s, key, |data|, maxSize)
  {
    if Accepts(|data|, maxSize) {
      MakeRoomDrift(s, |data|, maxSize);
      PutDrift(MakeRoom(s, |data|, maxSize), key, data, now);
    }
  }

  lemma TouchKeeps(s: State, key: string, now: int)
    requires WellFormed(s)
    ensures WellFormed(Touch(s, key, now)) && (Valid(s) ==> Valid(Touch(s, key, now)))
    ensures HeldBytes(Touch(s, key, now)) == HeldBytes(s) && Drift(Touch(s, key, now)) == Drift(s)
  {
    HeldAgree(s.order, s.entries, Touch(s, key, now).entries);
  }

  datatype Op =
    | GetOp(key: string, now: int)
    | SetOp(key: string, data: Bytes, now: int)
    | DeleteOp(key: string)
    | ClearOp

  /** The step ends: if it is a `set`, its eviction loop does. */
  predicate StepEnds(s: State, op: Op, maxSize: nat)
    requires WellFormed(s)
  {
    op.SetOp? ==> SetEnds(s, |op.data|, maxSize)
  }

  function Step(s: State, op: Op, maxSize: nat): State
    requires WellFormed(s) && StepEnds(s, op, maxSize)
  {
    match op
    case GetOp(key, now) => Touch(s, key, now)
    case SetOp(key, data, now) => Set(s, key, data, now, maxSize)
    case DeleteOp(key) => Remove(s, key)
    case ClearOp => EMPTY
  }

  /** What a step adds to the drift; clearing ends it. */
  function Recounted(s: State, op: Op, maxSize: nat): nat
    requires WellFormed(s) && StepEnds(s, op, maxSize)
  {
    if op.SetOp? then Overwritten(s, op.key, |op.data|, maxSize) else 0
  }

  lemma StepKeeps(s: State, op: Op, maxSize: nat)
    requires Bounded(s, maxSize) && StepEnds(s, op, maxSize)
    ensures Bounded(Step(s, op, maxSize), maxSize)
    ensures Drift(Step(s, op, maxSize)) == if op.ClearOp? then 0 else Drift(s) + Recounted(s, op, maxSize)
  {
    if op.SetOp? {
      SetKeeps(s, op.key, op.data, op.now, maxSize);
    } else {
      PlainStepKeeps(s, op, maxSize);
    }
  }

  lemma PlainStepKeeps(s: State, op: Op, maxSize: nat)
    requires Bounded(s, maxSize) && !op.SetOp?
    ensures Bounded(Step(s, op, maxSize), maxSize)
    ensures Drift(Step(s, op, maxSize)) == if op.ClearOp? then 0 else Drift(s)
  {
    match op
    case GetOp(key, now) => TouchKeeps(s, key, now);
    case DeleteOp(key) => RemoveDrift(s, key);
    case ClearOp => assert WellFormed(EMPTY) && HeldBytes(EMPTY) == 0;
  }

  // ---------------------------------------------------------------- runs

  /** A state with the bytes its sets have counted twice since the last clear. */
  datatype Trace = Trace(state: State, overwritten: nat)

  type Next = (Trace, Op) -> Option<Trace>

  /** A run of any kind of step; none once a step has no outcome. */
  function Fold(ops: seq<Op>, t: Trace, next: Next): Option<Trace>
  {
    if ops == [] then Some(t)
    else
      var before := Fold(ops[..|ops| - 1], t, next);
      if before.None? then None else next(before.value, ops[|ops| - 1])
  }

  lemma FoldLast(ops: seq<Op>, op: Op, t: Trace, next: Next)
    requires Fold(ops, t, next).Some?
    ensures Fold(ops + [op], t, next) == next(Fold(ops, t, next).value, op)
  {
    assert (ops + [op])[..|ops|] == ops;
  }

  lemma {:induction false} FoldKeeps(ops: seq<Op>, t: Trace, next: Next, kept: Trace -> bool)
    requires kept(t) && forall u, op :: kept(u) && op in ops && next(u, op).Some? ==> kept(next(u, op).value)
    ensures Fold(ops, t, next).Some? ==> kept(Fold(ops, t, next).value)
  {
    if ops != [] {
      assert ops == ops[..|ops| - 1] + [ops[|ops| - 1]];
      FoldKeeps(ops[..|ops| - 1], t, next, kept);
    }
  }

  lemma {:induction false} FoldEnds(ops: seq<Op>, t: Trace, next: Next, kept: Trace -> bool)
    requires kept(t) && forall u, op :: kept(u) && op in ops ==> next(u, op).Some? && kept(next(u, op).value)
    ensures Fold(ops, t, next).Some? && kept(Fold(ops, t, next).value)
  {
    if ops != [] {
      assert ops == ops[..|ops| - 1] + [ops[|ops| - 1]];
      FoldEnds(ops[..|ops| - 1], t, next, kept);
    }
  }

  /** A step with the accounting beside it; none if its eviction loop does not end. */
  ghost function Advance(t: Trace, op: Op, maxSize: nat): Option<Trace>
  {
    if !WellFormed(t.state) || !StepEnds(t.state, op, maxSize) then None
    else
      var overwritten := if op.ClearOp? then 0 else t.overwritten + Recounted(t.state, op, maxSize);
      Some(Trace(Step(t.state, op, maxSize), overwritten))
  }

  ghost function Advances(maxSize: nat): Next
  {
    (t: Trace, op: Op) => Advance(t, op, maxSize)
  }

  /** A run from the empty cache. */
  ghost function Run(ops: seq<Op>, maxSize: nat): Option<Trace>
  {
    Fold(ops, Trace(EMPTY, 0), Advances(maxSize))
  }

  ghost predicate Accounted(t: Trace, maxSize: nat)
  {
    Bounded(t.state, maxSize) && Drift(t.state) == t.overwritten
  }

  /**
   * In every reachable state, also of runs with the empty key, the bytes really held stay within the limit; the counter
   * exceeds them by exactly the bytes of the entries that sets since the last clear have overwritten.
   */
  lemma CacheBounded(ops: seq<Op>, maxSize: nat)
    ensures Run(ops, maxSize).Some? ==>
              var t := Run(ops, maxSize).value;
              && WellFormed(t.state) && HeldBytes(t.state) <= maxSize
              && t.state.totalSize == HeldBytes(t.state) + t.overwritten
  {
    assert WellFormed(EMPTY) && HeldBytes(EMPTY) == 0;
    BoundedFrom(ops, Trace(EMPTY, 0), maxSize);
  }

  lemma BoundedFrom(ops: seq<Op>, start: Trace, maxSize: nat)
    requires Accounted(start, maxSize)
    ensures Fold(ops, start, Advances(maxSize)).Some? ==>
              var t := Fold(ops, start, Advances(maxSize)).value;
              && WellFormed(t.state) && HeldBytes(t.state) <= maxSize
              && t.state.totalSize == HeldBytes(t.state) + t.overwritten
  {
    forall u, op ensures Accounted(u, maxSize) && Advances(maxSize)(u, op).Some? ==>
                           Accounted(Advances(maxSize)(u, op).value, maxSize) {
      AdvanceKeeps(u, op, maxSize);
    }
    RunsAccounted(ops, start, maxSize, Advances(maxSize));
  }

  lemma RunsAccounted(ops: seq<Op>, start: Trace, maxSize: nat, next: Next)
    requires Accounted(start, maxSize)
    requires forall u, op :: Accounted(u, maxSize) && next(u, op).Some? ==> Accounted(next(u, op).value, maxSize)
    ensures Fold(ops, start, next).Some? ==> Accounted(Fold(ops, start, next).value, maxSize)
  {
    FoldKeeps(ops, start, next, (t: Trace) => Accounted(t, maxSize));
  }

  lemma AdvanceKeeps(t: Trace, op: Op, maxSize: nat)
    ensures Accounted(t, maxSize) && Advances(maxSize)(t, op).Some? ==>
            Accounted(Advances(maxSize)(t, op).value, maxSize)
  {
    assert WellFormed(EMPTY) && HeldBytes(EMPTY) == 0;
    if Accounted(t, maxSize) && StepEnds(t.state, op, maxSize) {
      StepKeeps(t.state, op, maxSize);
    }
  }

  // ---------------------------------------------------------------- what the entries tell

  /** A `set` that is not refused: the cache is in use and the item is at most a tenth of it. */
  ghost predicate SetOf(op: Op, key: string, maxSize: nat)
  {
    op.SetOp? && op.key == key && maxSize > 0 && |op.data| * 10 <= maxSize
  }

  /**
   * What one step does to the entry of a key. A hit renews it, a `set` replaces it, a deletion takes it out; otherwise
   * it can only fall victim to the `set` of another key.
   */
  ghost predicate EntryStep(s: State, t: State, op: Op, key: string, maxSize: nat)
  {
    if op == DeleteOp(key) || op == ClearOp then key !in t.entries
    else if SetOf(op, key, maxSize) then key in t.entries && t.entries[key] == Entry(op.data, |op.data|, op.now, 1)
    else if op.GetOp? && op.key == key then
      && (key in t.entries <==> key in s.entries)
      && (key in s.entries ==>
            t.entries[key] == s.entries[key].(timestamp := op.now, accessCount := s.entries[key].accessCount + 1))
    else
      && (key in t.entries ==> key in s.entries && t.entries[key] == s.entries[key])
      && (key in s.entries && key !in t.entries ==> op.SetOp? && SetOf(op, op.key, maxSize))
  }

  lemma StepEntries(s: State, op: Op, key: string, maxSize: nat)
    requires WellFormed(s) && StepEnds(s, op, maxSize)
    ensures EntryStep(s, Step(s, op, maxSize), op, key, maxSize)
    ensures op.SetOp? && !SetOf(op, op.key, maxSize) ==> Step(s, op, maxSize) == s
  {
    if op.SetOp? && Accepts(|op.data|, maxSize) {
      EvictsLeastRecent(s, |op.data|, maxSize);
    }
  }

  /** Lookups are counted as hits or misses until the next clear. */
  lemma StepCounts(s: State, op: Op, maxSize: nat)
    requires WellFormed(s) && StepEnds(s, op, maxSize)
    ensures var t := Step(s, op, maxSize);
            && t.hits == (if op.ClearOp? then 0 else s.hits + if op.GetOp? && op.key in s.entries then 1 else 0)
            && t.misses == (if op.ClearOp? then 0 else s.misses + if op.GetOp? && op.key !in s.entries then 1 else 0)
  {
    if op.SetOp? && Accepts(|op.data|, maxSize) {
      RoomCounts(s, |op.data|, maxSize);
    }
  }

  lemma {:induction false} RoomCounts(s: State, size: nat, maxSize: nat)
    requires WellFormed(s) && RoomCanBeMade(s, size, maxSize)
    ensures MakeRoom(s, size, maxSize).hits == s.hits && MakeRoom(s, size, maxSize).misses == s.misses
    decreases |s.order|
  {
    if !Fits(s, size, maxSize) {
      EvictionHelps(s, size, maxSize);
      RoomCounts(EvictOnce(s), size, maxSize);
    }
  }

  ghost function LeadsTo(maxSize: nat): (State, Op, State) -> bool
  {
    (s: State, op: Op, t: State) => WellFormed(s) && StepEnds(s, op, maxSize) && t == Step(s, op, maxSize)
  }

  /** The states a run goes through, the first one empty. */
  ghost predicate History(ops: seq<Op>, states: seq<State>, maxSize: nat)
  {
    Steps(ops, states, LeadsTo(maxSize)) && states[0] == EMPTY
  }

  /** Every run that ends has one. */
  lemma {:induction false} RunHistory(ops: seq<Op>, maxSize: nat) returns (states: seq<State>)
    requires Run(ops, maxSize).Some?
    ensures History(ops, states, maxSize) && states[|ops|] == Run(ops, maxSize).value.state
  {
    if ops == [] {
      states := [EMPTY];
    } else {
      var front, op := ops[..|ops| - 1], ops[|ops| - 1];
      assert ops == front + [op];
      var before := RunHistory(front, maxSize);
      states := before + [Step(before[|front|], op, maxSize)];
      StepsGrow(front, before, LeadsTo(maxSize), op, states[|ops|]);
    }
  }

  /** Step `i` filed the entry, and none before step `n` replaced or removed it. */
  ghost predicate FiledSince(ops: seq<Op>, i: nat, n: nat, key: string, maxSize: nat)
    requires n <= |ops|
  {
    && i < n && SetOf(ops[i], key, maxSize)
    && forall j :: i < j < n ==> !SetOf(ops[j], key, maxSize) && ops[j] != DeleteOp(key) && ops[j] != ClearOp
  }

  /** When the key was last looked up behind step `i`, or else filed. */
  ghost function LastUse(ops: seq<Op>, i: nat, n: nat, key: string): int
    requires i < n <= |ops| && ops[i].SetOp?
  {
    if n == i + 1 then ops[i].now
    else if ops[n - 1].GetOp? && ops[n - 1].key == key then ops[n - 1].now
    else LastUse(ops, i, n - 1, key)
  }

  ghost function Uses(ops: seq<Op>, i: nat, n: nat, key: string): nat
    requires i < n <= |ops|
  {
    if n == i + 1 then 1
    else Uses(ops, i, n - 1, key) + if ops[n - 1].GetOp? && ops[n - 1].key == key then 1 else 0
  }

  /**
   * Entries are the history of the run: an entry holds the bytes last set under its key, the time of its last use and
   * the number of its uses.
   */
  lemma {:induction false} EntriesTell(ops: seq<Op>, states: seq<State>, n: nat, key: string, maxSize: nat)
    returns (i: nat)
    requires History(ops, states, maxSize) && n <= |ops| && key in states[n].entries
    ensures FiledSince(ops, i, n, key, maxSize)
    ensures states[n].entries[key] ==
            Entry(ops[i].data, |ops[i].data|, LastUse(ops, i, n, key), Uses(ops, i, n, key))
  {
    var s, op := states[n - 1], ops[n - 1];
    assert LeadsTo(maxSize)(s, op, states[n - 1 + 1]);
    StepEntries(s, op, key, maxSize);
    if SetOf(op, key, maxSize) {
      i := n - 1;
    } else {
      i := EntriesTell(ops, states, n - 1, key, maxSize);
    }
  }

  // ---------------------------------------------------------------- which runs end

  /** Keys are content identifiers, never empty. */
  predicate Named(op: Op)
  {
    op.SetOp? ==> op.key != ""
  }

  /** Without the empty key every loop of every run ends. */
  lemma NamedRunsEnd(ops: seq<Op>, maxSize: nat)
    requires forall op :: op in ops ==> Named(op)
    ensures Run(ops, maxSize).Some? && Valid(Run(ops, maxSize).value.state)
  {
    forall u: Trace, op | Valid(u.state) && op in ops
      ensures Advance(u, op, maxSize).Some? && Valid(Advance(u, op, maxSize).value.state)
    {
      NamedStepValid(u.state, op, maxSize);
    }
    FoldEnds(ops, Trace(EMPTY, 0), Advances(maxSize), (t: Trace) => Valid(t.state));
  }

  lemma NamedStepValid(s: State, op: Op, maxSize: nat)
    requires Valid(s) && Named(op)
    ensures StepEnds(s, op, maxSize) && Valid(Step(s, op, maxSize))
  {
    match op
    case GetOp(key, now) => TouchKeeps(s, key, now);
    case SetOp(key, data, now) =>
      if Accepts(|data|, maxSize) {
        PutWellFormed(MakeRoom(s, |data|, maxSize), key, data, now);
      }
    case DeleteOp(key) => RemoveDrift(s, key);
    case ClearOp =>
  }

  /** `n` times one byte under the empty key. */
  ghost function EmptyKeySets(n: nat): (r: seq<Op>)
    ensures |r| == n
  {
    seq(n, i => SetOp("", [0], 0))
  }

  lemma EmptySetsSnoc(n: nat)
    ensures EmptyKeySets(n + 1) == EmptyKeySets(n) + [SetOp("", [0], 0)]
  {
  }

  /** The empty key alone, with one byte counted `n` times. */
  ghost function OnlyEmptyKey(n: nat): State
  {
    if n == 0 then EMPTY else State([""], map["" := Entry([0], 1, 0, 1)], n, 0, 0)
  }

  lemma EmptyKeyAlone(n: nat, maxSize: nat)
    requires 10 <= maxSize
    ensures WellFormed(OnlyEmptyKey(n)) && (RoomCanBeMade(OnlyEmptyKey(n), 1, maxSize) <==> n == 0 || n + 1 <= maxSize)
  {
    if n > 0 {
      assert [""][..0] == [];
      assert OlderThanEmpty([""], OnlyEmptyKey(n).entries) == 0;
    }
  }

  lemma EmptyKeySetOnce(n: nat, maxSize: nat)
    requires 10 <= maxSize && n + 1 <= maxSize && WellFormed(OnlyEmptyKey(n)) && SetEnds(OnlyEmptyKey(n), 1, maxSize)
    ensures Set(OnlyEmptyKey(n), "", [0], 0, maxSize) == OnlyEmptyKey(n + 1)
  {
    assert Fits(OnlyEmptyKey(n), 1, maxSize);
    assert MakeRoom(OnlyEmptyKey(n), 1, maxSize) == OnlyEmptyKey(n);
  }

  lemma EmptyKeyAdvance(t: Trace, n: nat, maxSize: nat)
    requires 10 <= maxSize && t.state == OnlyEmptyKey(n)
    ensures var next := Advances(maxSize)(t, SetOp("", [0], 0));
            && (next.Some? <==> n == 0 || n + 1 <= maxSize)
            && (n + 1 <= maxSize ==> next.value.state == OnlyEmptyKey(n + 1))
  {
    EmptyKeyAlone(n, maxSize);
    if n + 1 <= maxSize {
      EmptyKeySetOnce(n, maxSize);
    }
  }

  lemma {:induction false} EmptyKeyFills(n: nat, maxSize: nat)
    requires 10 <= maxSize && n <= maxSize
    ensures Run(EmptyKeySets(n), maxSize).Some? && Run(EmptyKeySets(n), maxSize).value.state == OnlyEmptyKey(n)
  {
    if n > 0 {
      EmptyKeyFills(n - 1, maxSize);
      EmptyKeyAdvance(Run(EmptyKeySets(n - 1), maxSize).value, n - 1, maxSize);
      EmptySetsSnoc(n - 1);
      FoldLast(EmptyKeySets(n - 1), SetOp("", [0], 0), Trace(EMPTY, 0), Advances(maxSize));
    }
  }

  /** A run whose last loop does not end: sets of the empty key, one more than the cache has bytes. */
  lemma EmptyKeyRunStalls(maxSize: nat)
    requires 10 <= maxSize
    ensures Run(EmptyKeySets(maxSize), maxSize).Some? && Run(EmptyKeySets(maxSize + 1), maxSize).None?
    ensures forall n: nat :: !Fits(EvictTimes(Run(EmptyKeySets(maxSize), maxSize).value.state, n), 1, maxSize)
  {
    EmptyKeyFills(maxSize, maxSize);
    EmptyKeyAdvance(Run(EmptyKeySets(maxSize), maxSize).value, maxSize, maxSize);
    EmptySetsSnoc(maxSize);
    FoldLast(EmptyKeySets(maxSize), SetOp("", [0], 0), Trace(EMPTY, 0), Advances(maxSize));
    EmptyKeyAlone(maxSize, maxSize);
    forall n: nat ensures !Fits(EvictTimes(OnlyEmptyKey(maxSize), n), 1, maxSize) {
      NoRoomEver(OnlyEmptyKey(maxSize), 1, maxSize, n);
    }
  }
}
