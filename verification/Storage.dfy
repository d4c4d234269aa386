/**
 * The blob store (src/services/storage.service.ts, with the integrity hash of src/utils/cid.ts): two directories of
 * files and the cache. Each public method is one step. Gzip, the keyed hash and the clock are parameters.
 */
module Storage {
  import opened Sequences
  import opened Framing
  import Cache

  datatype Metrics = Metrics(retrievalCount: nat, lastAccessed: int)

  datatype Metadata = Metadata(
    cid: string, size: nat, mimeType: string, createdAt: int, pinned: bool, compressed: bool,
    integrityHash: Option<string>, replicatedTo: seq<string>, metrics: Option<Metrics>)

  type Hmac = (string, nat, string, int, bool) -> string

  datatype Env = Env(
    compressionEnabled: bool, maxStorageBytes: nat, cacheBytes: nat,
    gzip: Bytes -> Option<Bytes>, gunzip: Bytes -> Option<Bytes>, hmac: Hmac)

  /** What the store relies on: decompression undoes compression. */
  ghost predicate GoodCodec(env: Env)
  {
    forall x :: env.gzip(x).Some? ==> env.gunzip(env.gzip(x).value) == Some(x)
  }

  datatype State = State(blobs: map<string, Bytes>, meta: map<string, Metadata>, cache: Cache.State)

  const EMPTY := State(map[], map[], Cache.EMPTY)

  datatype Error = StorageFull | BlobNotFound | MetadataTampered | DecompressionFailed | NoSuchFile

  // ---------------------------------------------------------------- sizes

  ghost function SizeOf(blobs: map<string, Bytes>): nat
  {
    if blobs == map[] then 0
    else
      var cid :| cid in blobs;
      |blobs[cid]| + SizeOf(blobs - {cid})
  }

  lemma {:induction false} SizeWithout(blobs: map<string, Bytes>, cid: string)
    requires cid in blobs
    ensures SizeOf(blobs) == |blobs[cid]| + SizeOf(blobs - {cid})
  {
    var first :| first in blobs && SizeOf(blobs) == |blobs[first]| + SizeOf(blobs - {first});
    if first != cid {
      SizeWithout(blobs - {first}, cid);
      SizeWithout(blobs - {cid}, first);
      assert blobs - {first} - {cid} == blobs - {cid} - {first};
    }
  }

  // ---------------------------------------------------------------- integrity and compression

  function Seal(env: Env, m: Metadata): string
  {
    env.hmac(m.cid, m.size, m.mimeType, m.createdAt, m.pinned)
  }

  /** `verifyMetadataIntegrity`: metadata without a hash counts as valid. */
  predicate Intact(env: Env, m: Metadata)
  {
    m.integrityHash.None? || m.integrityHash.value == "" || m.integrityHash.value == Seal(env, m)
  }

  /** What is written for a blob: the compressed bytes only if they are fewer. */
  function Packed(env: Env, data: Bytes): (Bytes, bool)
  {
    if env.compressionEnabled && env.gzip(data).Some? && |env.gzip(data).value| < |data|
    then (env.gzip(data).value, true) else (data, false)
  }

  function Unpacked(env: Env, stored: Bytes, compressed: bool): Option<Bytes>
  {
    if compressed then env.gunzip(stored) else Some(stored)
  }

  function FreshMetadata(env: Env, cid: string, data: Bytes, mimeType: string, now: int): Metadata
  {
    Metadata(cid, |data|, mimeType, now, false, Packed(env, data).1,
             Some(env.hmac(cid, |data|, mimeType, now, false)), [], Some(Metrics(0, now)))
  }

  // ---------------------------------------------------------------- the operations as functions

  datatype Update = SetPinned(pinned: bool) | SetMetrics(metrics: Metrics) | SetReplicas(replicatedTo: seq<string>)

  function GetMetadata(env: Env, meta: map<string, Metadata>, cid: string): (Option<Metadata>, Option<Error>)
  {
    if cid !in meta then (None, Some(BlobNotFound))
    else if !Intact(env, meta[cid]) then (None, Some(MetadataTampered))
    else (Some(meta[cid]), None)
  }

  /** The hash is renewed only when a hashed field is among the updates. */
  function Updated(env: Env, m: Metadata, update: Update): Metadata
  {
    match update
    case SetPinned(pinned) =>
      var changed := m.(pinned := pinned);
      changed.(integrityHash := Some(Seal(env, changed)))
    case SetMetrics(metrics) => m.(metrics := Some(metrics))
    case SetReplicas(replicatedTo) => m.(replicatedTo := replicatedTo)
  }

  /** Only this record changes, and in it only what the update names, with the seal where a sealed field changes. */
  ghost predicate Rewritten(
    env: Env, before: map<string, Metadata>, after: map<string, Metadata>, cid: string, update: Update)
  {
    && cid in before && after.Keys == before.Keys
    && (forall other :: other in before && other != cid ==> after[other] == before[other])
    && var m, n := before[cid], after[cid];
       match update
       case SetPinned(pinned) =>
         n == m.(pinned := pinned, integrityHash := Some(env.hmac(m.cid, m.size, m.mimeType, m.createdAt, pinned)))
       case SetMetrics(metrics) => n == m.(metrics := Some(metrics))
       case SetReplicas(replicatedTo) => n == m.(replicatedTo := replicatedTo)
  }

  function UpdateMetadata(env: Env, meta: map<string, Metadata>, cid: string, update: Update)
    : (map<string, Metadata>, Option<Error>)
  {
    var found := GetMetadata(env, meta, cid);
    if found.1.Some? then (meta, found.1) else (meta[cid := Updated(env, found.0.value, update)], None)
  }

  function Bumped(m: Metadata, now: int): Metrics
  {
    Metrics((if m.metrics.Some? then m.metrics.value.retrievalCount else 0) + 1, now)
  }

  ghost function StoreBlob(env: Env, s: State, cid: string, data: Bytes, mimeType: string, now: int)
    : (State, Option<Error>)
  {
    if SizeOf(s.blobs) >= env.maxStorageBytes then (s, Some(StorageFull))
    else if cid in s.blobs then (s, None)
    else (State(s.blobs[cid := Packed(env, data).0], s.meta[cid := FreshMetadata(env, cid, data, mimeType, now)],
                s.cache),
          None)
  }

  datatype Fetched = Fetched(ciphertext: Bytes, metadata: Metadata) | NotFetched(error: Error)

  /** A read ends: it does not file anything in the cache, or the cache's eviction loop ends. */
  predicate GetEnds(env: Env, s: State, cid: string)
    requires Cache.WellFormed(s.cache)
  {
    cid in s.blobs && cid in s.meta && cid !in s.cache.entries &&
    Unpacked(env, s.blobs[cid], s.meta[cid].compressed).Some? ==>
      Cache.SetEnds(s.cache, |Unpacked(env, s.blobs[cid], s.meta[cid].compressed).value|, env.cacheBytes)
  }

  /** A hit reads the metadata file only; a failure to write the access metrics is swallowed. */
  function GetBlob(env: Env, s: State, cid: string, now: int): (State, Fetched)
    requires Cache.WellFormed(s.cache) && GetEnds(env, s, cid)
  {
    var cached, touched := Cache.Lookup(s.cache, cid), Cache.Touch(s.cache, cid, now);
    if cached.Some? then
      if cid !in s.meta then (s.(cache := touched), NotFetched(NoSuchFile))
      else
        var metrics := Bumped(s.meta[cid], now);
        (State(s.blobs, UpdateMetadata(env, s.meta, cid, SetMetrics(metrics)).0, touched),
         Fetched(cached.value, s.meta[cid].(metrics := Some(metrics))))
    else if cid !in s.blobs || cid !in s.meta then (s.(cache := touched), NotFetched(BlobNotFound))
    else
      var content := Unpacked(env, s.blobs[cid], s.meta[cid].compressed);
      if content.None? then (s.(cache := touched), NotFetched(DecompressionFailed))
      else
        var metrics := Bumped(s.meta[cid], now);
        Cache.MissKeeps(s.cache, cid, now);
        (State(s.blobs, UpdateMetadata(env, s.meta, cid, SetMetrics(metrics)).0,
               Cache.Set(touched, cid, content.value, now, env.cacheBytes)),
         Fetched(content.value, s.meta[cid].(metrics := Some(metrics))))
  }

  /** Both files are unlinked even if one of them is missing. */
  function DeleteBlob(s: State, cid: string): (State, Option<Error>)
  {
    (State(s.blobs - {cid}, s.meta - {cid}, Cache.Remove(s.cache, cid)),
     if cid in s.blobs && cid in s.meta then None else Some(BlobNotFound))
  }

  // ---------------------------------------------------------------- the class

  class StorageService {
    var blobs: map<string, Bytes>
    var meta: map<string, Metadata>
    const cache: Cache.CacheService
    const env: Env

    ghost function View(): State
      reads this, cache
    {
      State(blobs, meta, cache.View())
    }

    ghost predicate Valid()
      reads this, cache
    {
      Cache.WellFormed(cache.View()) && cache.maxSizeBytes == env.cacheBytes
    }

    constructor (env: Env)
      ensures Valid() && View() == EMPTY && this.env == env && fresh(cache)
    {
      blobs, meta := map[], map[];
      cache := new Cache.CacheService(env.cacheBytes);
      this.env := env;
    }

    /** `getStats`: the total of the file sizes, and the part of it that belongs to pinned blobs. */
    method GetStats() returns (totalSize: nat, pinnedSize: nat)
      ensures totalSize == SizeOf(blobs) && pinnedSize == PinnedSize(env, View())
    {
      var files := blobs.Keys;
      totalSize, pinnedSize := 0, 0;
      ghost var seen: set<string> := {};
      while files != {}
        invariant files <= blobs.Keys && seen == blobs.Keys - files
        invariant totalSize == SizeOf(Part(blobs, seen))
        invariant pinnedSize == SizeOf(Part(blobs, seen * PinnedCids(env, View())))
        decreases files
      {
        var file :| file in files;
        files := files - {file};
        StatsGrow(blobs, seen, PinnedCids(env, View()), file);
        totalSize := totalSize + |blobs[file]|;
        var found := GetMetadata(env, meta, file);
        if found.0.Some? && found.0.value.pinned {
          pinnedSize := pinnedSize + |blobs[file]|;
        }
        seen := seen + {file};
      }
      assert Part(blobs, seen) == blobs;
      assert seen * PinnedCids(env, View()) == PinnedCids(env, View());
    }

    method Store(cid: string, ciphertext: Bytes, mimeType: string, now: int) returns (error: Option<Error>)
      requires Valid()
      modifies this
      ensures Valid()
      ensures (View(), error) == StoreBlob(env, old(View()), cid, ciphertext, mimeType, now)
    {
      var totalSize, _ := GetStats();
      if totalSize >= env.maxStorageBytes {
        return Some(StorageFull);
      }
      if cid in blobs {
        return None;
      }
      var dataToStore, compressed := ciphertext, false;
      if env.compressionEnabled {
        var compressedData := env.gzip(ciphertext);
        if compressedData.Some? && |compressedData.value| < |ciphertext| {
          dataToStore := compressedData.value;
          compressed := true;
        }
      }
      blobs := blobs[cid := dataToStore];
      var hash := env.hmac(cid, |ciphertext|, mimeType, now, false);
      meta := meta[cid := Metadata(cid, |ciphertext|, mimeType, now, false, compressed, Some(hash), [],
                                   Some(Metrics(0, now)))];
      error := None;
    }

    /** Asks no more than that the cache's eviction loop ends. */
    method Get(cid: string, now: int) returns (fetched: Fetched)
      requires Valid() && GetEnds(env, View(), cid)
      modifies this, cache
      ensures Valid()
      ensures (View(), fetched) == GetBlob(env, old(View()), cid, now)
      ensures var (cached, unzipped) := (cid in old(cache.View().entries),
                                         if cid in old(blobs) then env.gunzip(old(blobs)[cid]) else None);
              && (fetched == NotFetched(NoSuchFile) <==> cached && cid !in old(meta))
              && (fetched == NotFetched(BlobNotFound) <==> !cached && (cid !in old(blobs) || cid !in old(meta)))
              && (fetched == NotFetched(DecompressionFailed) <==>
                  !cached && cid in old(blobs) && cid in old(meta) && old(meta)[cid].compressed && unzipped.None?)
              && (fetched.Fetched? ==>
                    fetched.ciphertext ==
                    if cached then old(cache.View().entries)[cid].data
                    else if old(meta)[cid].compressed then unzipped.value
                    else old(blobs)[cid])
    {
      if cid !in cache.View().entries {
        Cache.MissKeeps(cache.View(), cid, now);
      } else {
        Cache.TouchKeeps(cache.View(), cid, now);
      }
      var cached := cache.Get(cid, now);
      if cached.Some? {
        if cid !in meta {
          return NotFetched(NoSuchFile);
        }
        var metadata := meta[cid];
        metadata := metadata.(metrics := Some(Bumped(metadata, now)));
        var _ := Change(cid, SetMetrics(metadata.metrics.value));
        return Fetched(cached.value, metadata);
      }
      if cid !in blobs || cid !in meta {
        return NotFetched(BlobNotFound);
      }
      var storedData, metadata := blobs[cid], meta[cid];
      var ciphertext := storedData;
      if metadata.compressed {
        var unzipped := env.gunzip(storedData);
        if unzipped.None? {
          return NotFetched(DecompressionFailed);
        }
        ciphertext := unzipped.value;
      }
      cache.Store(cid, ciphertext, now);
      metadata := metadata.(metrics := Some(Bumped(metadata, now)));
      var _ := Change(cid, SetMetrics(metadata.metrics.value));
      fetched := Fetched(ciphertext, metadata);
    }

    method Delete(cid: string) returns (error: Option<Error>)
      requires Valid()
      modifies this, cache
      ensures Valid()
      ensures (View(), error) == DeleteBlob(old(View()), cid)
    {
      Cache.RemoveDrift(cache.View(), cid);
      cache.Delete(cid);
      error := if cid in blobs && cid in meta then None else Some(BlobNotFound);
      blobs := blobs - {cid};
      meta := meta - {cid};
    }

    /** `updateMetadata`. */
    method Change(cid: string, update: Update) returns (error: Option<Error>)
      modifies this`meta
      ensures (meta, error) == UpdateMetadata(env, old(meta), cid, update)
      ensures error == Some(BlobNotFound) <==> cid !in old(meta)
      ensures error == Some(MetadataTampered) <==>
              && cid in old(meta)
              && var m := old(meta)[cid];
                 && m.integrityHash.Some? && m.integrityHash.value != ""
                 && m.integrityHash.value != env.hmac(m.cid, m.size, m.mimeType, m.createdAt, m.pinned)
      ensures error.None? || error.value in [BlobNotFound, MetadataTampered]
      ensures error.Some? ==> meta == old(meta)
      ensures error.None? ==> Rewritten(env, old(meta), meta, cid, update)
    {
      var (found, failure) := GetMetadata(env, meta, cid);
      if failure.Some? {
        return failure;
      }
      var updated := found.value;
      match update {
        case SetPinned(pinned) =>
          updated := updated.(pinned := pinned);
          updated := updated.(integrityHash := Some(Seal(env, updated)));
        case SetMetrics(metrics) => updated := updated.(metrics := Some(metrics));
        case SetReplicas(replicatedTo) => updated := updated.(replicatedTo := replicatedTo);
      }
      meta := meta[cid := updated];
      error := None;
    }

    /** `pinBlob` and `unpinBlob`. */
    method SetPin(cid: string, pinned: bool) returns (error: Option<Error>)
      modifies this`meta
      ensures (meta, error) == UpdateMetadata(env, old(meta), cid, SetPinned(pinned))
      ensures error.Some? ==> meta == old(meta)
      ensures error.None? ==>
                && cid in old(meta) && meta.Keys == old(meta).Keys && meta[cid].pinned == pinned
                && meta[cid].(pinned := old(meta)[cid].pinned, integrityHash := old(meta)[cid].integrityHash) ==
                   old(meta)[cid]
                && forall other :: other in old(meta) && other != cid ==> meta[other] == old(meta)[other]
    {
      var (found, failure) := GetMetadata(env, meta, cid);
      if failure.Some? {
        return failure;
      }
      error := Change(cid, SetPinned(pinned));
    }
  }

  ghost function Part(blobs: map<string, Bytes>, cids: set<string>): map<string, Bytes>
  {
    map cid | cid in blobs && cid in cids :: blobs[cid]
  }

  lemma SizeGrows(blobs: map<string, Bytes>, cids: set<string>, cid: string)
    requires cid in blobs && cid !in cids
    ensures SizeOf(Part(blobs, cids + {cid})) == SizeOf(Part(blobs, cids)) + |blobs[cid]|
  {
    var larger := Part(blobs, cids + {cid});
    SizeWithout(larger, cid);
    assert larger - {cid} == Part(blobs, cids);
  }

  lemma StatsGrow(blobs: map<string, Bytes>, seen: set<string>, pinned: set<string>, cid: string)
    requires cid in blobs && cid !in seen
    ensures SizeOf(Part(blobs, seen + {cid})) == SizeOf(Part(blobs, seen)) + |blobs[cid]|
    ensures SizeOf(Part(blobs, (seen + {cid}) * pinned)) ==
            SizeOf(Part(blobs, seen * pinned)) + if cid in pinned then |blobs[cid]| else 0
  {
    SizeGrows(blobs, seen, cid);
    if cid in pinned {
      SizeGrows(blobs, seen * pinned, cid);
      assert (seen + {cid}) * pinned == seen * pinned + {cid};
    } else {
      assert (seen + {cid}) * pinned == seen * pinned;
    }
  }

  ghost function PinnedCids(env: Env, s: State): set<string>
  {
    set cid | cid in s.blobs && GetMetadata(env, s.meta, cid).0.Some? && s.meta[cid].pinned
  }

  ghost function PinnedSize(env: Env, s: State): nat
  {
    SizeOf(Part(s.blobs, PinnedCids(env, s)))
  }

  /** The pinned part is that of the blobs whose record is intact and pinned. */
  lemma PinnedSizeMeans(env: Env, s: State)
    ensures PinnedSize(env, s) ==
            SizeOf(map cid | cid in s.blobs && cid in s.meta && Intact(env, s.meta[cid]) &&
                   s.meta[cid].pinned :: s.blobs[cid])
  {
    assert Part(s.blobs, PinnedCids(env, s)) ==
           map cid | cid in s.blobs && cid in s.meta && Intact(env, s.meta[cid]) && s.meta[cid].pinned :: s.blobs[cid];
  }

  // ---------------------------------------------------------------- what every state keeps

  type Files = map<string, Bytes>
  type Records = map<string, Metadata>

  /** The bytes a blob stands for. */
  ghost function Content(env: Env, blobs: Files, meta: Records, cid: string): Option<Bytes>
  {
    if cid in blobs && cid in meta then Unpacked(env, blobs[cid], meta[cid].compressed) else None
  }

  ghost predicate GoodBlob(env: Env, stored: Bytes, m: Metadata, cid: string)
  {
    && m.cid == cid && Intact(env, m)
    && Unpacked(env, stored, m.compressed).Some? && m.size == |Unpacked(env, stored, m.compressed).value|
    && (m.compressed ==> |stored| < m.size)
  }

  ghost predicate GoodFiles(env: Env, blobs: Files, meta: Records)
  {
    && (forall cid :: cid in blobs <==> cid in meta)
    && (forall cid :: cid in blobs ==> GoodBlob(env, blobs[cid], meta[cid], cid))
  }

  /** The cache holds nothing but true contents. */
  ghost predicate TrueCache(env: Env, blobs: Files, meta: Records, cache: Cache.State)
  {
    && Cache.WellFormed(cache)
    && (forall cid :: cid in cache.entries ==> Some(cache.entries[cid].data) == Content(env, blobs, meta, cid))
  }

  ghost predicate Inv(env: Env, s: State)
  {
    GoodFiles(env, s.blobs, s.meta) && TrueCache(env, s.blobs, s.meta, s.cache)
  }

  /** The plain map that files stand for. */
  ghost function ContentsOf(env: Env, blobs: Files, meta: Records): map<string, Bytes>
    requires GoodFiles(env, blobs, meta)
  {
    map cid | cid in blobs :: Unpacked(env, blobs[cid], meta[cid].compressed).value
  }

  ghost function Contents(env: Env, s: State): map<string, Bytes>
    requires Inv(env, s)
  {
    ContentsOf(env, s.blobs, s.meta)
  }

  // ---------------------------------------------------------------- steps

  datatype Op =
    | Store(cid: string, data: Bytes, mimeType: string, now: int)
    | Get(cid: string, now: int)
    | Delete(cid: string)
    | Pin(cid: string)
    | Unpin(cid: string)
    | RecordReplicas(cid: string, replicatedTo: seq<string>)

  datatype Out = Done | Data(bytes: Bytes) | Failed(error: Error)

  function OutOf(error: Option<Error>): Out
  {
    if error.None? then Done else Failed(error.value)
  }

  /** The step ends: if it is a read, the cache's eviction loop does. */
  predicate OpEnds(env: Env, s: State, op: Op)
    requires Cache.WellFormed(s.cache)
  {
    op.Get? ==> GetEnds(env, s, op.cid)
  }

  ghost function Step(env: Env, s: State, op: Op): (State, Out)
    requires Cache.WellFormed(s.cache) && OpEnds(env, s, op)
  {
    match op
    case Store(cid, data, mimeType, now) =>
      var (t, error) := StoreBlob(env, s, cid, data, mimeType, now);
      (t, OutOf(error))
    case Get(cid, now) =>
      var (t, fetched) := GetBlob(env, s, cid, now);
      (t, if fetched.Fetched? then Data(fetched.ciphertext) else Failed(fetched.error))
    case Delete(cid) =>
      var (t, error) := DeleteBlob(s, cid);
      (t, OutOf(error))
    case Pin(cid) => Change(env, s, cid, SetPinned(true))
    case Unpin(cid) => Change(env, s, cid, SetPinned(false))
    case RecordReplicas(cid, replicatedTo) => Change(env, s, cid, SetReplicas(replicatedTo))
  }

  ghost function Change(env: Env, s: State, cid: string, update: Update): (State, Out)
  {
    var (meta, error) := UpdateMetadata(env, s.meta, cid, update);
    (s.(meta := meta), OutOf(error))
  }

  /** The same operations on a plain map; whether the disk is full is told from outside. */
  function PlainStep(m: map<string, Bytes>, op: Op, full: bool): (map<string, Bytes>, Out)
  {
    match op
    case Store(cid, data, _, _) =>
      if full then (m, Failed(StorageFull)) else if cid in m then (m, Done) else (m[cid := data], Done)
    case Get(cid, _) => (m, if cid in m then Data(m[cid]) else Failed(BlobNotFound))
    case Delete(cid) => (m - {cid}, if cid in m then Done else Failed(BlobNotFound))
    case Pin(cid) => (m, if cid in m then Done else Failed(BlobNotFound))
    case Unpin(cid) => (m, if cid in m then Done else Failed(BlobNotFound))
    case RecordReplicas(cid, _) => (m, if cid in m then Done else Failed(BlobNotFound))
  }

  lemma EmptyInv(env: Env)
    ensures Inv(env, EMPTY) && Contents(env, EMPTY) == map[]
  {
  }

  lemma FileWritten(env: Env, blobs: Files, meta: Records, cid: string, stored: Bytes, m: Metadata)
    requires GoodFiles(env, blobs, meta) && GoodBlob(env, stored, m, cid)
    ensures GoodFiles(env, blobs[cid := stored], meta[cid := m])
    ensures ContentsOf(env, blobs[cid := stored], meta[cid := m]) ==
            ContentsOf(env, blobs, meta)[cid := Unpacked(env, stored, m.compressed).value]
  {
  }

  /** A metadata update that leaves the blob's hashed fields sealed changes no content. */
  lemma RecordWritten(env: Env, blobs: Files, meta: Records, cache: Cache.State, cid: string, m: Metadata)
    requires GoodFiles(env, blobs, meta) && TrueCache(env, blobs, meta, cache)
    requires cid in blobs && GoodBlob(env, blobs[cid], m, cid) && m.compressed == meta[cid].compressed
    ensures GoodFiles(env, blobs, meta[cid := m]) && TrueCache(env, blobs, meta[cid := m], cache)
    ensures ContentsOf(env, blobs, meta[cid := m]) == ContentsOf(env, blobs, meta)
  {
    FileWritten(env, blobs, meta, cid, blobs[cid], m);
    assert blobs[cid := blobs[cid]] == blobs;
  }

  lemma UpdateKeepsGood(env: Env, stored: Bytes, m: Metadata, cid: string, update: Update)
    requires GoodBlob(env, stored, m, cid)
    ensures GoodBlob(env, stored, Updated(env, m, update), cid)
    ensures Updated(env, m, update).compressed == m.compressed
  {
  }

  lemma ChangeRefines(env: Env, s: State, cid: string, update: Update)
    requires Inv(env, s)
    ensures var (t, out) := Change(env, s, cid, update);
            && Inv(env, t) && Contents(env, t) == Contents(env, s) && t.blobs == s.blobs
            && t.meta == (if cid in s.meta then s.meta[cid := Updated(env, s.meta[cid], update)] else s.meta)
            && out == if cid in Contents(env, s) then Done else Failed(BlobNotFound)
  {
    if cid in s.blobs {
      UpdateKeepsGood(env, s.blobs[cid], s.meta[cid], cid, update);
      RecordWritten(env, s.blobs, s.meta, s.cache, cid, Updated(env, s.meta[cid], update));
    }
  }

  lemma NewBlobGood(env: Env, cid: string, data: Bytes, mimeType: string, now: int)
    requires GoodCodec(env)
    ensures var m := FreshMetadata(env, cid, data, mimeType, now);
            GoodBlob(env, Packed(env, data).0, m, cid) && Unpacked(env, Packed(env, data).0, m.compressed) == Some(data)
  {
  }

  lemma StoreRefines(env: Env, s: State, cid: string, data: Bytes, mimeType: string, now: int)
    requires GoodCodec(env) && Inv(env, s)
    ensures var (t, error) := StoreBlob(env, s, cid, data, mimeType, now);
            && Inv(env, t)
            && (Contents(env, t), OutOf(error)) ==
               PlainStep(Contents(env, s), Store(cid, data, mimeType, now), SizeOf(s.blobs) >= env.maxStorageBytes)
  {
    if SizeOf(s.blobs) < env.maxStorageBytes && cid !in s.blobs {
      NewBlobGood(env, cid, data, mimeType, now);
      FileWritten(env, s.blobs, s.meta, cid, Packed(env, data).0, FreshMetadata(env, cid, data, mimeType, now));
    }
  }

  lemma DeleteRefines(env: Env, s: State, cid: string)
    requires Inv(env, s)
    ensures var (t, error) := DeleteBlob(s, cid);
            && Inv(env, t)
            && Contents(env, t) == Contents(env, s) - {cid}
            && error == if cid in Contents(env, s) then None else Some(BlobNotFound)
  {
    Cache.RemoveDrift(s.cache, cid);
    FileDeleted(env, s.blobs, s.meta, cid);
  }

  lemma FileDeleted(env: Env, blobs: Files, meta: Records, cid: string)
    requires GoodFiles(env, blobs, meta)
    ensures GoodFiles(env, blobs - {cid}, meta - {cid})
    ensures ContentsOf(env, blobs - {cid}, meta - {cid}) == ContentsOf(env, blobs, meta) - {cid}
  {
  }

  /** The cache after a read of a stored blob holds only true contents. */
  lemma ReadFillsCache(env: Env, s: State, cid: string, now: int)
    requires Inv(env, s) && cid in s.blobs && cid !in s.cache.entries && GetEnds(env, s, cid)
    ensures var content := Content(env, s.blobs, s.meta, cid).value;
            && Cache.WellFormed(Cache.Touch(s.cache, cid, now))
            && Cache.SetEnds(Cache.Touch(s.cache, cid, now), |content|, env.cacheBytes)
            && TrueCache(env, s.blobs, s.meta,
                         Cache.Set(Cache.Touch(s.cache, cid, now), cid, content, now, env.cacheBytes))
  {
    var touched, content := Cache.Touch(s.cache, cid, now), Content(env, s.blobs, s.meta, cid).value;
    Cache.MissKeeps(s.cache, cid, now);
    if Cache.Accepts(|content|, env.cacheBytes) {
      Cache.EvictsLeastRecent(touched, |content|, env.cacheBytes);
      Cache.PutWellFormed(Cache.MakeRoom(touched, |content|, env.cacheBytes), cid, content, now);
    }
  }

  lemma TouchKeepsTrue(env: Env, s: State, cid: string, now: int)
    requires Inv(env, s)
    ensures TrueCache(env, s.blobs, s.meta, Cache.Touch(s.cache, cid, now))
  {
    Cache.TouchKeeps(s.cache, cid, now);
  }

  lemma GetRefines(env: Env, s: State, cid: string, now: int)
    requires Inv(env, s) && GetEnds(env, s, cid)
    ensures var (t, fetched) := GetBlob(env, s, cid, now);
            && Inv(env, t) && Contents(env, t) == Contents(env, s) && t.blobs == s.blobs
            && t.meta == (if cid in s.meta then s.meta[cid := s.meta[cid].(metrics := Some(Bumped(s.meta[cid], now)))]
                          else s.meta)
            && fetched == if cid in s.blobs then Fetched(Contents(env, s)[cid], t.meta[cid])
               else NotFetched(BlobNotFound)
  {
    TouchKeepsTrue(env, s, cid, now);
    if cid in s.blobs {
      var cache := GetBlob(env, s, cid, now).0.cache;
      if cid !in s.cache.entries {
        ReadFillsCache(env, s, cid, now);
      }
      UpdateKeepsGood(env, s.blobs[cid], s.meta[cid], cid, SetMetrics(Bumped(s.meta[cid], now)));
      RecordWritten(env, s.blobs, s.meta, cache, cid, s.meta[cid].(metrics := Some(Bumped(s.meta[cid], now))));
    }
  }

  /**
   * A read is a use of the cache: a hit is renewed, and what is fetched from the disk is filed if it is small enough.
   */
  lemma ReadIsUse(env: Env, s: State, cid: string, now: int)
    requires Inv(env, s) && GetEnds(env, s, cid) && cid in s.blobs
    ensures var (t, content) := (GetBlob(env, s, cid, now).0, Contents(env, s)[cid]);
            && (cid in s.cache.entries ==>
                  && cid in t.cache.entries && t.cache.entries[cid].timestamp == now
                  && t.cache.entries[cid].accessCount == s.cache.entries[cid].accessCount + 1
                  && t.cache.hits == s.cache.hits + 1)
            && (cid !in s.cache.entries ==>
                  (cid in t.cache.entries <==> env.cacheBytes > 0 && 10 * |content| <= env.cacheBytes) &&
                  (cid in t.cache.entries ==> t.cache.entries[cid] == Cache.Entry(content, |content|, now, 1)))
  {
    var touched, content := Cache.Touch(s.cache, cid, now), Contents(env, s)[cid];
    if cid !in s.cache.entries {
      Cache.MissKeeps(s.cache, cid, now);
      assert Cache.SetEnds(touched, |content|, env.cacheBytes) == Cache.SetEnds(s.cache, |content|, env.cacheBytes);
      Cache.StepEntries(touched, Cache.SetOp(cid, content, now), cid, env.cacheBytes);
    }
  }

  /** Every step answers as the plain map does and keeps the metadata intact. */
  lemma StepRefines(env: Env, s: State, op: Op)
    requires GoodCodec(env) && Inv(env, s) && OpEnds(env, s, op)
    ensures var (t, out) := Step(env, s, op);
            && Inv(env, t)
            && (Contents(env, t), out) == PlainStep(Contents(env, s), op, SizeOf(s.blobs) >= env.maxStorageBytes)
  {
    match op
    case Store(cid, data, mimeType, now) => StoreRefines(env, s, cid, data, mimeType, now);
    case Get(cid, now) => GetRefines(env, s, cid, now);
    case Delete(cid) => DeleteRefines(env, s, cid);
    case Pin(cid) => ChangeRefines(env, s, cid, SetPinned(true));
    case Unpin(cid) => ChangeRefines(env, s, cid, SetPinned(false));
    case RecordReplicas(cid, replicatedTo) => ChangeRefines(env, s, cid, SetReplicas(replicatedTo));
  }

  // ---------------------------------------------------------------- runs

  /** A run with, for every step, its answer and whether the disk was full before it. */
  datatype Trace = Trace(state: State, outs: seq<Out>, fulls: seq<bool>)

  /** None once a read does not end. */
  ghost function Run(env: Env, ops: seq<Op>): (r: Option<Trace>)
    requires GoodCodec(env)
    ensures r.Some? ==> Inv(env, r.value.state) && |r.value.outs| == |r.value.fulls| == |ops|
  {
    EmptyInv(env);
    if ops == [] then Some(Trace(EMPTY, [], []))
    else
      var before, op := Run(env, ops[..|ops| - 1]), ops[|ops| - 1];
      if before.None? || !OpEnds(env, before.value.state, op) then None
      else
        StepRefines(env, before.value.state, op);
        Some(Extended(env, before.value, op))
  }

  ghost function Extended(env: Env, before: Trace, op: Op): Trace
    requires Cache.WellFormed(before.state.cache) && OpEnds(env, before.state, op)
  {
    var (t, out) := Step(env, before.state, op);
    Trace(t, before.outs + [out], before.fulls + [SizeOf(before.state.blobs) >= env.maxStorageBytes])
  }

  ghost predicate Ends(env: Env, ops: seq<Op>)
    requires GoodCodec(env)
  {
    Run(env, ops).Some?
  }

  function PlainRun(ops: seq<Op>, fulls: seq<bool>): (map<string, Bytes>, seq<Out>)
    requires |fulls| == |ops|
  {
    if ops == [] then (map[], [])
    else
      var n := |ops| - 1;
      var (m, outs) := PlainRun(ops[..n], fulls[..n]);
      var (m', out) := PlainStep(m, ops[n], fulls[n]);
      (m', outs + [out])
  }

  /** One step more: the run goes on exactly if the step ends, and the step answers as the plain map does. */
  lemma RunLast(env: Env, ops: seq<Op>, op: Op)
    requires GoodCodec(env) && Ends(env, ops)
    ensures var before := Run(env, ops).value;
            && (Ends(env, ops + [op]) <==> OpEnds(env, before.state, op))
            && (Ends(env, ops + [op]) ==> Run(env, ops + [op]).value == Extended(env, before, op))
  {
    assert (ops + [op])[..|ops|] == ops;
  }

  lemma {:induction false} PrefixEnds(env: Env, ops: seq<Op>, n: nat)
    requires GoodCodec(env) && Ends(env, ops) && n <= |ops|
    ensures Ends(env, ops[..n]) && Run(env, ops[..n]).value.outs == Run(env, ops).value.outs[..n]
  {
    if n == |ops| {
      assert ops[..n] == ops;
    } else {
      PrefixEnds(env, ops[..|ops| - 1], n);
      assert ops[..|ops| - 1][..n] == ops[..n];
    }
  }

  /** The answers are those of the plain map, which is what the files stand for, and all records are intact. */
  ghost predicate Refined(env: Env, r: Trace, ops: seq<Op>)
  {
    && Inv(env, r.state) && |r.outs| == |r.fulls| == |ops|
    && (Contents(env, r.state), r.outs) == PlainRun(ops, r.fulls)
    && forall cid :: cid in r.state.meta ==> Intact(env, r.state.meta[cid])
  }

  /**
   * Every run whose reads end answers exactly as the plain map does, for every cache size and whether blobs are
   * compressed or not, and every metadata record it leaves passes its integrity check.
   */
  lemma {:induction false} RunRefinesPlainMap(env: Env, ops: seq<Op>)
    requires GoodCodec(env)
    ensures Ends(env, ops) ==> Refined(env, Run(env, ops).value, ops)
  {
    if ops == [] {
      EmptyInv(env);
    } else if Ends(env, ops) {
      var front, op := ops[..|ops| - 1], ops[|ops| - 1];
      assert ops == front + [op];
      RunRefinesPlainMap(env, front);
      RefinesOneMore(env, front, op);
    }
  }

  lemma RefinesOneMore(env: Env, ops: seq<Op>, op: Op)
    requires GoodCodec(env) && Ends(env, ops) && Ends(env, ops + [op]) && Refined(env, Run(env, ops).value, ops)
    ensures Refined(env, Run(env, ops + [op]).value, ops + [op])
  {
    RunLast(env, ops, op);
    RefinesOnce(env, Run(env, ops).value, ops, op);
  }

  lemma RefinesOnce(env: Env, before: Trace, ops: seq<Op>, op: Op)
    requires GoodCodec(env) && Refined(env, before, ops) && OpEnds(env, before.state, op)
    ensures Refined(env, Extended(env, before, op), ops + [op])
  {
    var after := Extended(env, before, op);
    StepRefines(env, before.state, op);
    assert (ops + [op])[..|ops|] == ops && after.fulls[..|ops|] == before.fulls;
    forall cid | cid in after.state.meta ensures Intact(env, after.state.meta[cid]) {
      assert GoodBlob(env, after.state.blobs[cid], after.state.meta[cid], cid);
    }
  }

  // ---------------------------------------------------------------- what the records tell

  /** The states a run goes through, the first one empty. */
  ghost predicate History(env: Env, ops: seq<Op>, states: seq<State>)
  {
    Steps(ops, states, LeadsTo(env)) && states[0] == EMPTY
  }

  ghost function LeadsTo(env: Env): (State, Op, State) -> bool
  {
    (s: State, op: Op, t: State) => Inv(env, s) && OpEnds(env, s, op) && t == Step(env, s, op).0
  }

  /** Every run that ends has one. */
  lemma {:induction false} RunHistory(env: Env, ops: seq<Op>) returns (states: seq<State>)
    requires GoodCodec(env) && Ends(env, ops)
    ensures History(env, ops, states) && states[|ops|] == Run(env, ops).value.state
  {
    if ops == [] {
      EmptyInv(env);
      states := [EMPTY];
    } else {
      var front, op := ops[..|ops| - 1], ops[|ops| - 1];
      assert ops == front + [op];
      var before := RunHistory(env, front);
      states := before + [Step(env, before[|front|], op).0];
      StepsGrow(front, before, LeadsTo(env), op, states[|ops|]);
    }
  }

  /** What one step does to the record of a blob. */
  ghost predicate RecordStep(env: Env, s: State, t: State, op: Op, cid: string)
  {
    if op == Delete(cid) then cid !in t.meta
    else if op.Store? && op.cid == cid && cid !in s.meta && SizeOf(s.blobs) < env.maxStorageBytes then
      && cid in t.meta && cid in t.blobs && FirstRecord(env, op, t.blobs[cid], t.meta[cid])
    else
      && (cid in t.meta <==> cid in s.meta)
      && (cid in t.meta ==>
            && cid in t.blobs && cid in s.blobs && t.blobs[cid] == s.blobs[cid]
            && NextRecord(env, s.meta[cid], t.meta[cid], op, cid))
  }

  /** The record of a blob just stored, whose file is the smaller of what there is to choose from. */
  ghost predicate FirstRecord(env: Env, op: Op, stored: Bytes, m: Metadata)
    requires op.Store?
  {
    && m.cid == op.cid && m.size == |op.data| && m.mimeType == op.mimeType && m.createdAt == op.now && !m.pinned
    && m.integrityHash == Some(env.hmac(op.cid, |op.data|, op.mimeType, op.now, false))
    && m.replicatedTo == [] && m.metrics == Some(Metrics(0, op.now))
    && (if m.compressed then env.compressionEnabled && env.gzip(op.data) == Some(stored) && |stored| < |op.data|
        else stored == op.data)
    && (env.compressionEnabled && env.gzip(op.data).Some? ==> |stored| <= |env.gzip(op.data).value|)
  }

  /** A read counts itself and notes its time; a pin, an unpin or a list of replicas is noted; nothing else changes. */
  ghost predicate NextRecord(env: Env, m: Metadata, n: Metadata, op: Op, cid: string)
  {
    if op.Get? && op.cid == cid then
      && n == m.(metrics := n.metrics) && n.metrics.Some? && n.metrics.value.lastAccessed == op.now
      && n.metrics.value.retrievalCount == 1 + if m.metrics.Some? then m.metrics.value.retrievalCount else 0
    else if op == Pin(cid) || op == Unpin(cid) then
      n == m.(pinned := op.Pin?, integrityHash := Some(env.hmac(m.cid, m.size, m.mimeType, m.createdAt, op.Pin?)))
    else if op.RecordReplicas? && op.cid == cid then n == m.(replicatedTo := op.replicatedTo)
    else n == m
  }

  lemma StepRecords(env: Env, s: State, op: Op, cid: string)
    requires GoodCodec(env) && Inv(env, s) && OpEnds(env, s, op)
    ensures RecordStep(env, s, Step(env, s, op).0, op, cid)
  {
    match op
    case Get(other, now) => GetRefines(env, s, other, now);
    case Pin(other) => ChangeRecords(env, s, op, SetPinned(true), cid);
    case Unpin(other) => ChangeRecords(env, s, op, SetPinned(false), cid);
    case RecordReplicas(other, list) => ChangeRecords(env, s, op, SetReplicas(list), cid);
    case Store(_, _, _, _) => StoreRecords(env, s, op, cid);
    case Delete(_) =>
  }

  lemma StoreRecords(env: Env, s: State, op: Op, cid: string)
    requires Inv(env, s) && op.Store?
    ensures RecordStep(env, s, Step(env, s, op).0, op, cid)
  {
  }

  lemma ChangeRecords(env: Env, s: State, op: Op, update: Update, cid: string)
    requires Inv(env, s) && (op.Pin? || op.Unpin? || op.RecordReplicas?)
    requires update == match op
                       case Pin(_) => SetPinned(true)
                       case Unpin(_) => SetPinned(false)
                       case RecordReplicas(_, list) => SetReplicas(list)
    ensures RecordStep(env, s, Change(env, s, op.cid, update).0, op, cid)
  {
    if cid in s.blobs {
      assert GoodBlob(env, s.blobs[cid], s.meta[cid], cid);
    }
    ChangeRefines(env, s, op.cid, update);
  }

  /** Step `i` stores the blob, and no step before `n` deletes it. */
  ghost predicate StoredSince(env: Env, ops: seq<Op>, states: seq<State>, i: nat, n: nat, cid: string)
    requires |ops| < |states|
  {
    && i < n <= |ops| && ops[i].Store? && ops[i].cid == cid
    && cid !in states[i].meta && SizeOf(states[i].blobs) < env.maxStorageBytes
    && forall j :: i < j < n ==> ops[j] != Delete(cid)
  }

  /** A blob that is there was stored by some step and not deleted since. */
  lemma {:induction false} PresentWasStored(env: Env, ops: seq<Op>, states: seq<State>, n: nat, cid: string)
    returns (i: nat)
    requires GoodCodec(env) && History(env, ops, states) && n <= |ops| && cid in states[n].meta
    ensures StoredSince(env, ops, states, i, n, cid)
  {
    RecordStepAt(env, ops, states, n, cid);
    if cid in states[n - 1].meta {
      i := PresentWasStored(env, ops, states, n - 1, cid);
    } else {
      i := n - 1;
    }
  }

  /** The value is what the last of the steps behind step `i` says for which `p` holds, or what it was at first. */
  ghost predicate LastNoted<T(!new)>(
    ops: seq<Op>, p: Op -> bool, i: nat, n: nat, says: Op -> T, initially: T, value: T)
    requires n <= |ops|
  {
    && (forall at :: i < at < n && p(ops[at]) && (forall k :: at < k < n ==> !p(ops[k])) ==> value == says(ops[at]))
    && ((forall k :: i < k < n ==> !p(ops[k])) ==> value == initially)
  }

  lemma NotedNext<T(!new)>(
    ops: seq<Op>, p: Op -> bool, i: nat, n: nat, says: Op -> T, initially: T, before: T, after: T)
    requires i + 1 < n <= |ops| && LastNoted(ops, p, i, n - 1, says, initially, before)
    requires after == if p(ops[n - 1]) then says(ops[n - 1]) else before
    ensures LastNoted(ops, p, i, n, says, initially, after)
  {
  }

  /** How many of the steps behind step `i` are reads of the blob. */
  function Reads(ops: seq<Op>, i: nat, n: nat, cid: string): nat
    requires n <= |ops|
  {
    if n <= i + 1 then 0 else Reads(ops, i, n - 1, cid) + if ReadOf(cid)(ops[n - 1]) then 1 else 0
  }

  function ReadOf(cid: string): Op -> bool
  {
    (op: Op) => op.Get? && op.cid == cid
  }

  function PinningOf(cid: string): Op -> bool
  {
    (op: Op) => op == Pin(cid) || op == Unpin(cid)
  }

  function ReplicasOf(cid: string): Op -> bool
  {
    (op: Op) => op.RecordReplicas? && op.cid == cid
  }

  /** What the record of a blob says that step `i` stored, `n` steps into the run. */
  ghost predicate Tells(env: Env, ops: seq<Op>, i: nat, n: nat, stored: Bytes, m: Metadata)
    requires i < n <= |ops| && ops[i].Store?
  {
    && SealedAsStored(env, ops[i], stored, m)
    && LastNoted(ops, PinningOf(ops[i].cid), i, n, (op: Op) => op.Pin?, false, m.pinned)
    && LastNoted(ops, ReplicasOf(ops[i].cid), i, n,
                 (op: Op) => if op.RecordReplicas? then op.replicatedTo else [], [], m.replicatedTo)
    && m.metrics.Some? && m.metrics.value.retrievalCount == Reads(ops, i, n, ops[i].cid)
    && LastNoted(ops, ReadOf(ops[i].cid), i, n,
                 (op: Op) => if op.Get? then op.now else 0, ops[i].now, m.metrics.value.lastAccessed)
  }

  /** The fields that never change, and a seal over those that are sealed. */
  ghost predicate SealedAsStored(env: Env, op: Op, stored: Bytes, m: Metadata)
    requires op.Store?
  {
    && m.integrityHash == Some(env.hmac(op.cid, |op.data|, op.mimeType, op.now, m.pinned))
    && FirstRecord(env, op, stored,
                   m.(pinned := false, integrityHash := Some(env.hmac(op.cid, |op.data|, op.mimeType, op.now, false)),
                      replicatedTo := [], metrics := Some(Metrics(0, op.now))))
  }

  lemma TellsAtFirst(env: Env, ops: seq<Op>, i: nat, stored: Bytes, m: Metadata)
    requires i < |ops| && ops[i].Store? && FirstRecord(env, ops[i], stored, m)
    ensures Tells(env, ops, i, i + 1, stored, m)
  {
  }

  lemma TellsNext(env: Env, ops: seq<Op>, i: nat, n: nat, stored: Bytes, m: Metadata, m': Metadata)
    requires i + 1 < n <= |ops| && ops[i].Store? && Tells(env, ops, i, n - 1, stored, m)
    requires NextRecord(env, m, m', ops[n - 1], ops[i].cid)
    ensures Tells(env, ops, i, n, stored, m')
  {
    var cid := ops[i].cid;
    NotedNext(ops, PinningOf(cid), i, n, (op: Op) => op.Pin?, false, m.pinned, m'.pinned);
    NotedNext(ops, ReplicasOf(cid), i, n, (op: Op) => if op.RecordReplicas? then op.replicatedTo else [], [],
              m.replicatedTo, m'.replicatedTo);
    NotedNext(ops, ReadOf(cid), i, n, (op: Op) => if op.Get? then op.now else 0, ops[i].now,
              m.metrics.value.lastAccessed, m'.metrics.value.lastAccessed);
  }

  /** The blob is there and its record tells its history. */
  ghost predicate Described(env: Env, ops: seq<Op>, i: nat, n: nat, s: State, cid: string)
    requires i < n <= |ops| && ops[i].Store?
  {
    cid in s.meta && cid in s.blobs && Tells(env, ops, i, n, s.blobs[cid], s.meta[cid])
  }

  lemma DescribedNext(env: Env, ops: seq<Op>, i: nat, n: nat, s: State, t: State, cid: string)
    requires i + 1 < n <= |ops| && ops[i].Store? && ops[i].cid == cid && ops[n - 1] != Delete(cid)
    requires Described(env, ops, i, n - 1, s, cid) && RecordStep(env, s, t, ops[n - 1], cid)
    ensures Described(env, ops, i, n, t, cid)
  {
    TellsNext(env, ops, i, n, s.blobs[cid], s.meta[cid], t.meta[cid]);
  }

  lemma RecordStepAt(env: Env, ops: seq<Op>, states: seq<State>, n: nat, cid: string)
    requires GoodCodec(env) && History(env, ops, states) && 0 < n <= |ops|
    ensures RecordStep(env, states[n - 1], states[n], ops[n - 1], cid)
  {
    assert LeadsTo(env)(states[n - 1], ops[n - 1], states[n - 1 + 1]);
    StepRecords(env, states[n - 1], ops[n - 1], cid);
  }

  lemma DescribedFirst(env: Env, ops: seq<Op>, states: seq<State>, i: nat, cid: string)
    requires GoodCodec(env) && History(env, ops, states) && StoredSince(env, ops, states, i, i + 1, cid)
    ensures Described(env, ops, i, i + 1, states[i + 1], cid)
  {
    RecordStepAt(env, ops, states, i + 1, cid);
    TellsAtFirst(env, ops, i, states[i + 1].blobs[cid], states[i + 1].meta[cid]);
  }

  lemma DescribedOnceMore(env: Env, ops: seq<Op>, states: seq<State>, i: nat, n: nat, cid: string)
    requires GoodCodec(env) && History(env, ops, states) && i + 1 < n <= |ops| && ops[i].Store? && ops[i].cid == cid
    requires ops[n - 1] != Delete(cid) && Described(env, ops, i, n - 1, states[n - 1], cid)
    ensures Described(env, ops, i, n, states[n], cid)
  {
    RecordStepAt(env, ops, states, n, cid);
    DescribedNext(env, ops, i, n, states[n - 1], states[n], cid);
  }

  /**
   * Records are the history of the run. As long as a blob is there its record says when and as what it was stored, it
   * is pinned if and only if the last pin or unpin since was a pin, its accesses are the reads since and the time of
   * the last one, its replicas those last recorded, and its file is the smaller of the raw and the compressed bytes.
   */
  lemma {:induction false} RecordsTell(env: Env, ops: seq<Op>, states: seq<State>, i: nat, n: nat, cid: string)
    requires GoodCodec(env) && History(env, ops, states) && StoredSince(env, ops, states, i, n, cid)
    ensures Described(env, ops, i, n, states[n], cid)
  {
    if n == i + 1 {
      DescribedFirst(env, ops, states, i, cid);
    } else {
      RecordsTell(env, ops, states, i, n - 1, cid);
      DescribedOnceMore(env, ops, states, i, n, cid);
    }
  }

  /** A stored blob is pinned exactly if it was pinned after it was stored and not unpinned since. */
  lemma PinnedIffLastPin(env: Env, ops: seq<Op>, states: seq<State>, i: nat, cid: string)
    requires GoodCodec(env) && History(env, ops, states) && StoredSince(env, ops, states, i, |ops|, cid)
    ensures cid in states[|ops|].meta
    ensures states[|ops|].meta[cid].pinned <==>
            exists at :: i < at < |ops| && ops[at] == Pin(cid) && forall k :: at < k < |ops| ==> ops[k] != Unpin(cid)
  {
    RecordsTell(env, ops, states, i, |ops|, cid);
    if exists at :: i < at < |ops| && PinningOf(cid)(ops[at]) {
      var at := LastOfSteps(ops, PinningOf(cid), i);
      assert ops[at] == Pin(cid) || ops[at] == Unpin(cid);
    }
  }

  lemma {:induction false} LastOfSteps(ops: seq<Op>, p: Op -> bool, i: nat) returns (at: nat)
    requires exists k :: i < k < |ops| && p(ops[k])
    ensures i < at < |ops| && p(ops[at]) && forall k :: at < k < |ops| ==> !p(ops[k])
  {
    at := |ops| - 1;
    while !p(ops[at])
      invariant i < at < |ops| && (forall k :: at < k < |ops| ==> !p(ops[k]))
      invariant exists k :: i < k <= at && p(ops[k])
      decreases at
    {
      at := at - 1;
    }
  }

  /** The last access of a stored blob is the last read since, or the store itself. */
  lemma LastAccessIsLastRead(env: Env, ops: seq<Op>, states: seq<State>, i: nat, at: nat, cid: string)
    requires GoodCodec(env) && History(env, ops, states) && StoredSince(env, ops, states, i, |ops|, cid)
    requires i <= at < |ops| && (i < at ==> ops[at].Get? && ops[at].cid == cid)
    requires forall k :: at < k < |ops| ==> !(ops[k].Get? && ops[k].cid == cid)
    ensures cid in states[|ops|].meta
    ensures states[|ops|].meta[cid].metrics == Some(Metrics(Reads(ops, i, |ops|, cid), ops[at].now))
  {
    RecordsTell(env, ops, states, i, |ops|, cid);
    LastReadTold(env, ops, i, at, states[|ops|].blobs[cid], states[|ops|].meta[cid]);
  }

  lemma LastReadTold(env: Env, ops: seq<Op>, i: nat, at: nat, stored: Bytes, m: Metadata)
    requires i <= at < |ops| && ops[i].Store? && Tells(env, ops, i, |ops|, stored, m)
    requires i < at ==> ops[at].Get? && ops[at].cid == ops[i].cid
    requires forall k :: at < k < |ops| ==> !(ops[k].Get? && ops[k].cid == ops[i].cid)
    ensures m.metrics == Some(Metrics(Reads(ops, i, |ops|, ops[i].cid), ops[at].now))
  {
    assert i < at ==> ReadOf(ops[i].cid)(ops[at]);
  }

  // ---------------------------------------------------------------- which runs end

  /** A read of a content identifier, which is not empty. */
  predicate NamedOp(op: Op)
  {
    op.Get? ==> op.cid != ""
  }

  lemma NamedStepEnds(env: Env, s: State, op: Op)
    requires Inv(env, s) && Cache.Valid(s.cache) && NamedOp(op)
    ensures OpEnds(env, s, op) && Cache.Valid(Step(env, s, op).0.cache)
  {
    match op
    case Get(cid, now) =>
      if cid in s.cache.entries {
        Cache.TouchKeeps(s.cache, cid, now);
      } else {
        NamedReadEnds(env, s, cid, now);
      }
    case Delete(cid) => Cache.RemoveDrift(s.cache, cid);
    case _ =>
  }

  lemma NamedReadEnds(env: Env, s: State, cid: string, now: int)
    requires Inv(env, s) && Cache.Valid(s.cache) && cid != "" && cid !in s.cache.entries
    ensures GetEnds(env, s, cid) && Cache.Valid(GetBlob(env, s, cid, now).0.cache)
  {
    Cache.MissKeeps(s.cache, cid, now);
    if cid in s.blobs {
      var touched, content := Cache.Touch(s.cache, cid, now), Content(env, s.blobs, s.meta, cid).value;
      if Cache.Accepts(|content|, env.cacheBytes) {
        Cache.PutWellFormed(Cache.MakeRoom(touched, |content|, env.cacheBytes), cid, content, now);
      }
    }
  }

  /** Every run that reads only non-empty CIDs ends. */
  lemma {:induction false} NamedRunsEnd(env: Env, ops: seq<Op>)
    requires GoodCodec(env) && forall op :: op in ops ==> NamedOp(op)
    ensures Ends(env, ops) && Cache.Valid(Run(env, ops).value.state.cache)
  {
    if ops != [] {
      var front, op := ops[..|ops| - 1], ops[|ops| - 1];
      assert ops == front + [op];
      NamedRunsEnd(env, front);
      NamedStepEnds(env, Run(env, front).value.state, op);
    }
  }

  /** Blobs of one byte, stored and read one after the other. */
  function StoreAndRead(cids: seq<string>): seq<Op>
  {
    if cids == [] then []
    else
      var n := |cids| - 1;
      StoreAndRead(cids[..n]) + [Store(cids[n], [0], "", n)] + [Get(cids[n], n)]
  }

  /** The state this leaves, as far as it matters: the cache holds one byte for each, in the order of the reads. */
  ghost predicate OneByteEach(s: State, cids: seq<string>)
  {
    && s.cache.order == cids && s.cache.totalSize == |cids| && SizeOf(s.blobs) == |cids|
    && (forall cid :: cid in s.blobs <==> cid in cids)
    && (forall i :: 0 <= i < |cids| ==> cids[i] in s.cache.entries && s.cache.entries[cids[i]].timestamp == i)
  }

  /** Small blobs, stored as they are, on a disk with room for all of them. */
  ghost predicate Roomy(env: Env, n: nat)
  {
    GoodCodec(env) && !env.compressionEnabled && 10 <= env.cacheBytes && n < env.maxStorageBytes
  }

  lemma StoreOneByte(env: Env, s: State, cids: seq<string>, cid: string, now: int)
    requires Inv(env, s) && OneByteEach(s, cids) && Roomy(env, |cids|) && cid !in cids
    ensures var t := StoreBlob(env, s, cid, [0], "", now).0;
            && t.cache == s.cache && t.blobs == s.blobs[cid := [0]] && SizeOf(t.blobs) == |cids| + 1
            && cid in t.meta && !t.meta[cid].compressed
  {
    var t := StoreBlob(env, s, cid, [0], "", now).0;
    assert t.blobs - {cid} == s.blobs;
    SizeWithout(t.blobs, cid);
  }

  /** A read that is not cached and needs no eviction. */
  lemma ReadOneByte(env: Env, t: State, cids: seq<string>, cid: string)
    requires Cache.WellFormed(t.cache) && t.cache.order == cids && t.cache.totalSize == |cids| < env.cacheBytes
    requires 10 <= env.cacheBytes && cid !in cids && cid in t.blobs && cid in t.meta && t.blobs[cid] == [0]
    requires !t.meta[cid].compressed
    requires forall i :: 0 <= i < |cids| ==> cids[i] in t.cache.entries && t.cache.entries[cids[i]].timestamp == i
    requires cids != [] ==> cids[0] == ""
    ensures GetEnds(env, t, cid)
    ensures var u := GetBlob(env, t, cid, |cids|).0;
            && u.blobs == t.blobs && u.cache.order == cids + [cid] && u.cache.totalSize == |cids| + 1
            && u.cache.entries == t.cache.entries[cid := Cache.Entry([0], 1, |cids|, 1)]
  {
    OnlyYounger(t.cache, cids);
    Cache.MissKeeps(t.cache, cid, |cids|);
    var touched := Cache.Touch(t.cache, cid, |cids|);
    assert Cache.Fits(touched, 1, env.cacheBytes);
    assert Cache.MakeRoom(touched, 1, env.cacheBytes) == touched;
  }

  /** Nothing is older than the entry under the empty key, which was filed first. */
  lemma OnlyYounger(cache: Cache.State, cids: seq<string>)
    requires Cache.WellFormed(cache) && cache.order == cids && (cids != [] ==> cids[0] == "")
    requires forall i :: 0 <= i < |cids| ==> cids[i] in cache.entries && cache.entries[cids[i]].timestamp == i
    ensures "" in cache.entries <==> cids != []
    ensures cids != [] ==> Cache.OlderThanEmpty(cache.order, cache.entries) == 0
  {
    if cids != [] {
      assert cids[0] in cids;
      Cache.NothingOlder(cids, cache.entries);
    }
  }

  lemma {:induction false} FillsUp(env: Env, cids: seq<string>)
    requires Roomy(env, |cids|) && NoDup(cids) && |cids| <= env.cacheBytes && (cids != [] ==> cids[0] == "")
    ensures Ends(env, StoreAndRead(cids)) && OneByteEach(Run(env, StoreAndRead(cids)).value.state, cids)
  {
    if cids != [] {
      var front, cid := cids[..|cids| - 1], cids[|cids| - 1];
      assert cids == front + [cid];
      FillsUp(env, front);
      FillsOneMore(env, StoreAndRead(front), front, cid);
    } else {
      EmptyInv(env);
    }
  }

  lemma FillsOneMore(env: Env, ops: seq<Op>, cids: seq<string>, cid: string)
    requires GoodCodec(env) && Ends(env, ops) && OneByteEach(Run(env, ops).value.state, cids)
    requires Roomy(env, |cids|) && |cids| < env.cacheBytes && cid !in cids
    requires cids != [] ==> cids[0] == ""
    ensures var more := ops + [Store(cid, [0], "", |cids|)] + [Get(cid, |cids|)];
            Ends(env, more) && OneByteEach(Run(env, more).value.state, cids + [cid])
  {
    StoredAndRead(env, Run(env, ops).value.state, cids, cid);
    RunTwo(env, ops, Store(cid, [0], "", |cids|), Get(cid, |cids|));
  }

  lemma RunTwo(env: Env, ops: seq<Op>, first: Op, second: Op)
    requires GoodCodec(env) && Ends(env, ops) && OpEnds(env, Run(env, ops).value.state, first)
    ensures var s := Run(env, ops).value.state;
            var t := Step(env, s, first).0;
            && Cache.WellFormed(t.cache)
            && (OpEnds(env, t, second) ==>
                  && Ends(env, ops + [first] + [second])
                  && Run(env, ops + [first] + [second]).value.state == Step(env, t, second).0)
  {
    RunLast(env, ops, first);
    RunLast(env, ops + [first], second);
  }

  lemma StoredAndRead(env: Env, s: State, cids: seq<string>, cid: string)
    requires Inv(env, s) && OneByteEach(s, cids) && Roomy(env, |cids|) && |cids| < env.cacheBytes && cid !in cids
    requires cids != [] ==> cids[0] == ""
    ensures var t := Step(env, s, Store(cid, [0], "", |cids|)).0;
            && Cache.WellFormed(t.cache) && OpEnds(env, t, Get(cid, |cids|))
            && OneByteEach(Step(env, t, Get(cid, |cids|)).0, cids + [cid])
  {
    StoreOneByte(env, s, cids, cid, |cids|);
    var t := Step(env, s, Store(cid, [0], "", |cids|)).0;
    ReadOneByte(env, t, cids, cid);
    OneByteMore(s, Step(env, t, Get(cid, |cids|)).0, cids, cid);
  }

  lemma OneByteMore(s: State, u: State, cids: seq<string>, cid: string)
    requires OneByteEach(s, cids) && cid !in cids
    requires u.blobs == s.blobs[cid := [0]] && SizeOf(u.blobs) == |cids| + 1
    requires u.cache.order == cids + [cid] && u.cache.totalSize == |cids| + 1
    requires u.cache.entries == s.cache.entries[cid := Cache.Entry([0], 1, |cids|, 1)]
    ensures OneByteEach(u, cids + [cid])
  {
    forall i | 0 <= i < |cids| ensures cids[i] != cid {
    }
  }

  /**
   * A run of the store that stalls. The blob under the empty CID is read first, then others, one byte each, until the
   * cache is full; all these reads end. The read of one blob more does not, although its CID is not empty.
   */
  lemma StoreRunStalls(env: Env, cids: seq<string>, cid: string)
    requires Roomy(env, |cids|) && |cids| == env.cacheBytes && NoDup(cids) && cids[0] == "" && cid !in cids
    ensures var stored := StoreAndRead(cids) + [Store(cid, [0], "", |cids|)];
            && cid != "" && Ends(env, stored) && cid in Run(env, stored).value.state.blobs
            && !Ends(env, stored + [Get(cid, |cids|)])
            && forall n: nat :: !Cache.Fits(Cache.EvictTimes(Run(env, stored).value.state.cache, n), 1, env.cacheBytes)
  {
    var ops := StoreAndRead(cids);
    var stored := ops + [Store(cid, [0], "", |cids|)];
    assert cids[0] in cids;
    FillsUp(env, cids);
    RunLast(env, ops, Store(cid, [0], "", |cids|));
    StoreOneByte(env, Run(env, ops).value.state, cids, cid, |cids|);
    RunLast(env, stored, Get(cid, |cids|));
    FullOfYounger(env, Run(env, stored).value.state, cids, cid);
  }

  /** No room is ever made in a full cache whose oldest entry is under the empty key. */
  lemma FullOfYounger(env: Env, t: State, cids: seq<string>, cid: string)
    requires Cache.WellFormed(t.cache) && t.cache.order == cids && t.cache.totalSize == |cids| == env.cacheBytes
    requires 10 <= env.cacheBytes && cids[0] == "" && cid !in cids
    requires cid in t.blobs && cid in t.meta && t.blobs[cid] == [0] && !t.meta[cid].compressed
    requires forall i :: 0 <= i < |cids| ==> cids[i] in t.cache.entries && t.cache.entries[cids[i]].timestamp == i
    ensures !GetEnds(env, t, cid)
    ensures forall n: nat :: !Cache.Fits(Cache.EvictTimes(t.cache, n), 1, env.cacheBytes)
  {
    OnlyYounger(t.cache, cids);
    forall n: nat ensures !Cache.Fits(Cache.EvictTimes(t.cache, n), 1, env.cacheBytes) {
      Cache.NoRoomEver(t.cache, 1, env.cacheBytes, n);
    }
  }

  // ---------------------------------------------------------------- the first bytes stay

  /** In the plain map the bytes of a blob stay those first stored until it is deleted. */
  lemma PlainStays(m: map<string, Bytes>, op: Op, full: bool, cid: string)
    requires cid in m && op != Delete(cid)
    ensures cid in PlainStep(m, op, full).0 && PlainStep(m, op, full).0[cid] == m[cid]
  {
  }

  /** After the run the blob is there, with these bytes. */
  ghost predicate Holds(env: Env, ops: seq<Op>, cid: string, data: Bytes)
    requires GoodCodec(env) && Ends(env, ops)
  {
    var contents := Contents(env, Run(env, ops).value.state);
    cid in contents && contents[cid] == data
  }

  /** The blob is not there after the run, and the disk is not full. */
  ghost predicate Storable(env: Env, ops: seq<Op>, cid: string)
    requires GoodCodec(env) && Ends(env, ops)
  {
    cid !in Run(env, ops).value.state.blobs && SizeOf(Run(env, ops).value.state.blobs) < env.maxStorageBytes
  }

  lemma StoreHolds(env: Env, ops: seq<Op>, op: Op)
    requires GoodCodec(env) && Ends(env, ops) && op.Store? && Storable(env, ops, op.cid)
    ensures Ends(env, ops + [op]) && Holds(env, ops + [op], op.cid, op.data)
  {
    RunLast(env, ops, op);
    StepRefines(env, Run(env, ops).value.state, op);
  }

  lemma HoldsOn(env: Env, ops: seq<Op>, op: Op, cid: string, data: Bytes)
    requires GoodCodec(env) && Ends(env, ops) && Ends(env, ops + [op]) && Holds(env, ops, cid, data)
    requires op != Delete(cid)
    ensures Holds(env, ops + [op], cid, data)
  {
    var s := Run(env, ops).value.state;
    RunLast(env, ops, op);
    StepRefines(env, s, op);
    PlainStays(Contents(env, s), op, SizeOf(s.blobs) >= env.maxStorageBytes, cid);
  }

  lemma HoldsAnswers(env: Env, ops: seq<Op>, op: Op, data: Bytes)
    requires GoodCodec(env) && Ends(env, ops) && Ends(env, ops + [op]) && op.Get? && Holds(env, ops, op.cid, data)
    ensures Run(env, ops + [op]).value.outs[|ops|] == Data(data)
  {
    RunLast(env, ops, op);
    StepRefines(env, Run(env, ops).value.state, op);
  }

  lemma HoldsOneMore(env: Env, ops: seq<Op>, n: nat, cid: string, data: Bytes)
    requires GoodCodec(env) && Ends(env, ops) && n < |ops| && ops[n] != Delete(cid)
    requires Ends(env, ops[..n]) && Holds(env, ops[..n], cid, data)
    ensures Ends(env, ops[..n + 1]) && Holds(env, ops[..n + 1], cid, data)
  {
    PrefixEnds(env, ops, n + 1);
    PrefixSnoc(ops, n);
    HoldsOn(env, ops[..n], ops[n], cid, data);
  }

  ghost predicate HeldAt(env: Env, ops: seq<Op>, cid: string, data: Bytes, n: nat)
    requires GoodCodec(env)
  {
    n <= |ops| && Ends(env, ops[..n]) && Holds(env, ops[..n], cid, data)
  }

  lemma HoldsUntil(env: Env, ops: seq<Op>, i: nat, n: nat, cid: string, data: Bytes)
    requires GoodCodec(env) && Ends(env, ops) && i <= n <= |ops| && Ends(env, ops[..i])
    requires Holds(env, ops[..i], cid, data)
    requires forall k :: i <= k < n ==> ops[k] != Delete(cid)
    ensures Ends(env, ops[..n]) && Holds(env, ops[..n], cid, data)
  {
    forall k | i <= k < n && HeldAt(env, ops, cid, data, k) ensures HeldAt(env, ops, cid, data, k + 1) {
      HoldsOneMore(env, ops, k, cid, data);
    }
    Persists((k: nat) => HeldAt(env, ops, cid, data, k), i, n);
  }

  /**
   * In every run a read answers the bytes first stored since the last deletion: if a step stores a blob that is not
   * there, on a disk that is not full, and no step in between deletes it, then reading it yields exactly those bytes,
   * whatever else the run does, other stores of the same CID included.
   */
  lemma FirstStoredStays(env: Env, ops: seq<Op>, i: nat, j: nat)
    requires GoodCodec(env) && Ends(env, ops) && i < j < |ops| && ops[i].Store? && ops[j].Get?
    requires ops[j].cid == ops[i].cid
    requires Ends(env, ops[..i]) && Storable(env, ops[..i], ops[i].cid)
    requires forall k :: i < k < j ==> ops[k] != Delete(ops[i].cid)
    ensures Run(env, ops).value.outs[j] == Data(ops[i].data)
  {
    StoredThenHeld(env, ops, i, j);
    HeldThenRead(env, ops, j, ops[i].data);
  }

  lemma StoredThenHeld(env: Env, ops: seq<Op>, i: nat, j: nat)
    requires GoodCodec(env) && Ends(env, ops) && i < j <= |ops| && ops[i].Store?
    requires Ends(env, ops[..i]) && Storable(env, ops[..i], ops[i].cid)
    requires forall k :: i < k < j ==> ops[k] != Delete(ops[i].cid)
    ensures Ends(env, ops[..j]) && Holds(env, ops[..j], ops[i].cid, ops[i].data)
  {
    StoreHolds(env, ops[..i], ops[i]);
    PrefixSnoc(ops, i);
    HoldsUntil(env, ops, i + 1, j, ops[i].cid, ops[i].data);
  }

  lemma HeldThenRead(env: Env, ops: seq<Op>, j: nat, data: Bytes)
    requires GoodCodec(env) && Ends(env, ops) && j < |ops| && ops[j].Get?
    requires Ends(env, ops[..j]) && Holds(env, ops[..j], ops[j].cid, data)
    ensures Run(env, ops).value.outs[j] == Data(data)
  {
    PrefixEnds(env, ops, j + 1);
    PrefixSnoc(ops, j);
    HoldsAnswers(env, ops[..j], ops[j], data);
  }

  // ---------------------------------------------------------------- the size of the cache

  lemma SameStep(a: Env, b: Env, s: State, t: State, op: Op)
    requires b == a.(cacheBytes := b.cacheBytes) && GoodCodec(a)
    requires Inv(a, s) && Inv(b, t) && OpEnds(a, s, op) && OpEnds(b, t, op) && s.blobs == t.blobs && s.meta == t.meta
    ensures var (s', out) := Step(a, s, op);
            var (t', out') := Step(b, t, op);
            s'.blobs == t'.blobs && s'.meta == t'.meta && out == out'
  {
    match op
    case Get(cid, now) => SameGet(a, b, s, t, cid, now);
    case Store(cid, data, mimeType, now) => SameStore(a, b, s, t, cid, data, mimeType, now);
    case Delete(cid) =>
    case Pin(cid) => SameChange(a, b, s.meta, cid, SetPinned(true));
    case Unpin(cid) => SameChange(a, b, s.meta, cid, SetPinned(false));
    case RecordReplicas(cid, replicatedTo) => SameChange(a, b, s.meta, cid, SetReplicas(replicatedTo));
  }

  lemma SameGet(a: Env, b: Env, s: State, t: State, cid: string, now: int)
    requires b == a.(cacheBytes := b.cacheBytes)
    requires Inv(a, s) && Inv(b, t) && GetEnds(a, s, cid) && GetEnds(b, t, cid)
    requires s.blobs == t.blobs && s.meta == t.meta
    ensures var (s', fetched) := GetBlob(a, s, cid, now);
            var (t', fetched') := GetBlob(b, t, cid, now);
            s'.blobs == t'.blobs && s'.meta == t'.meta && fetched == fetched'
  {
    GetRefines(a, s, cid, now);
    GetRefines(b, t, cid, now);
    SameContents(a, b, s.blobs, s.meta);
  }

  lemma SameContents(a: Env, b: Env, blobs: Files, meta: Records)
    requires b == a.(cacheBytes := b.cacheBytes) && GoodFiles(a, blobs, meta) && GoodFiles(b, blobs, meta)
    ensures ContentsOf(a, blobs, meta) == ContentsOf(b, blobs, meta)
  {
  }

  lemma SameStore(a: Env, b: Env, s: State, t: State, cid: string, data: Bytes, mimeType: string, now: int)
    requires b == a.(cacheBytes := b.cacheBytes) && s.blobs == t.blobs && s.meta == t.meta
    ensures var (s', error) := StoreBlob(a, s, cid, data, mimeType, now);
            var (t', error') := StoreBlob(b, t, cid, data, mimeType, now);
            s'.blobs == t'.blobs && s'.meta == t'.meta && error == error'
  {
    assert FreshMetadata(a, cid, data, mimeType, now) == FreshMetadata(b, cid, data, mimeType, now);
  }

  lemma SameChange(a: Env, b: Env, meta: Records, cid: string, update: Update)
    requires b == a.(cacheBytes := b.cacheBytes)
    ensures UpdateMetadata(a, meta, cid, update) == UpdateMetadata(b, meta, cid, update)
  {
  }

  /**
   * The size of the cache cannot be observed in any answer or file, but only in whether a read ends: of two runs that
   * both end, with caches of different size, neither the answers nor the files differ.
   */
  lemma {:induction false} CacheSizeUnobservable(a: Env, b: Env, ops: seq<Op>)
    requires b == a.(cacheBytes := b.cacheBytes) && GoodCodec(a) && GoodCodec(b) && Ends(a, ops) && Ends(b, ops)
    ensures var r, r' := Run(a, ops).value, Run(b, ops).value;
            r.state.blobs == r'.state.blobs && r.state.meta == r'.state.meta && r.outs == r'.outs && r.fulls == r'.fulls
  {
    if ops != [] {
      var front, op := ops[..|ops| - 1], ops[|ops| - 1];
      CacheSizeUnobservable(a, b, front);
      SameStep(a, b, Run(a, front).value.state, Run(b, front).value.state, op);
    }
  }

  lemma StoreAndReadMore(cids: seq<string>, cid: string)
    ensures StoreAndRead(cids + [cid]) ==
            StoreAndRead(cids) + [Store(cid, [0], "", |cids|)] + [Get(cid, |cids|)]
  {
    assert (cids + [cid])[..|cids|] == cids;
  }

  /** Whether a read ends does depend on the size: where one cache stalls, one of a byte more does not. */
  lemma CacheSizeDecidesEnd(env: Env, larger: Env, cids: seq<string>, cid: string)
    requires Roomy(env, |cids|) && |cids| == env.cacheBytes && NoDup(cids) && cids[0] == "" && cid !in cids
    requires Roomy(larger, |cids| + 1) && larger == env.(cacheBytes := env.cacheBytes + 1)
    ensures !Ends(env, StoreAndRead(cids + [cid])) && Ends(larger, StoreAndRead(cids + [cid]))
  {
    StoreAndReadMore(cids, cid);
    StoreRunStalls(env, cids, cid);
    FillsUp(larger, cids + [cid]);
  }
}
