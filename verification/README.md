# ByteCave storage node: a verified model

ByteCave nodes keep opaque blobs, spread them over other nodes, collect garbage and group blobs into feeds. Networking, the
disk and the chain are thin shells around a few algorithms that keep state. This project models those algorithms as one
storage node with its selection, voting and feed logic, and proves what they promise over all inputs, all runs and all ways
the outside may answer.

| file | what it models |
|---|---|
| `Sequences.dfy` | JavaScript list operations: filter, stable sort, duplicates, sums |
| `Framing.dfy` | the length-prefixed writer and the reader that reassembles chunks |
| `FeedChains.dfy`, `Feeds.dfy` | the unguarded chain walk, fork resolution, adding to, validating and paging feeds |
| `Paging.dfy`, `BlobIndex.dfy` | cursor paging; the five index structures and their queries |
| `Cache.dfy`, `Storage.dfy` | the least-recently-used cache; the blob store with compression and metadata integrity |
| `Sharding.dfy`, `Rendezvous.dfy`, `NodeSelection.dfy`, `Replication.dfy` | shards, rendezvous placement, replacement after failure, retries |
| `ReplicaVerification.dfy`, `Candidates.dfy`, `GarbageCollection.dfy`, `NodeRuns.dfy` | replica proofs, the choice of candidates, the collector, whole runs of a node |
| `Consensus.dfy` | replica voting and retries with a shrinking pool |
| `Authorization.dfy` | the nonce window and the timed CID cache |

Code that updates state is a class whose methods are proved equal to functions on a state value; the properties are lemmas
about those functions and about runs of them. Every public method is one atomic step. Whatever comes from outside is a
parameter and arbitrary: the clock, hashes, the keyed hash and signatures, gzip (decompression undoes compression), replies
and acceptance of remote nodes, proofs of replicas, free disk space, random choices, the order in which the file system lists
a directory, and the ranking `localeCompare` gives to strings.

Where the code and its comments disagree, the model follows the code:

- `buildChains` follows only the first child, so with forks the longest chain wins only among the chains it builds, and the
  listing order decides which those are. The loop has no guard; adding the root event again with one of its descendants as
  parent makes it run for ever.
- An event with the CID "metadata" is overwritten by the feed's own metadata file; as a root it makes the feed invalid. It
  takes a blob stored under that name. The HTTP store and replicate routes store blobs under their hashes only, but a pull
  stores them under whatever CID a peer answers with (src/services/replication.service.ts:409).
- Without pressure on the disk the collector's `size` mode proposes every blob, while `hybrid` proposes those past the age limit.
- `availableForDeletion` only decides whether anything is proposed; it does not limit how much.
- Pinned blobs are said to come last with priority -1000; a blob whose creation or last access is dated into the future, as
  after a clock was set back, can rank lower. They are kept because the safety check refuses them, not because of their rank.
- Nothing ever records replicas in the metadata of a stored blob, so with a replication factor of 2 or more the collector
  deletes nothing.
- `set` on a key that the cache already holds does not subtract the old size, and an entry under the empty key is never evicted.
- Once a blob under the empty CID has been read, later reads of other blobs may never return. A pull can store such a blob
  (src/services/replication.service.ts:409), and the next synchronisation reads every stored blob (line 330 of that file).
- `total` in a page is the number of entries behind the cursor, and an entry whose CID is empty sends a client back to the start.
- `minNodesPerShard` is always 0, overlapping ranges count a node twice, and expansions are cut off at the shard count.
- `trackReplication` replaces whatever was known about a blob, failed nodes included.
- A failed node that was not selected makes `selectReplacementNodes` ask for one node too many.
- A replica URL that is listed twice counts as two replicas, so the verdict of a verification can be wrong.

## Model

| member | source | states |
|---|---|---|
| `Framing.WriteMessage` | src/services/p2p-protocols.service.ts:672-686 | one chunk is sent: the big-endian 32-bit length, then the payload |
| `Framing.ReadMessage` | src/services/p2p-protocols.service.ts:617-667 | the nested loops, over any chunks, return what the byte stream decodes to and leave exactly the chunks not yet demanded |
| `Framing.ReadBody` | src/services/p2p-protocols.service.ts:634-660 | the body is the announced number of bytes, completed with zeros if the stream ends early |
| `Framing.Uint32RoundTrip` | src/services/p2p-protocols.service.ts:631-677 | the length prefix read back is the length modulo 2^32 |
| `Framing.RoundTrip` | src/services/p2p-protocols.service.ts:617-686 | for every way of cutting frame and trailing bytes into chunks, the payload comes back exactly when it is shorter than 2^32 bytes |
| `Framing.Truncated` | src/services/p2p-protocols.service.ts:617-663 | a stream ending inside the prefix yields null; one ending inside the body yields the payload padded with zeros |
| `Framing.NothingLostIffAligned` | src/services/p2p-protocols.service.ts:625-660 | the rest of the stream after a read is what follows the frame if and only if a chunk ended with the frame |
| `Framing.SecondFrameLost` | src/services/p2p-protocols.service.ts:625-660 | of two frames that arrive in one chunk the second is lost |
| `FeedChains.WalksMeetBackwards` | src/services/feed.service.ts:331-340 | walks that meet at an event have met all the way back, because each event has one parent |
| `FeedChains.LongWalkReturns` | src/services/feed.service.ts:331-340 | a walk of as many steps as there are events has come back to its start |
| `FeedChains.WalkEndsIff` | src/services/feed.service.ts:326-341 | the unguarded loop ends if and only if the walk does not come back to its root, then within as many steps as there are events; a parentless root always qualifies |
| `FeedChains.ChainComplete` | src/services/feed.service.ts:326-343 | a root off every cycle yields a complete chain of first children without repetition |
| `FeedChains.ChainsDisjoint` | src/services/feed.service.ts:319-346 | chains of different parentless roots share no event |
| `FeedChains.ChainLengthsBounded` | src/services/feed.service.ts:319-346 | the chains together are no longer than the list of events |
| `FeedChains.NoForkLongest` | src/services/feed.service.ts:319-346 | where no two events share a parent, every path from a root is a part of the chain built from it |
| `FeedChains.NoForkOrderIrrelevant` | src/services/feed.service.ts:319-346 | and that chain does not depend on the order in which the events are listed |
| `FeedChains.ForkFollowsFirstChild` | src/services/feed.service.ts:333-339 | with a fork the listing order decides: the longer of two branches is built, or lost to the one listed first |
| `FeedChains.WalkIsClimb` | src/services/feed.service.ts:331-340 | a walk down from a root is a climb through unique parents back to it |
| `FeedChains.LoopListedFirst` | src/services/feed.service.ts:331-340 | with the events of a parent loop listed first, the walk from any of them never ends |
| `FeedChains.BuildChains` | src/services/feed.service.ts:319-346 | the chains start at exactly the listed events that are parentless or carry the root CID, each once and in listing order; each goes from event to first listed child and ends at an event without children |
| `FeedChains.ChainsBuilt` | src/services/feed.service.ts:319-346 | the same of the chains as a function of events and root |
| `FeedChains.RankChains` | src/services/feed.service.ts:289-313 | no chain is longer than the winner, no longest one has an earlier root, no such one a lower root CID; winner and discarded chains are a permutation of all |
| `FeedChains.ResolveForks` | src/services/feed.service.ts:272-314 | all those chains are built, the winner is at least as long as the chain walked from any such start and first by the three rules, and the rest are the discarded ones |
| `Feeds.FeedService.Create` | src/services/feed.service.ts:54-77 | the feed then has fresh metadata without a root; its event files and every other feed are unchanged |
| `Feeds.FeedService.Add` | src/services/feed.service.ts:82-127 | accepted exactly if signed, the feed exists, its author may write and the blob is there, with the refusals in their order; then event and metadata are written and a first parentless event becomes the root |
| `Feeds.FeedService.LoadAllEvents` | src/services/feed.service.ts:394-416 | every event file once, in any order |
| `Feeds.FeedService.Validate` | src/services/feed.service.ts:200-262 | valid means no errors; errors and warnings are those of each event and of the root |
| `Feeds.ErrorsMean` | src/services/feed.service.ts:200-262 | an error is reported exactly for an unsigned event or an unauthorized author |
| `Feeds.WarningsMean` | src/services/feed.service.ts:200-262 | a warning exactly for an event whose blob or whose named parent is missing |
| `Feeds.FeedService.GetFeedEvents` | src/services/feed.service.ts:150-185 | the page of the events in timestamp order behind the cursor |
| `Feeds.RunKeepsInv` | src/services/feed.service.ts:82-127 | every run of adds leaves signed events of authorized writers under their own names and an existing root file |
| `Feeds.RootNeverChanges` | src/services/feed.service.ts:110-113 | the root, once set, and the writers stay over every run |
| `Feeds.FeedRunsStayValid` | src/services/feed.service.ts:54-262 | after one creation every run of adds, overwrites included, validates without errors if and only if the first accepted parentless event does not have the CID "metadata" |
| `Feeds.RootIsFirst` | src/services/feed.service.ts:108-120 | the root is the first accepted event without a parent |
| `Feeds.AddedIsStored` | src/services/feed.service.ts:82-127 | over every run the file of a CID holds the event last accepted under it |
| `Feeds.StoredWasAdded` | src/services/feed.service.ts:82-127 | and there is no other event file |
| `Feeds.MetadataCountsAdds` | src/services/feed.service.ts:54-127 | the metadata count the accepted adds and carry the time of the last one |
| `Feeds.MetadataRootInvalid` | src/services/feed.service.ts:82-255 | a one-step run whose root file is lost and whose validation reports it |
| `Feeds.WalksEndIff` | src/services/feed.service.ts:272-346 | the chain walks end in every listing order if and only if the stored root event is not its own ancestor through parent links |
| `Feeds.RunsTerminateIff` | src/services/feed.service.ts:82-346 | the same for the feed that any run of adds leaves |
| `Feeds.ListingDistinct` | src/services/feed.service.ts:383-416 | events loaded from files named by their CIDs have distinct CIDs, which the chain walk relies on |
| `Feeds.ListingMembers` | src/services/feed.service.ts:383-416 | with files named by their CIDs a listing holds each stored event exactly once |
| `Feeds.FreshRunsTerminate` | src/services/feed.service.ts:82-346 | in runs that overwrite no event the chain walk from every root ends, in every listing order |
| `Feeds.ReaddedRootLoops` | src/services/feed.service.ts:82-346 | three events, each with its own valid signature, after which the walk from the root never ends |
| `Feeds.FeedPagesComplete` | src/services/feed.service.ts:150-185 | following the cursors yields all events once in time order and ends, if and only if no page ends with an empty CID |
| `Feeds.EmptyCidNeverEnds` | src/services/feed.service.ts:82-185 | a feed of two events, the older one under the empty CID, whose pages of one never reach the end |
| `Paging.FeedPageIsPage` | src/services/feed.service.ts:165-177 | paging by start index gives the same pages as paging by a shortened list |
| `Paging.NegativeLimit` | src/services/index.service.ts:112-126 | a negative limit cuts entries off the end and always claims that there is more |
| `Paging.PageIsSlice` | src/services/index.service.ts:112-126 | a page is the next `limit` entries behind the cursor, and names its last one exactly if there are more |
| `Paging.CutPage` | src/services/index.service.ts:112-126 | the cursor cut and the limit cut of an index query |
| `Paging.CutFeedPage` | src/services/feed.service.ts:165-177 | the start index and the cut of a feed page |
| `Paging.PagingCompleteIff` | src/services/index.service.ts:98-300 | following cursors from the first page yields the whole list in order and ends if and only if no page ends with an empty CID; otherwise it never ends |
| `Paging.NamedBoundaries` | src/services/index.service.ts:98-300 | non-empty CIDs suffice for every page size |
| `BlobIndex.IndexService.Index` | src/services/index.service.ts:43-91 | pushes to the five structures unless the CID is known |
| `BlobIndex.IndexService.Remove` | src/services/index.service.ts:314-357 | splices the entry out of each list it is filed in |
| `BlobIndex.IndexService.Query` | src/services/index.service.ts:98-300 | a page of the wanted entries of the global list in the query's time order, beginning behind the cursor |
| `BlobIndex.IndexKeeps` | src/services/index.service.ts:43-91 | indexing keeps every list equal, in order, to the filter of the global list |
| `BlobIndex.RemoveKeeps` | src/services/index.service.ts:314-357 | so does removing, which takes exactly that CID out of the global list |
| `BlobIndex.RunRefines` | src/services/index.service.ts:43-393 | in every reachable state the five structures are the filters of one plain log |
| `BlobIndex.RemoveUndoesIndex` | src/services/index.service.ts:43-357 | removing a freshly indexed blob restores the contents of every list |
| `BlobIndex.ThreadCountRestoredIff` | src/services/index.service.ts:73-77 | the number of threads is restored only if the thread was known before |
| `BlobIndex.SourceIsFilter` | src/services/index.service.ts:98-300 | the list a query starts from is a filter of the global list |
| `BlobIndex.AnswerSound` | src/services/index.service.ts:98-300 | a query's answer holds exactly the wanted entries, newest first (comments oldest first), no CID twice |
| `BlobIndex.QueriesComplete` | src/services/index.service.ts:98-300 | in every reachable state the pages of any query add up to exactly the wanted entries of the log |
| `BlobIndex.EmptyCidNeverEnds` | src/services/index.service.ts:43-126 | an index of two entries, the newer one under the empty CID, whose pages of one never reach the end |
| `BlobIndex.DeltaSound` | src/services/index.service.ts:172-191 | a thread delta holds exactly the thread's entries newer than the time given, oldest first |
| `BlobIndex.DeltaCompleteIff` | src/services/index.service.ts:172-191 | a thread delta misses nothing if and only if every later entry carries a later timestamp |
| `BlobIndex.LateArrivalMissed` | src/services/index.service.ts:172-191 | an older entry indexed after the client asked is in no later delta |
| `Cache.CacheService.Get` | src/services/cache.service.ts:31-45 | returns the bytes held and renews the entry's time, or counts a miss |
| `Cache.CacheService.Store` | src/services/cache.service.ts:50-80 | refuses large items, evicts until the item fits, then files it; asks no more than that the eviction loop ends |
| `Cache.CacheService.Delete` | src/services/cache.service.ts:85-91 | removes the entry and its recorded size |
| `Cache.CacheService.EvictLRU` | src/services/cache.service.ts:107-125 | removes the entry with the least timestamp, if its key is not empty |
| `Cache.EvictionStallsIff` | src/services/cache.service.ts:107-125 | an eviction changes nothing exactly when the cache is empty or the oldest key is the empty string |
| `Cache.EmptyKeyStalls` | src/services/cache.service.ts:65-67 | then no number of evictions helps: the loop would not end |
| `Cache.EvictionLoopEndsIff` | src/services/cache.service.ts:65-125 | in any state the eviction loop ends if and only if no entry is under the empty key, or those evicted before it becomes the oldest make room enough |
| `Cache.NamedRunsEnd` | src/services/cache.service.ts:31-125 | without the empty key every loop of every run ends |
| `Cache.EmptyKeyRunStalls` | src/services/cache.service.ts:50-125 | sets of one byte under the empty key, one more than the cache has bytes, reach a loop that never ends |
| `Cache.EvictsNoMoreThanNeeded` | src/services/cache.service.ts:65-67 | the loop stops at the first state in which the item fits |
| `Cache.EvictsLeastRecent` | src/services/cache.service.ts:65-125 | every survivor is at least as recent as every victim, and unchanged |
| `Cache.SetKeeps` | src/services/cache.service.ts:50-80 | the bytes held stay within the limit; the counter drifts by exactly the bytes overwritten |
| `Cache.CacheBounded` | src/services/cache.service.ts:31-125 | in every reachable state, also of runs with the empty key, the bytes held stay within the limit and the counter exceeds them by what sets have overwritten since the last clear |
| `Cache.EntriesTell` | src/services/cache.service.ts:31-125 | in every run an entry holds the bytes last set under its key, the time of its last use and the number of its uses |
| `Cache.StepEntries` | src/services/cache.service.ts:31-125 | what each step does to an entry: a hit renews it, a set of at most a tenth of the cache replaces it, larger ones change nothing, and only such a set of another key can evict it |
| `Cache.StepCounts` | src/services/cache.service.ts:31-102 | lookups count as hits or misses until the next clear |
| `Storage.StorageService.GetStats` | src/services/storage.service.ts:471-509 | the sizes of all files, and of the files of pinned blobs |
| `Storage.PinnedSizeMeans` | src/services/storage.service.ts:471-509 | the pinned part counts the blobs whose record is intact and pinned |
| `Storage.StorageService.Store` | src/services/storage.service.ts:125-223 | refuses on a full disk, keeps an existing blob, otherwise writes the smaller of raw and compressed bytes with sealed metadata |
| `Storage.StorageService.Get` | src/services/storage.service.ts:228-284 | answers from the cache or the file, decompressed, with each error exactly in its case, and records the access; asks no more than that the cache's eviction loop ends |
| `Storage.StorageService.Delete` | src/services/storage.service.ts:304-328 | removes both files and the cache entry |
| `Storage.StorageService.Change` | src/services/storage.service.ts:369-394 | an intact record gets exactly the named update, with a new seal where a sealed field changes; a missing record or a wrong seal is refused; nothing else changes |
| `Storage.StorageService.SetPin` | src/services/storage.service.ts:432-456 | without an error the record is pinned exactly if the argument says so, and nothing but that and its seal changes anywhere |
| `Storage.StoreRefines` | src/services/storage.service.ts:125-223 | storing acts as on a plain map whose bytes are never overwritten |
| `Storage.GetRefines` | src/services/storage.service.ts:228-284 | a read that ends returns the plain map's bytes from cache or disk and changes no content; it asks no more than that the cache's eviction loop ends |
| `Storage.ReadIsUse` | src/services/storage.service.ts:228-284 | a hit is renewed in the cache; what comes from the disk is filed there if it is at most a tenth of it |
| `Storage.DeleteRefines` | src/services/storage.service.ts:304-328 | deleting removes the blob from the plain map and from the cache |
| `Storage.ChangeRefines` | src/services/storage.service.ts:369-456 | a metadata update keeps content and integrity |
| `Storage.RunRefinesPlainMap` | src/services/storage.service.ts:125-456 | every run, of any reads and stores, answers exactly as a plain map does as long as its reads end, compressed or not, and every record passes its integrity check |
| `Storage.NamedRunsEnd` | src/services/storage.service.ts:125-456 | every run that reads only non-empty CIDs ends, whatever CIDs it stores under |
| `Storage.StoreRunStalls` | src/services/storage.service.ts:228-284 | a run that does not: the blob under the empty CID is read first, then one-byte blobs until the cache is full; the read of one more, under a CID of its own, never ends |
| `Storage.FirstStoredStays` | src/services/storage.service.ts:125-284 | in every run whose reads end a read answers the bytes stored by the step that found the blob absent, if no step in between deleted it |
| `Storage.RecordsTell` | src/services/storage.service.ts:125-456 | in every run the record of a stored blob tells its history: when and as what it was stored, the last pin or unpin, the number and the last time of its reads, the replicas last recorded, a valid seal, and a file that is the smaller of raw and compressed bytes |
| `Storage.PinnedIffLastPin` | src/services/storage.service.ts:432-456 | a stored blob is pinned if and only if it was pinned after it was stored and not unpinned since |
| `Storage.LastAccessIsLastRead` | src/services/storage.service.ts:228-284 | its last access is the last read since, or the store itself |
| `Storage.PresentWasStored` | src/services/storage.service.ts:125-328 | whatever is there was stored by some step and not deleted since |
| `Storage.CacheSizeUnobservable` | src/services/storage.service.ts:228-284 | runs that end, with caches of different size, give the same answers and the same files |
| `Storage.CacheSizeDecidesEnd` | src/services/storage.service.ts:228-284 | whether a run ends does depend on the size: the run that stalls goes on with one byte more |
| `Sharding.ShardKeyIsNumber` | src/utils/sharding.ts:23-36 | the shard of a hexadecimal CID is the number its first twelve digits denote, modulo the shard count |
| `Sharding.ShardKeyLocal` | src/utils/sharding.ts:23-36 | a CID's shard depends on its first twelve hexadecimal digits only |
| `Sharding.ShardKeyMeans` | src/utils/sharding.ts:23-36 | for any CID: the number its leading pairs of hexadecimal digits denote, at most six, or the hash of its text if there are none |
| `Sharding.HexDigits` | src/utils/sharding.ts:23-36 | the sixteen digits in either case, and nothing else, count as hexadecimal |
| `Sharding.ExpandShardRanges` | src/utils/sharding.ts:129-153 | the ranges listed one after the other, cut off at the limit; an explicit list as it is |
| `Sharding.AddOccurrences` | src/utils/sharding.ts:216-224 | each cell grows by the number of times its shard is listed |
| `Sharding.CalculateShardDistribution` | src/utils/sharding.ts:202-241 | covered, uncovered, average and greatest counts of the coverage array; the least is always 0 |
| `Sharding.NeverTruncated` | src/utils/sharding.ts:129-153 | disjoint ranges inside the shard space are never cut off |
| `Sharding.CoverageIsEligibility` | src/utils/sharding.ts:96-224 | with tidy nodes each cell of the array is the number of nodes eligible for its shard |
| `Sharding.CountedOnceIff` | src/utils/sharding.ts:129-224 | a node is counted once for exactly its shards if and only if its expansion lists no shard of the array twice and the cut hides none |
| `Sharding.CoverageBalance` | src/utils/sharding.ts:96-224 | for any nodes a cell is the number of eligible nodes, plus repeated listings, less the nodes that hide the shard behind the cut |
| `Sharding.CoverageIsEligibilityIff` | src/utils/sharding.ts:96-224 | so it is the number of eligible nodes if and only if these two are equal |
| `Sharding.CoveredShardsExact` | src/utils/sharding.ts:202-227 | `coveredShards` counts exactly the shards some node is responsible for, as long as nothing is cut off |
| `Sharding.CoveredShardsExactIff` | src/utils/sharding.ts:202-227 | for any nodes `coveredShards` is exact if and only if every shard some node is responsible for is listed by some node before the cut |
| `Sharding.OverlapCountsTwice` | src/utils/sharding.ts:129-224 | an input for which a cell is too high: overlapping ranges count one node twice |
| `Sharding.LongExpansionHidesShard` | src/utils/sharding.ts:129-224 | an input for which a cell is too low: a cut-off expansion hides a shard its node is responsible for |
| `NodeSelection.SelectNodesForReplication` | src/utils/node-selection.ts:28-66 | the eligible nodes sorted by hash and cut at the factor; the others with their reasons |
| `NodeSelection.SelectNodesForReplicationWithShards` | src/utils/node-selection.ts:201-254 | the same among the nodes that cover the CID's shard |
| `NodeSelection.SelectionIsRank` | src/utils/node-selection.ts:28-101 | a node is selected exactly when it is eligible and fewer than `factor` eligible nodes have a smaller hash |
| `NodeSelection.SelectedIff` | src/utils/node-selection.ts:28-101 | a node is selected exactly if it is listed, has not failed, has no score below 200, and fewer than factor such nodes have a smaller hash |
| `NodeSelection.SelectedInOrder` | src/utils/node-selection.ts:28-101 | the selected nodes stand in the order of their hashes |
| `NodeSelection.ExclusionsMean` | src/utils/node-selection.ts:28-66 | exactly the nodes left out are reported, in order, each with its first reason |
| `NodeSelection.OrderDoesNotMatter` | src/utils/node-selection.ts:80-101 | the selection does not depend on the order of the node list |
| `NodeSelection.DroppingUnselected` | src/utils/node-selection.ts:80-101 | dropping a node that was not selected changes nothing |
| `NodeSelection.AddingOne` | src/utils/node-selection.ts:80-101 | adding a node changes the selection by at most its arrival and one departure |
| `NodeSelection.ReplacementIsReselectionIff` | src/utils/node-selection.ts:123-145 | for any list of failed ids, survivors and replacements are what a fresh selection without them picks if and only if the ids are distinct selected ones or no more eligible nodes are left than are missing |
| `NodeSelection.ReplacementIsReselection` | src/utils/node-selection.ts:123-145 | so for failed nodes of the selection itself, also when fewer nodes than the factor are eligible |
| `NodeSelection.ForeignFailureOverReplicates` | src/utils/node-selection.ts:130-136 | told of a failed node outside the selection, a replacement is added although nothing was lost |
| `Rendezvous.ReplaceIsReselect` | src/utils/node-selection.ts:80-145 | the law of replacement for the smallest hashes of any finite set |
| `Rendezvous.KeepAndFill` | src/utils/node-selection.ts:80-145 | the selection among some elements keeps what it can of the selection among all and fills up with the top of the rest |
| `Rendezvous.FillIff` | src/utils/node-selection.ts:80-145 | filling up with another number of elements gives the same if and only if it is the number missing or nothing more is left |
| `Rendezvous.AddOne` | src/utils/node-selection.ts:80-101 | one new element displaces at most one of the smallest |
| `Rendezvous.SortedTop` | src/utils/node-selection.ts:91-101 | the first elements of the sorted list are the set of those with fewer smaller ones |
| `Replication.ReplicationManager.StartReplication` | src/services/replication-manager.service.ts:63-108 | a complete state is left alone, otherwise a round is made without the failed nodes |
| `Replication.ReplicationManager.ReplicateToNodes` | src/services/replication-manager.service.ts:113-175 | each answer is recorded as confirmed or failed, and completeness is decided |
| `Replication.ReplicationManager.TrackReplication` | src/services/replication-manager.service.ts:387-408 | replaces whatever was known |
| `Replication.RoundRecords` | src/services/replication-manager.service.ts:113-175 | with distinct ids a round records every node it asked exactly once, by its answer |
| `Replication.RecordedOnce` | src/services/replication-manager.service.ts:113-175 | also with repeated ids nobody is recorded twice, and exactly by acceptance or refusal |
| `Replication.StatusTellsAnswers` | src/services/replication-manager.service.ts:113-269 | after a round the status lists every node asked by its answer and counts the acceptances |
| `Replication.TrackedIsReported` | src/services/replication-manager.service.ts:387-408 | a tracked replication is reported with every peer confirmed |
| `Replication.RoundIsGood` | src/services/replication-manager.service.ts:63-175 | after a round confirmed and failed are disjoint, confirmed nodes are targets and at most the factor, no target is pending, and complete means enough confirmed |
| `Replication.RunKeepsGood` | src/services/replication-manager.service.ts:63-408 | so in every state of every run of rounds and tracked replications |
| `Replication.IncompleteRoundProgress` | src/services/replication-manager.service.ts:63-175 | an incomplete round over enough good nodes fails a node that had not failed before, and no good one |
| `Replication.RetryProgress` | src/services/replication-manager.service.ts:63-175 | as long as it is incomplete, each round has failed a node of its own |
| `Replication.RetriesComplete` | src/services/replication-manager.service.ts:63-175 | with `factor` nodes that always accept, replication completes within the number of the other candidates plus one rounds, whatever those answer |
| `Replication.RetriesConverge` | src/services/replication-manager.service.ts:63-175 | with steady answers it completes if and only if enough candidates are willing, and then confirms exactly the ideal placement among the willing |
| `ReplicaVerification.CheckReplica` | src/utils/replication-verification.ts:95-151 | a proof counts only from an online node and only if valid; each problem is reported exactly in its case |
| `ReplicaVerification.VerifyReplication` | src/utils/replication-verification.ts:40-90 | the loop counts online nodes and valid proofs, each occurrence once, and compares with what is required |
| `ReplicaVerification.VerdictCountsActive` | src/utils/replication-verification.ts:40-265 | active and failed replicas split the list, `validProofs` is the number of active ones, and with proofs sufficient means enough active ones |
| `ReplicaVerification.CountsDistinctIff` | src/utils/replication-verification.ts:62-74 | the count is the number of distinct good nodes exactly when no good node is listed twice |
| `ReplicaVerification.RepeatedUrlPasses` | src/utils/replication-verification.ts:62-78 | one good node listed twice passes for two |
| `ReplicaVerification.VerdictRightIff` | src/utils/replication-verification.ts:40-90 | for a list of URLs and a requirement, the verdict is right whatever the nodes answer if and only if no URL is repeated, or at most one replica is required, or more than are listed |
| `Candidates.RateBlobs` | src/services/gc.service.ts:184-216 | rates every blob by its age, the time since its noted last access or else since its creation, and its size, with the factors ten, five and one, pinned ones at -1000; a record that cannot be read aborts it |
| `Candidates.RatingAbortsIff` | src/services/gc.service.ts:188-190 | the rating is aborted exactly if some listed CID has no record or one that fails its integrity check |
| `Candidates.CandidateRated` | src/services/gc.service.ts:190-214 | the rating of a record as explicit numbers |
| `Candidates.ReadIsNoticed` | src/services/gc.service.ts:190-214 | after any run the rating counts from the last read since the blob was stored |
| `Candidates.ReadLaterGoesLater` | src/services/gc.service.ts:190-297 | of two unpinned blobs of equal size and creation time the one read later is never proposed without, or before, the other |
| `Candidates.OutrankedGoesLater` | src/services/gc.service.ts:218-297 | in every mode, of two unpinned candidates of the same age the lower ranked is never proposed without, or before, the other |
| `Candidates.PinnedLastIff` | src/services/gc.service.ts:184-297 | after the sort every pinned blob stands behind every other one if and only if no other one is dated further into the future than a thousand and its mebibytes allow, by ten times the days of its creation and five times those of its last access, or just as far but listed behind a pinned one |
| `Candidates.SetBackClockRanksLast` | src/services/gc.service.ts:197-297 | with records as the store writes them and a clock set back a hundred days, the blob stored last is sorted behind the pinned one |
| `Candidates.SelectEnough` | src/services/gc.service.ts:266-284 | the greedy loop: pinned ones always, others while less than the excess is gathered |
| `Candidates.ChooseCandidates` | src/services/gc.service.ts:218-297 | the branches of the three modes, the pressure test, the reservation gate and the final sort |
| `Candidates.GreedyReclaim` | src/services/gc.service.ts:224-297 | under pressure the unpinned choice is the shortest prefix of the priority order that reaches the excess, overshoots by less than its last size, is outranked by none left out, and all pinned ones are kept |
| `Candidates.NothingWithinReservation` | src/services/gc.service.ts:252-260 | if the reservation leaves nothing, nothing is proposed |
| `Candidates.ReservationOverrun` | src/services/gc.service.ts:252-284 | what is chosen exceeds what the reservation leaves by less than the last size and what the limits ask beyond it |
| `Candidates.ChosenWithoutPressure` | src/services/gc.service.ts:218-297 | without pressure `time` and `hybrid` propose the blobs past the age limit, `size` proposes all |
| `Candidates.ReservationDoesNotCap` | src/services/gc.service.ts:252-260 | one byte above the reservation everything stored may be proposed |
| `Candidates.EveryBlobIsRated` | src/services/gc.service.ts:184-216 | each stored blob is rated exactly once, in whatever order the directory is listed |
| `Candidates.ListsEachOnce` | src/services/storage.service.ts:399-426 | the listing names each stored blob once |
| `Candidates.ListingMeans` | src/services/storage.service.ts:399-426 | the listing holds exactly the intact records among the files, newest first |
| `GarbageCollection.GarbageCollectionService.RunGC` | src/services/gc.service.ts:92-179 | refused while running; otherwise the collection of the current state; an error aborts it, and totals are updated by real runs that finish |
| `GarbageCollection.GarbageCollectionService.CanSafelyDelete` | src/services/gc.service.ts:303-331 | the safety checks in their order; a record that cannot be read throws |
| `GarbageCollection.GarbageCollectionService.CheckReplicationFactor` | src/services/gc.service.ts:338-390 | enough recorded replicas and, if any is recorded, enough valid proofs |
| `GarbageCollection.GarbageCollectionService.GetDeletionCandidates` | src/services/gc.service.ts:184-298 | the choice among the rated blobs at the current disk usage, or the error of the first record that cannot be read |
| `GarbageCollection.GarbageCollectionService.DeleteSingleBlob` | src/services/gc.service.ts:502-559 | deletes what the checks allow, ignoring only the replicas if told to |
| `GarbageCollection.AllowedIff` | src/services/gc.service.ts:303-390 | a blob may go exactly when it is intact, unpinned, in this node's shards, has enough recorded replicas and, if any is recorded, enough active ones |
| `GarbageCollection.VerdictMeans` | src/services/gc.service.ts:303-331 | each other verdict is given by the first check that fails |
| `GarbageCollection.SweepAborted` | src/services/gc.service.ts:123-157 | nothing is done after the first error |
| `NodeRuns.SweepFaithful` | src/services/gc.service.ts:123-157 | deleting on the way changes no later verdict: a real run counts what a simulated one counts and removes exactly what it names |
| `NodeRuns.SweepDeletes` | src/services/gc.service.ts:123-157 | the deleted blobs are exactly the permitted candidates, each once |
| `NodeRuns.SweepCounts` | src/services/gc.service.ts:104-157 | every candidate is counted once, as deleted with its size or under the reason that holds it back |
| `NodeRuns.SkipsCounted` | src/services/gc.service.ts:123-157 | each skip counter is the number of candidates held back by that reason first: pins, then shards, then replicas |
| `NodeRuns.DryRunIsFaithful` | src/services/gc.service.ts:92-179 | a dry run changes nothing and returns what the real run returns; the real run lowers the stored bytes by `freedBytes` exactly when no deleted blob is compressed |
| `NodeRuns.RemovedIff` | src/services/gc.service.ts:92-390 | a collection removes a blob exactly when it was proposed and every safety check holds |
| `NodeRuns.RemovedWithoutPressure` | src/services/gc.service.ts:92-390 | without pressure `size` mode removes every permitted blob, the others those past the age limit |
| `NodeRuns.SingleDeletionIff` | src/services/gc.service.ts:502-559 | a single deletion, forced or not, respects pins and shards, and names the first of pin, shard and replicas that holds it back |
| `NodeRuns.NodeStepKeeps` | src/services/gc.service.ts:92-559 | every step of a node, any read that ends included, keeps files, metadata and cache consistent |
| `NodeRuns.NamedNodeRunsEnd` | src/services/gc.service.ts:92-559 | every run of a node that reads only non-empty CIDs ends |
| `NodeRuns.PinnedStays` | src/services/gc.service.ts:303-559 | over every run, as long as its reads end, a pinned blob stays stored, pinned and unchanged until it is unpinned or the store itself is told to delete it |
| `NodeRuns.UnpinnedIsCollectable` | src/services/gc.service.ts:303-559 | once unpinned, a blob is removed by a collection exactly if it is proposed, belongs here and is replicated enough |
| `NodeRuns.PermittedWithoutReplicas` | src/services/gc.service.ts:338-390 | with no replica recorded a blob may go exactly when the factor is at most 1 and it is unpinned and in shard |
| `NodeRuns.CollectorIsInert` | src/services/storage.service.ts:183-210 | blobs start with no recorded replica, so with a factor of 2 or more no collection in any run deletes anything unless replicas were recorded |
| `Consensus.ConsensusService.LogAudit` | src/services/consensus.service.ts:269-276 | appends, and drops the oldest entry beyond 10000 |
| `Consensus.ConsensusService.RecordDispute` | src/services/consensus.service.ts:214-244 | files the voters of each hash under the CID and logs them |
| `Consensus.ConsensusService.PerformConsensus` | src/services/consensus.service.ts:116-209 | the vote on the results as `Consensus.VoteAccepts` spells it out, its dispute and its log entry |
| `Consensus.ConsensusService.FetchWithConsensus` | src/services/consensus.service.ts:35-111 | every node is asked, silence and failures are recorded, and the results are voted on as `Consensus.FetchAgrees` spells it out |
| `Consensus.ConsensusService.FetchWithAntiCensorship` | src/services/consensus.service.ts:283-333 | a trace of rounds, each over the pool the round before left and all failed but possibly the last, whose vote is returned; only success ends it early, and exactly its records are left behind |
| `Consensus.AuditKeepsLast` | src/services/consensus.service.ts:269-276 | however much is logged, exactly the last 10000 entries are kept |
| `Consensus.CountSound` | src/services/consensus.service.ts:148-165 | each tally lists exactly the voters for its hash, no hash has two, and each vote is in one |
| `Consensus.VotePartition` | src/services/consensus.service.ts:116-209 | the asked nodes split exactly into matching, disputed and censoring ones, and the matching count is the greatest frequency of any hash |
| `Consensus.VoteAccepts` | src/services/consensus.service.ts:148-208 | the accepted hash is one that no other exceeds in votes and among those the first to appear; the ciphertext is that of the first vote for it; consensus means two matches or more than half |
| `Consensus.FetchAgrees` | src/services/consensus.service.ts:35-209 | in terms of the replies alone: the ciphertext is what some asked node replied and its hash is the accepted one; matching, disputed and censoring nodes are those whose bytes have that hash, another hash, or who did not answer |
| `Consensus.ReturnedAgrees` | src/services/consensus.service.ts:283-333 | what a call with retries returns is what its last round agreed on, with bytes that one of the nodes it was given replied with |
| `Consensus.DisputeMeans` | src/services/consensus.service.ts:214-244 | a dispute files for each hash voted for exactly its voters, in order |
| `Consensus.DisputeIff` | src/services/consensus.service.ts:183-194 | there is a dispute exactly if two votes differ |
| `Consensus.AuditMeans` | src/services/consensus.service.ts:120-240 | the log gets a failure with the number of attempts if nobody voted, and for a dispute the number of hashes and every voter |
| `Consensus.EventsMean` | src/services/consensus.service.ts:50-103 | exactly the nodes that did not answer are suspected, of refusing if they returned nothing and of a timeout if they failed |
| `Consensus.FailureMeansDisagreement` | src/services/consensus.service.ts:177-178 | a vote fails exactly when no two nodes agree and no single node was asked that answered |
| `Consensus.FailedRoundShrinks` | src/services/consensus.service.ts:291-318 | a failed round leaves at most one asked node in the pool, and a pool that is not empty becomes smaller |
| `Consensus.PoolsShrink` | src/services/consensus.service.ts:291-318 | after k failed rounds at most the initial number of nodes less k are left |
| `Consensus.BlamedNeverAskedAgain` | src/services/consensus.service.ts:305-308 | a disputed or censoring node is in no later pool and is never asked again |
| `Consensus.EnoughRetries` | src/services/consensus.service.ts:283-333 | with more retries than nodes, a call without consensus ends by asking nobody |
| `Authorization.StorageAuthorizationService.VerifyAuthorization` | src/services/storage-authorization.service.ts:207-360 | accepts exactly an initialized service's requests that are in order in every respect and whose nonce key is unused; the refusal is that of the first condition that fails, in the order of the code; success records the nonce |
| `Authorization.NonceKeyIff` | src/services/storage-authorization.service.ts:330-331 | for senders without a colon, as addresses are, two requests share a nonce key exactly if the same sender uses the same nonce |
| `Authorization.StorageAuthorizationService.CleanupExpiredNonces` | src/services/storage-authorization.service.ts:662-676 | keeps exactly the nonces recorded no longer than the expiry ago |
| `Authorization.StorageAuthorizationService.VerifyCidOnChain` | src/services/storage-authorization.service.ts:106-183 | a fresh entry answers as recorded; otherwise authorized means that one of the configured contracts knows the CID, and the answer is recorded |
| `Authorization.StorageAuthorizationService.CleanupExpiredCidCache` | src/services/storage-authorization.service.ts:188-202 | keeps exactly the entries that are not expired |
| `Authorization.NonceStays` | src/services/storage-authorization.service.ts:304-354 | a recorded nonce stays as long as no cleanup comes too late |
| `Authorization.AcceptedIff` | src/services/storage-authorization.service.ts:207-360 | in every run a request is accepted if and only if registry, app, timestamp, hash, signature and chain are in order and the same sender has not used the same nonce in an acceptance still remembered; other senders' nonces do not matter |
| `Authorization.RecordedRemembered` | src/services/storage-authorization.service.ts:330-354 | every nonce that is held is that of an accepted request which no cleanup came late enough to forget |
| `Authorization.SingleUse` | src/services/storage-authorization.service.ts:304-354 | in every run with a non-decreasing clock a request is accepted at most once, if nonces outlive twice the tolerance |
| `Authorization.ShortMemoryReplays` | src/services/storage-authorization.service.ts:662-676 | with a shorter expiry a run accepts one request twice |
| `Authorization.SingleUseIff` | src/services/storage-authorization.service.ts:61-65 | single use holds over all runs if and only if the expiry is at least twice the tolerance |
| `Authorization.ServiceAcceptsOnce` | src/services/storage-authorization.service.ts:61-65 | the service's ten minutes against plus or minus five meet the bound exactly |
| `Authorization.CachedAnswered` | src/services/storage-authorization.service.ts:106-202 | every cached entry carries the answer, the source and the time of the last lookup that asked the chain |
| `Authorization.LookupAnswers` | src/services/storage-authorization.service.ts:106-202 | after any run a lookup answers what the chain said when last asked about the CID, if that was less than the expiry ago and is not pruned, otherwise what it says now |
| `Authorization.StalenessBounded` | src/services/storage-authorization.service.ts:106-183 | an answer is the contracts' current one or was theirs less than the expiry ago |
| `Authorization.SourceNamed` | src/services/storage-authorization.service.ts:125-163 | the contract for messages is named if it knows the CID, otherwise that for posts, otherwise none |

## Left out

- Cache.CacheService.Store: requires that its eviction loop ends, since a method here must end; `Cache.EvictionLoopEndsIff` says exactly when it does and `Cache.EmptyKeyRunStalls` reaches a state where it does not.
- Storage.StorageService.Get: requires the same of the cache's loop.
- Storage.GetRefines: speaks of reads that end; `Storage.StoreRunStalls` reaches one that does not.
- Storage.CacheSizeUnobservable: compares runs that both end; `Storage.CacheSizeDecidesEnd` shows two of which one does not.
- FeedChains.BuildChains: requires that no root lies on a cycle, because the loop of the source does not end otherwise; `Feeds.WalksEndIff` says exactly when that can happen and `Feeds.ReaddedRootLoops` shows a run that gets there.
- FeedChains.ResolveForks: requires the same.
- Feeds.FeedService.LoadAllEvents: requires that every file but the metadata file holds an event; files with other content are not modelled.
- Feeds.FeedService.Validate: requires the same.
- Feeds.FeedService.GetFeedEvents: requires the same.
- Framing.NothingLostIffAligned: speaks of the chunks still queued when the reader is done; whether leaving the loop early also closes the stream is the library's affair.
- Candidates.ListsEachOnce: describes states whose records are intact and filed under their own CIDs, as every run of the store leaves them.
- NodeRuns.DryRunIsFaithful: describes such states too; a deletion that fails half-way is an I/O failure.
- NodeSelection.ReplacementIsReselectionIff: assumes a node list without repetition and distinct hashes for its node ids, as rendezvous hashing does.
- Authorization.AcceptedIff: assumes senders without a colon, as addresses are; with others the nonce keys of two senders could coincide.
- Authorization.SingleUse: is about a request as it is spelled; the signed text and the recovery of an address from a signature are one answer from outside.
- Consensus.FailedRoundShrinks: assumes a list of nodes without repetition, as the original states its pool.
- Negative or fractional settings: replication factor, limits and sizes are natural numbers (the collector's factor may also be 0).
- Megabytes as floating point: sizes are bytes, and priorities and ages are exact rationals.
- I/O failures, and interleavings of two methods inside their awaits: every method is one atomic step.
- JSON and base64 text, environment markers, and saving and loading of replication states.
- Average latency, access counts in statistics, log lines and error texts.
- `forcePurgeAll`: it bypasses every rule by design; an easy loop.
- `isSafeToDelete`, `verifyReplicationWithPeers`, `verifyReplicationConsensus`, `getPermanenceRequirements`: one loop or one table each.
- `calculateShardKeyBitBased`, `parseShardConfig`, `rankNodesByReputation`, `filterByMinReputation`: not used by the modelled operations, or a single sort or filter.
- The details of on-chain authorization by content type: one answer of the chain per request.
- Express routes, rate limiting, start-up, configuration, pubsub, the other peer-to-peer handlers, reputation, discovery, metrics, peer cache, content blocking and writer allowlists.
