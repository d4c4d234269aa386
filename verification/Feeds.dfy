/**
 * The feed store (src/services/feed.service.ts): one directory per feed, holding `metadata.json` and one file per
 * event named by its CID. Signature checks and blob existence are answered by parameters.
 */
module Feeds {
  import opened Sequences
  import opened FeedChains
  import Paging

  datatype FeedMetadata = FeedMetadata(
    feedId: string, rootCid: Option<string>, writers: seq<string>, createdAt: int, lastUpdatedAt: int, entryCount: nat)

  datatype FeedFile = MetadataFile(metadata: FeedMetadata) | EventFile(event: FeedEvent)

  /** File names without their `.json`. */
  type Directory = map<string, FeedFile>

  datatype AddError = InvalidSignature | FeedNotFound | NotAuthorized | BlobNotFound

  datatype Problem =
    | NoSuchFeed
    | BadSignature(cid: string)
    | UnauthorizedWriter(cid: string)
    | RootMissing(cid: string)
    | BlobMissing(cid: string)
    | ParentMissing(cid: string)

  const METADATA := "metadata"

  function ReadMetadata(dir: Directory): Option<FeedMetadata>
  {
    if METADATA in dir && dir[METADATA].MetadataFile? then Some(dir[METADATA].metadata) else None
  }

  function CreateFeed(dir: Directory, feedId: string, writers: seq<string>, now: int): Directory
  {
    dir[METADATA := MetadataFile(FeedMetadata(feedId, None, writers, now, now, 0))]
  }

  /** What `addEntry` refuses, in the order it checks. */
  function AddRefusal(dir: Directory, event: FeedEvent, signed: FeedEvent -> bool, blobs: set<string>): Option<AddError>
  {
    if !signed(event) then Some(InvalidSignature)
    else if ReadMetadata(dir).None? then Some(FeedNotFound)
    else if event.authorKey !in ReadMetadata(dir).value.writers then Some(NotAuthorized)
    else if event.cid !in blobs then Some(BlobNotFound)
    else None
  }

  /** The event file is written first and the metadata file after it. */
  function AddEntry(dir: Directory, event: FeedEvent, signed: FeedEvent -> bool, blobs: set<string>, now: int)
    : Directory
  {
    if AddRefusal(dir, event, signed, blobs).Some? then dir
    else
      var metadata := ReadMetadata(dir).value;
      var rooted := if metadata.rootCid == None && event.parentCid == None
                    then metadata.(rootCid := Some(event.cid)) else metadata;
      var updated := rooted.(entryCount := rooted.entryCount + 1, lastUpdatedAt := now);
      dir[event.cid := EventFile(event)][METADATA := MetadataFile(updated)]
  }

  /** Every file but the metadata file holds an event. */
  ghost predicate HoldsEvents(dir: Directory)
  {
    forall name :: name in dir && name != METADATA ==> dir[name].EventFile?
  }

  /** The events read from the files with these names: all names but the metadata file's, each once. */
  ghost predicate ReadFrom(dir: Directory, names: seq<string>, events: seq<FeedEvent>)
  {
    && NoDup(names) && (forall name :: name in names <==> name in dir && name != METADATA)
    && |events| == |names| && (forall i :: 0 <= i < |names| ==> dir[names[i]] == EventFile(events[i]))
  }

  /** The events of a directory in whatever order the file system lists its files. */
  ghost predicate Listing(dir: Directory, events: seq<FeedEvent>)
  {
    exists names :: ReadFrom(dir, names, events)
  }

  predicate HasCid(events: seq<FeedEvent>, cid: string)
  {
    exists e :: e in events && e.cid == cid
  }

  function EventErrors(e: FeedEvent, writers: seq<string>, signed: FeedEvent -> bool): seq<Problem>
  {
    (if signed(e) then [] else [BadSignature(e.cid)]) +
    (if e.authorKey in writers then [] else [UnauthorizedWriter(e.cid)])
  }

  function EventWarnings(e: FeedEvent, events: seq<FeedEvent>, blobs: set<string>): seq<Problem>
  {
    (if e.cid in blobs then [] else [BlobMissing(e.cid)]) +
    (if e.parentCid.Some? && e.parentCid.value != "" && !HasCid(events, e.parentCid.value)
     then [ParentMissing(e.cid)] else [])
  }

  function AllErrors(listed: seq<FeedEvent>, writers: seq<string>, signed: FeedEvent -> bool): seq<Problem>
  {
    if listed == [] then []
    else AllErrors(listed[..|listed| - 1], writers, signed) + EventErrors(listed[|listed| - 1], writers, signed)
  }

  function AllWarnings(listed: seq<FeedEvent>, events: seq<FeedEvent>, blobs: set<string>): seq<Problem>
  {
    if listed == [] then []
    else AllWarnings(listed[..|listed| - 1], events, blobs) + EventWarnings(listed[|listed| - 1], events, blobs)
  }

  function RootErrors(rootCid: Option<string>, events: seq<FeedEvent>): seq<Problem>
  {
    if rootCid.Some? && rootCid.value != "" && !HasCid(events, rootCid.value) then [RootMissing(rootCid.value)] else []
  }

  function ByTimestamp(): (FeedEvent, FeedEvent) -> bool
  {
    (a: FeedEvent, b: FeedEvent) => a.timestamp <= b.timestamp
  }

  function CidOf(): FeedEvent -> string
  {
    (e: FeedEvent) => e.cid
  }

  /** What `getFeedEvents` answers; it fails when it has more to give but no last event to name. */
  datatype Discovery =
    | Discovered(metadata: FeedMetadata, events: seq<FeedEvent>, cursor: Option<string>, hasMore: bool)
    | NoFeed
    | NoLastEvent

  class FeedService {
    var feeds: map<string, Directory>
    const signed: FeedEvent -> bool

    constructor (signed: FeedEvent -> bool)
      ensures feeds == map[] && this.signed == signed
    {
      feeds := map[];
      this.signed := signed;
    }

    function DirectoryOf(feedId: string): Directory
      reads this
    {
      if feedId in feeds then feeds[feedId] else map[]
    }

    method Create(feedId: string, writers: seq<string>, now: int)
      modifies this
      ensures ReadMetadata(DirectoryOf(feedId)) == Some(FeedMetadata(feedId, None, writers, now, now, 0))
      ensures DirectoryOf(feedId).Keys == old(DirectoryOf(feedId).Keys) + {METADATA}
      ensures forall name :: name in old(DirectoryOf(feedId)) && name != METADATA ==>
                DirectoryOf(feedId)[name] == old(DirectoryOf(feedId)[name])
      ensures feeds.Keys == old(feeds.Keys) + {feedId}
      ensures forall other :: other in old(feeds) && other != feedId ==> feeds[other] == old(feeds[other])
    {
      feeds := feeds[feedId := CreateFeed(DirectoryOf(feedId), feedId, writers, now)];
    }

    method SaveFile(feedId: string, name: string, file: FeedFile)
      modifies this
      ensures feeds == old(feeds)[feedId := old(DirectoryOf(feedId))[name := file]]
    {
      feeds := feeds[feedId := DirectoryOf(feedId)[name := file]];
    }

    method Add(event: FeedEvent, blobs: set<string>, now: int) returns (error: Option<AddError>)
      modifies this
      ensures error == AddRefusal(old(DirectoryOf(event.feedId)), event, signed, blobs)
      ensures var metadata := ReadMetadata(old(DirectoryOf(event.feedId)));
              && (error.None? <==>
                  && metadata.Some? && signed(event) && event.authorKey in metadata.value.writers
                  && event.cid in blobs)
              && (error == Some(InvalidSignature) <==> !signed(event))
              && (error == Some(FeedNotFound) <==> signed(event) && metadata.None?)
              && (error == Some(NotAuthorized) <==>
                  signed(event) && metadata.Some? && event.authorKey !in metadata.value.writers)
      ensures error.Some? ==> feeds == old(feeds)
      ensures error.None? ==>
                feeds == old(feeds)[event.feedId := AddEntry(old(DirectoryOf(event.feedId)), event, signed, blobs, now)]
    {
      if !signed(event) {
        return Some(InvalidSignature);
      }
      var found := ReadMetadata(DirectoryOf(event.feedId));
      if found.None? {
        return Some(FeedNotFound);
      }
      var metadata := found.value;
      if event.authorKey !in metadata.writers {
        return Some(NotAuthorized);
      }
      if event.cid !in blobs {
        return Some(BlobNotFound);
      }
      if metadata.rootCid == None && event.parentCid == None {
        metadata := metadata.(rootCid := Some(event.cid));
      }
      SaveFile(event.feedId, event.cid, EventFile(event));
      metadata := metadata.(entryCount := metadata.entryCount + 1);
      metadata := metadata.(lastUpdatedAt := now);
      SaveFile(event.feedId, METADATA, MetadataFile(metadata));
      error := None;
    }

    /** The files of a feed in an order the file system chooses. */
    method LoadAllEvents(feedId: string) returns (events: seq<FeedEvent>)
      requires HoldsEvents(DirectoryOf(feedId))
      ensures Listing(DirectoryOf(feedId), events)
    {
      var dir := DirectoryOf(feedId);
      var files := dir.Keys;
      events := [];
      ghost var names: seq<string> := [];
      while files != {}
        invariant files <= dir.Keys && NoDup(names) && |events| == |names|
        invariant forall name :: name in names <==> name in dir && name !in files && name != METADATA
        invariant forall i :: 0 <= i < |names| ==> dir[names[i]] == EventFile(events[i])
        decreases files
      {
        var file :| file in files;
        files := files - {file};
        if file != METADATA {
          events := events + [dir[file].event];
          names := names + [file];
        }
      }
      assert ReadFrom(dir, names, events);
    }

    method GetFeedEvents(feedId: string, limit: int, cursor: Option<string>)
      returns (result: Discovery, ghost listed: seq<FeedEvent>)
      requires HoldsEvents(DirectoryOf(feedId))
      ensures ReadMetadata(DirectoryOf(feedId)).None? ==> result == NoFeed
      ensures ReadMetadata(DirectoryOf(feedId)).Some? ==>
                && Listing(DirectoryOf(feedId), listed)
                && var page := Paging.FeedPageOf(Sort(listed, ByTimestamp()), CidOf(), limit, cursor);
                   if page.None? then result == NoLastEvent
                   else
                     && result.Discovered? && result.metadata == ReadMetadata(DirectoryOf(feedId)).value
                     && result.events == page.value.entries && result.cursor == page.value.cursor
                     && result.hasMore == page.value.hasMore
    {
      var metadata := ReadMetadata(DirectoryOf(feedId));
      if metadata.None? {
        return NoFeed, [];
      }
      var allEvents := LoadAllEvents(feedId);
      listed := allEvents;
      allEvents := Sort(allEvents, ByTimestamp());
      var page := Paging.CutFeedPage(allEvents, CidOf(), limit, cursor);
      if page.None? {
        return NoLastEvent, listed;
      }
      result := Discovered(metadata.value, page.value.entries, page.value.cursor, page.value.hasMore);
    }

    /** The part of `validateFeed` that looks at one event. */
    method ValidateEvent(event: FeedEvent, loaded: seq<FeedEvent>, writers: seq<string>, blobs: set<string>)
      returns (errors: seq<Problem>, warnings: seq<Problem>)
      ensures errors == EventErrors(event, writers, signed) && warnings == EventWarnings(event, loaded, blobs)
    {
      errors, warnings := [], [];
      if !signed(event) {
        errors := errors + [BadSignature(event.cid)];
      }
      if event.authorKey !in writers {
        errors := errors + [UnauthorizedWriter(event.cid)];
      }
      if event.cid !in blobs {
        warnings := warnings + [BlobMissing(event.cid)];
      }
      if event.parentCid.Some? && event.parentCid.value != "" {
        if !HasCid(loaded, event.parentCid.value) {
          warnings := warnings + [ParentMissing(event.cid)];
        }
      }
    }

    method ValidateEvents(loaded: seq<FeedEvent>, writers: seq<string>, blobs: set<string>)
      returns (errors: seq<Problem>, warnings: seq<Problem>)
      ensures errors == AllErrors(loaded, writers, signed) && warnings == AllWarnings(loaded, loaded, blobs)
    {
      errors, warnings := [], [];
      for k := 0 to |loaded|
        invariant errors == AllErrors(loaded[..k], writers, signed)
        invariant warnings == AllWarnings(loaded[..k], loaded, blobs)
      {
        assert loaded[..k + 1][..k] == loaded[..k];
        var found, missing := ValidateEvent(loaded[k], loaded, writers, blobs);
        errors := errors + found;
        warnings := warnings + missing;
      }
      assert loaded[..|loaded|] == loaded;
    }

    /** The part that looks for the root. */
    method ValidateRoot(loaded: seq<FeedEvent>, rootCid: Option<string>) returns (errors: seq<Problem>)
      ensures errors == RootErrors(rootCid, loaded)
    {
      errors := [];
      if rootCid.Some? && rootCid.value != "" {
        if !HasCid(loaded, rootCid.value) {
          errors := errors + [RootMissing(rootCid.value)];
        }
      }
    }

    method Validate(feedId: string, blobs: set<string>)
      returns (valid: bool, errors: seq<Problem>, warnings: seq<Problem>, ghost events: seq<FeedEvent>)
      requires HoldsEvents(DirectoryOf(feedId))
      ensures valid <==> errors == []
      ensures ReadMetadata(DirectoryOf(feedId)).None? ==> errors == [NoSuchFeed] && warnings == []
      ensures ReadMetadata(DirectoryOf(feedId)).Some? ==>
                var metadata := ReadMetadata(DirectoryOf(feedId)).value;
                && Listing(DirectoryOf(feedId), events)
                && errors == AllErrors(events, metadata.writers, signed) + RootErrors(metadata.rootCid, events)
                && warnings == AllWarnings(events, events, blobs)
    {
      events := [];
      var found := ReadMetadata(DirectoryOf(feedId));
      if found.None? {
        return false, [NoSuchFeed], [], [];
      }
      var metadata := found.value;
      var loaded := LoadAllEvents(feedId);
      events := loaded;
      errors, warnings := ValidateEvents(loaded, metadata.writers, blobs);
      var missing := ValidateRoot(loaded, metadata.rootCid);
      errors := errors + missing;
      valid := errors == [];
    }
  }

  // ---------------------------------------------------------------- runs of one feed

  /** Every file but the metadata file is an event stored under its own CID. */
  ghost predicate OwnNames(dir: Directory)
  {
    forall name :: name in dir && name != METADATA ==> dir[name].EventFile? && dir[name].event.cid == name
  }

  /** With files named by their CIDs a listing holds each stored event exactly once. */
  lemma ListingMembers(dir: Directory, events: seq<FeedEvent>)
    requires OwnNames(dir) && Listing(dir, events)
    ensures NoDup(events)
    ensures forall e :: e in events <==> e.cid in dir && e.cid != METADATA && dir[e.cid] == EventFile(e)
  {
    var names :| ReadFrom(dir, names, events);
    forall i | 0 <= i < |events| ensures names[i] == events[i].cid {
      assert names[i] in names;
    }
    forall e: FeedEvent | e.cid in dir && e.cid != METADATA && dir[e.cid] == EventFile(e) ensures e in events {
      var i :| 0 <= i < |names| && names[i] == e.cid;
      assert events[i] == e;
    }
    forall e | e in events ensures e.cid in dir && e.cid != METADATA && dir[e.cid] == EventFile(e) {
      var i :| 0 <= i < |events| && events[i] == e;
      assert names[i] in names;
    }
  }

  /** And every list that does is a listing. */
  lemma MembersListed(dir: Directory, events: seq<FeedEvent>)
    requires OwnNames(dir) && NoDup(events)
    requires forall e :: e in events <==> e.cid in dir && e.cid != METADATA && dir[e.cid] == EventFile(e)
    ensures Listing(dir, events)
  {
    var names := Map(events, CidOf());
    forall i | 0 <= i < |events|
      ensures names[i] in dir && names[i] != METADATA && dir[names[i]] == EventFile(events[i]) {
      assert events[i] in events;
    }
    forall i, j | 0 <= i < j < |names| ensures names[i] != names[j] {
      assert events[i] != events[j];
    }
    forall name | name in dir && name != METADATA ensures name in names {
      var e := dir[name].event;
      assert e in events;
      var i :| 0 <= i < |events| && events[i] == e;
      assert names[i] == name;
    }
    assert ReadFrom(dir, names, events);
  }

  /** What every run of `addEntry` after one `createFeed` keeps. */
  ghost predicate FeedInv(dir: Directory, signed: FeedEvent -> bool)
  {
    && ReadMetadata(dir).Some?
    && OwnNames(dir)
    && (forall name :: name in dir && name != METADATA ==>
          signed(dir[name].event) && dir[name].event.authorKey in ReadMetadata(dir).value.writers)
    && (ReadMetadata(dir).value.rootCid.Some? ==> ReadMetadata(dir).value.rootCid.value in dir)
  }

  datatype Add = Add(event: FeedEvent, blobs: set<string>, now: int)

  function RunAdds(dir: Directory, adds: seq<Add>, signed: FeedEvent -> bool): Directory
  {
    if adds == [] then dir
    else
      var last := adds[|adds| - 1];
      AddEntry(RunAdds(dir, adds[..|adds| - 1], signed), last.event, signed, last.blobs, last.now)
  }

  lemma AddKeepsInv(dir: Directory, add: Add, signed: FeedEvent -> bool)
    requires FeedInv(dir, signed)
    ensures FeedInv(AddEntry(dir, add.event, signed, add.blobs, add.now), signed)
  {
  }

  lemma {:induction false} RunKeepsInv(dir: Directory, adds: seq<Add>, signed: FeedEvent -> bool)
    requires FeedInv(dir, signed)
    ensures FeedInv(RunAdds(dir, adds, signed), signed)
  {
    if adds != [] {
      RunKeepsInv(dir, adds[..|adds| - 1], signed);
      AddKeepsInv(RunAdds(dir, adds[..|adds| - 1], signed), adds[|adds| - 1], signed);
    }
  }

  /** The root, once set, stays, whatever is added and whoever adds it. */
  lemma {:induction false} RootNeverChanges(dir: Directory, adds: seq<Add>, signed: FeedEvent -> bool)
    requires ReadMetadata(dir).Some? && ReadMetadata(dir).value.rootCid.Some?
    ensures var after := ReadMetadata(RunAdds(dir, adds, signed));
            after.Some? && after.value.rootCid == ReadMetadata(dir).value.rootCid
    ensures ReadMetadata(RunAdds(dir, adds, signed)).value.writers == ReadMetadata(dir).value.writers
  {
    if adds != [] {
      RootNeverChanges(dir, adds[..|adds| - 1], signed);
    }
  }

  lemma {:induction false} NoErrorsIff(listed: seq<FeedEvent>, writers: seq<string>, signed: FeedEvent -> bool)
    ensures AllErrors(listed, writers, signed) == [] <==>
            forall e :: e in listed ==> signed(e) && e.authorKey in writers
  {
    if listed != [] {
      NoErrorsIff(listed[..|listed| - 1], writers, signed);
      assert listed == listed[..|listed| - 1] + [listed[|listed| - 1]];
    }
  }

  /** An add is accepted by a feed with these writers; nothing else in the feed matters. */
  predicate Accepted(add: Add, writers: seq<string>, signed: FeedEvent -> bool)
  {
    signed(add.event) && add.event.authorKey in writers && add.event.cid in add.blobs
  }

  /** The CID of the first accepted event without a parent. */
  function FirstRoot(adds: seq<Add>, writers: seq<string>, signed: FeedEvent -> bool): Option<string>
  {
    if adds == [] then None
    else
      var before, last := FirstRoot(adds[..|adds| - 1], writers, signed), adds[|adds| - 1];
      if before.None? && Accepted(last, writers, signed) && last.event.parentCid == None
      then Some(last.event.cid)
      else before
  }

  /** The root of a feed is the first accepted event without a parent. */
  lemma {:induction false} RootIsFirst(
    feedId: string, writers: seq<string>, now: int, adds: seq<Add>, signed: FeedEvent -> bool)
    ensures var metadata := ReadMetadata(RunAdds(CreateFeed(map[], feedId, writers, now), adds, signed));
            && metadata.Some? && metadata.value.rootCid == FirstRoot(adds, writers, signed)
            && metadata.value.writers == writers
  {
    if adds != [] {
      RootIsFirst(feedId, writers, now, adds[..|adds| - 1], signed);
    }
  }

  /** The add is the last accepted one under the CID. */
  ghost predicate LastUnder(adds: seq<Add>, i: nat, cid: string, writers: seq<string>, signed: FeedEvent -> bool)
  {
    && i < |adds| && Accepted(adds[i], writers, signed) && adds[i].event.cid == cid
    && forall j :: i < j < |adds| ==> !(Accepted(adds[j], writers, signed) && adds[j].event.cid == cid)
  }

  /** The file of a CID holds the event last accepted under it. */
  lemma {:induction false} AddedIsStored(
    feedId: string, writers: seq<string>, now: int, adds: seq<Add>, signed: FeedEvent -> bool, i: nat, cid: string)
    requires LastUnder(adds, i, cid, writers, signed) && cid != METADATA
    ensures var dir := RunAdds(CreateFeed(map[], feedId, writers, now), adds, signed);
            cid in dir && dir[cid] == EventFile(adds[i].event)
  {
    var front := adds[..|adds| - 1];
    RootIsFirst(feedId, writers, now, front, signed);
    if i < |front| {
      assert LastUnder(front, i, cid, writers, signed);
      AddedIsStored(feedId, writers, now, front, signed, i, cid);
    }
  }

  /** And there is no other file. */
  lemma {:induction false} StoredWasAdded(
    feedId: string, writers: seq<string>, now: int, adds: seq<Add>, signed: FeedEvent -> bool, cid: string)
    returns (i: nat)
    requires cid in RunAdds(CreateFeed(map[], feedId, writers, now), adds, signed) && cid != METADATA
    ensures LastUnder(adds, i, cid, writers, signed)
  {
    var front, last := adds[..|adds| - 1], adds[|adds| - 1];
    RootIsFirst(feedId, writers, now, front, signed);
    if Accepted(last, writers, signed) && last.event.cid == cid {
      i := |front|;
    } else {
      i := StoredWasAdded(feedId, writers, now, front, signed, cid);
    }
  }

  /** The metadata count the accepted adds and carry the time of the last one; the rest is as created. */
  lemma {:induction false} MetadataCountsAdds(
    feedId: string, writers: seq<string>, now: int, adds: seq<Add>, signed: FeedEvent -> bool)
    ensures var metadata := ReadMetadata(RunAdds(CreateFeed(map[], feedId, writers, now), adds, signed));
            var accepted := Filter(adds, (add: Add) => Accepted(add, writers, signed));
            && metadata.Some? && metadata.value.feedId == feedId && metadata.value.createdAt == now
            && metadata.value.entryCount == |accepted|
            && metadata.value.lastUpdatedAt == if accepted == [] then now else accepted[|accepted| - 1].now
  {
    if adds != [] {
      var front, last := adds[..|adds| - 1], adds[|adds| - 1];
      assert adds == front + [last];
      MetadataCountsAdds(feedId, writers, now, front, signed);
      RootIsFirst(feedId, writers, now, front, signed);
      FilterSnoc(front, last, (add: Add) => Accepted(add, writers, signed));
    }
  }

  /** Which problems a validation reports, and about which events. */
  lemma {:induction false} ErrorsMean(
    listed: seq<FeedEvent>, writers: seq<string>, signed: FeedEvent -> bool, problem: Problem)
    ensures problem in AllErrors(listed, writers, signed) <==>
            exists e :: e in listed &&
                        ((problem == BadSignature(e.cid) && !signed(e)) ||
                         (problem == UnauthorizedWriter(e.cid) && e.authorKey !in writers))
  {
    if listed != [] {
      ErrorsMean(listed[..|listed| - 1], writers, signed, problem);
      assert listed == listed[..|listed| - 1] + [listed[|listed| - 1]];
    }
  }

  lemma {:induction false} WarningsMean(
    listed: seq<FeedEvent>, events: seq<FeedEvent>, blobs: set<string>, problem: Problem)
    ensures problem in AllWarnings(listed, events, blobs) <==>
            exists e :: e in listed &&
                        ((problem == BlobMissing(e.cid) && e.cid !in blobs) ||
                         (problem == ParentMissing(e.cid) && e.parentCid.Some? && e.parentCid.value != "" &&
                          forall p :: p in events ==> Some(p.cid) != e.parentCid))
  {
    if listed != [] {
      WarningsMean(listed[..|listed| - 1], events, blobs, problem);
      assert listed == listed[..|listed| - 1] + [listed[|listed| - 1]];
    }
  }

  /**
   * After one `createFeed` on a fresh directory, every run of `addEntry` leaves a feed that validates without errors,
   * in every listing order, if and only if the first accepted event without a parent does not have the CID
   * "metadata": that event's file would be overwritten by the feed's own metadata.
   */
  lemma FeedRunsStayValid(
    feedId: string, writers: seq<string>, now: int, adds: seq<Add>, signed: FeedEvent -> bool, events: seq<FeedEvent>)
    requires Listing(RunAdds(CreateFeed(map[], feedId, writers, now), adds, signed), events)
    ensures var metadata := ReadMetadata(RunAdds(CreateFeed(map[], feedId, writers, now), adds, signed));
            && metadata.Some? && metadata.value.writers == writers
            && (AllErrors(events, writers, signed) + RootErrors(metadata.value.rootCid, events) == [] <==>
                FirstRoot(adds, writers, signed) != Some(METADATA))
  {
    var created := CreateFeed(map[], feedId, writers, now);
    var dir := RunAdds(created, adds, signed);
    RunKeepsInv(created, adds, signed);
    RootIsFirst(feedId, writers, now, adds, signed);
    NoErrorsIff(events, writers, signed);
    ListingMembers(dir, events);
    var rootCid := ReadMetadata(dir).value.rootCid;
    if rootCid.Some? {
      HasCidIffFile(dir, events, rootCid.value);
    }
  }

  /**
   * A run that gets there: a first event with the CID "metadata", for which a blob of that name must be stored. The
   * HTTP store and replicate routes store blobs under their hashes only, but a pull stores them under whatever CID a
   * peer answers with (src/services/replication.service.ts:409).
   */
  lemma MetadataRootInvalid(signed: FeedEvent -> bool)
    requires signed(FeedEvent("f", METADATA, None, "w", 0, "s"))
    ensures var adds := [Add(FeedEvent("f", METADATA, None, "w", 0, "s"), {METADATA}, 1)];
            var dir := RunAdds(CreateFeed(map[], "f", ["w"], 0), adds, signed);
            && Listing(dir, []) && ReadMetadata(dir).Some?
            && RootErrors(ReadMetadata(dir).value.rootCid, []) == [RootMissing(METADATA)]
  {
    var add := Add(FeedEvent("f", METADATA, None, "w", 0, "s"), {METADATA}, 1);
    var created := CreateFeed(map[], "f", ["w"], 0);
    assert [add][..0] == [];
    assert RunAdds(created, [], signed) == created;
    var dir := RunAdds(created, [add], signed);
    assert dir.Keys == {METADATA};
    assert ReadFrom(dir, [], []);
  }

  lemma {:induction false} WritersNeverChange(dir: Directory, adds: seq<Add>, signed: FeedEvent -> bool)
    requires ReadMetadata(dir).Some?
    ensures ReadMetadata(RunAdds(dir, adds, signed)).Some?
    ensures ReadMetadata(RunAdds(dir, adds, signed)).value.writers == ReadMetadata(dir).value.writers
  {
    if adds != [] {
      WritersNeverChange(dir, adds[..|adds| - 1], signed);
    }
  }

  lemma HasCidIffFile(dir: Directory, events: seq<FeedEvent>, cid: string)
    requires OwnNames(dir) && Listing(dir, events)
    ensures HasCid(events, cid) <==> cid in dir && cid != METADATA
  {
    ListingMembers(dir, events);
    if cid in dir && cid != METADATA {
      assert dir[cid] == EventFile(dir[cid].event);
      assert dir[cid].event in events;
    }
  }

  /** A listed feed has distinct CIDs, as the chain walk needs. */
  lemma ListingDistinct(dir: Directory, events: seq<FeedEvent>)
    requires OwnNames(dir) && Listing(dir, events)
    ensures DistinctCids(events)
  {
    ListingMembers(dir, events);
    forall i, j | 0 <= i < j < |events| ensures events[i].cid != events[j].cid {
      assert events[i] in events && events[j] in events && events[i] != events[j];
    }
  }

  // ---------------------------------------------------------------- paging through a feed

  lemma SortedDistinct(dir: Directory, listed: seq<FeedEvent>)
    requires OwnNames(dir) && Listing(dir, listed)
    ensures Paging.DistinctKeys(Sort(listed, ByTimestamp()), CidOf())
  {
    var list := Sort(listed, ByTimestamp());
    ListingDistinct(dir, listed);
    ListingMembers(dir, listed);
    SortNoDup(listed, ByTimestamp());
    SortElements(listed, ByTimestamp());
    UniqueCids(listed, list);
  }

  lemma UniqueCids(listed: seq<FeedEvent>, list: seq<FeedEvent>)
    requires DistinctCids(listed) && NoDup(list) && forall e :: e in list ==> e in listed
    ensures Paging.DistinctKeys(list, CidOf())
  {
    forall i, j | 0 <= i < j < |list| ensures CidOf()(list[i]) != CidOf()(list[j]) {
      assert list[i] in listed && list[j] in listed;
      var k :| 0 <= k < |listed| && listed[k] == list[i];
      var l :| 0 <= l < |listed| && listed[l] == list[j];
      assert list[i] != list[j];
      assert k < l || l < k;
    }
  }

  /**
   * Following the cursors of `getFeedEvents` over an unchanged feed yields every event exactly once, in timestamp
   * order, and ends, if and only if no page ends with an event whose CID is empty.
   */
  lemma FeedPagesComplete(dir: Directory, listed: seq<FeedEvent>, limit: nat, rounds: nat)
    requires OwnNames(dir) && Listing(dir, listed) && limit > 0 && rounds > |listed|
    ensures var list := Sort(listed, ByTimestamp());
            var pages := Paging.FeedPages(list, CidOf(), limit);
            && (forall i, j :: 0 <= i < j < |list| ==> list[i].timestamp <= list[j].timestamp)
            && multiset(list) == multiset(listed)
            && (Paging.BoundariesNamed(list, CidOf(), limit, 0) ==> Paging.Collect(pages, None, rounds) == Some(list))
            && (!Paging.BoundariesNamed(list, CidOf(), limit, 0) ==>
                forall n: nat :: Paging.Collect(pages, None, n) == None)
  {
    var list := Sort(listed, ByTimestamp());
    SortSorted(listed, ByTimestamp());
    SortedDistinct(dir, listed);
    Paging.PagingCompleteIff(Paging.FeedPages(list, CidOf(), limit), list, CidOf(), limit, rounds);
  }

  const UNNAMED := FeedEvent("f", "", None, "w", 0, "s0")
  const NAMED := FeedEvent("f", "a", None, "w", 1, "s1")

  lemma UnnamedListed(signed: FeedEvent -> bool)
    requires signed(UNNAMED) && signed(NAMED)
    ensures var dir := RunAdds(CreateFeed(map[], "f", ["w"], 0), [Add(UNNAMED, {""}, 0), Add(NAMED, {"a"}, 1)], signed);
            OwnNames(dir) && Listing(dir, [NAMED, UNNAMED])
  {
    var adds, created := [Add(UNNAMED, {""}, 0), Add(NAMED, {"a"}, 1)], CreateFeed(map[], "f", ["w"], 0);
    RunOfTwo(created, adds, signed);
    RunKeepsInv(created, adds, signed);
    var dir := RunAdds(created, adds, signed);
    assert dir.Keys == {METADATA, "", "a"} && dir[""] == EventFile(UNNAMED) && dir["a"] == EventFile(NAMED);
    assert ReadFrom(dir, ["a", ""], [NAMED, UNNAMED]);
  }

  /** A feed that gets there: its oldest event has the empty CID, and pages of one never reach the end. */
  lemma EmptyCidNeverEnds(signed: FeedEvent -> bool, n: nat)
    requires signed(UNNAMED) && signed(NAMED)
    ensures var dir := RunAdds(CreateFeed(map[], "f", ["w"], 0), [Add(UNNAMED, {""}, 0), Add(NAMED, {"a"}, 1)], signed);
            && Listing(dir, [NAMED, UNNAMED])
            && Paging.Collect(Paging.FeedPages(Sort([NAMED, UNNAMED], ByTimestamp()), CidOf(), 1), None, n) == None
  {
    UnnamedListed(signed);
    SortTwo(NAMED, UNNAMED, ByTimestamp());
    assert !Paging.BoundariesNamed([UNNAMED, NAMED], CidOf(), 1, 0);
    FeedPagesComplete(RunAdds(CreateFeed(map[], "f", ["w"], 0), [Add(UNNAMED, {""}, 0), Add(NAMED, {"a"}, 1)], signed),
                      [NAMED, UNNAMED], 1, 3);
  }

  // ---------------------------------------------------------------- runs and the chain walk

  /** No add replaces an event that is already stored. */
  ghost predicate NoOverwrites(dir: Directory, adds: seq<Add>, signed: FeedEvent -> bool)
  {
    forall k :: 0 <= k < |adds| ==> adds[k].event.cid !in RunAdds(dir, adds[..k], signed)
  }

  ghost predicate ParentlessRoot(dir: Directory)
  {
    ReadMetadata(dir).Some? && ReadMetadata(dir).value.rootCid.Some? ==>
      var root := ReadMetadata(dir).value.rootCid.value;
      root in dir && (dir[root].EventFile? ==> dir[root].event.parentCid == None)
  }

  lemma {:induction false} FreshAddsKeepRoot(dir: Directory, adds: seq<Add>, signed: FeedEvent -> bool)
    requires ParentlessRoot(dir) && ReadMetadata(dir).Some? && NoOverwrites(dir, adds, signed)
    ensures ParentlessRoot(RunAdds(dir, adds, signed)) && ReadMetadata(RunAdds(dir, adds, signed)).Some?
  {
    if adds != [] {
      var front := adds[..|adds| - 1];
      forall k | 0 <= k < |front| ensures front[k].event.cid !in RunAdds(dir, front[..k], signed) {
        assert front[..k] == adds[..k];
      }
      FreshAddsKeepRoot(dir, front, signed);
      assert adds[|adds| - 1].event.cid !in RunAdds(dir, front, signed);
    }
  }

  /** The stored parent of an event. */
  function ParentIn(dir: Directory): Next
  {
    (e: FeedEvent) =>
      if e.parentCid.Some? && e.parentCid.value in dir && e.parentCid.value != METADATA
         && dir[e.parentCid.value].EventFile?
      then Some(dir[e.parentCid.value].event) else None
  }

  /** Climbing from the stored event to its parent, the parent's parent and so on leads back to it. */
  ghost predicate OwnAncestor(dir: Directory, cid: string)
  {
    && cid in dir && cid != METADATA && dir[cid].EventFile?
    && exists k: nat :: k > 0 && Walk(ParentIn(dir), dir[cid].event, k) == Some(dir[cid].event)
  }

  /** The chain walk from every root ends; without a root CID there is none. */
  ghost predicate WalksEnd(events: seq<FeedEvent>, rootCid: Option<string>)
  {
    rootCid.Some? && rootCid.value != "" ==>
      forall r :: r in events && (r.parentCid == None || r.cid == rootCid.value) ==>
        exists n: nat :: Walk(FirstChildIn(events), r, n) == None
  }

  lemma ParentLeadsBack(dir: Directory, events: seq<FeedEvent>)
    requires OwnNames(dir) && Listing(dir, events)
    ensures LeadsBack(ParentIn(dir), FirstChildIn(events), events)
  {
    ListingMembers(dir, events);
    FirstChildToChild(events);
  }

  /** A walk that does not end starts at an event that is its own ancestor. */
  lemma EndlessWalkClimbs(dir: Directory, events: seq<FeedEvent>, r: FeedEvent)
    requires OwnNames(dir) && Listing(dir, events) && r in events
    requires forall n: nat :: Walk(FirstChildIn(events), r, n) != None
    ensures OwnAncestor(dir, r.cid) && r.parentCid.Some?
  {
    ListingDistinct(dir, events);
    ListingMembers(dir, events);
    WalkEndsIff(events, r);
    var next := FirstChildIn(events);
    var k: nat :| 1 <= k <= |events| && Walk(next, r, k) == Some(r);
    FirstChildToChild(events);
    ParentLeadsBack(dir, events);
    WalkIsClimb(ParentIn(dir), next, events, r, r, k);
  }

  lemma SomeListing(dir: Directory) returns (events: seq<FeedEvent>)
    requires HoldsEvents(dir)
    ensures Listing(dir, events)
  {
    var names := SomeOrder(dir.Keys - {METADATA});
    forall i | 0 <= i < |names| ensures names[i] in dir && names[i] != METADATA {
      assert names[i] in names;
    }
    events := seq(|names|, i requires 0 <= i < |names| && names[i] in dir && dir[names[i]].EventFile?
                             => dir[names[i]].event);
    assert ReadFrom(dir, names, events);
  }

  lemma {:induction false} SomeOrder(names: set<string>) returns (order: seq<string>)
    ensures NoDup(order) && forall name :: name in order <==> name in names
  {
    order := [];
    if names != {} {
      var name :| name in names;
      order := SomeOrder(names - {name});
      order := order + [name];
    }
  }

  function InSet(within: set<FeedEvent>): FeedEvent -> bool
  {
    (e: FeedEvent) => e in within
  }

  function NotInSet(within: set<FeedEvent>): FeedEvent -> bool
  {
    (e: FeedEvent) => e !in within
  }

  /** Any events of a listing can be listed first. */
  lemma ListedFirst(dir: Directory, events: seq<FeedEvent>, within: set<FeedEvent>)
    requires OwnNames(dir) && Listing(dir, events)
    ensures Listing(dir, Filter(events, InSet(within)) + Filter(events, NotInSet(within)))
  {
    ListingMembers(dir, events);
    FilterNoDup(events, InSet(within));
    FilterNoDup(events, NotInSet(within));
    MembersListed(dir, Filter(events, InSet(within)) + Filter(events, NotInSet(within)));
  }

  /** An event that is its own ancestor has a listing from which the walk from it never ends. */
  lemma AncestorLoops(dir: Directory, cid: string) returns (events: seq<FeedEvent>)
    requires OwnNames(dir) && OwnAncestor(dir, cid)
    ensures Listing(dir, events) && dir[cid].event in events
    ensures forall n: nat :: Walk(FirstChildIn(events), dir[cid].event, n).Some?
  {
    var r, up := dir[cid].event, ParentIn(dir);
    var k: nat :| k > 0 && Walk(up, r, k) == Some(r);
    var within := Loop(up, r, k);
    var any := SomeListing(dir);
    LoopStored(dir, r, k, any);
    var first, rest := Filter(any, InSet(within)), Filter(any, NotInSet(within));
    events := first + rest;
    ListedFirst(dir, any, within);
    forall e {:trigger HasChild(first, e)} | e in first ensures HasChild(first, e) {
      var child := LoopHasChildren(up, r, k, e);
      assert child in first && child.parentCid == Some(e.cid);
    }
    LoopListedFirst(first, rest, r);
  }

  /** The events of a loop are stored, and a stored event is the parent it is found as. */
  lemma LoopStored(dir: Directory, r: FeedEvent, k: nat, events: seq<FeedEvent>)
    requires OwnNames(dir) && Listing(dir, events) && r in events
    requires k > 0 && Walk(ParentIn(dir), r, k) == Some(r)
    ensures forall e :: e in Loop(ParentIn(dir), r, k) ==> e in events
    ensures r in Loop(ParentIn(dir), r, k)
    ensures forall e, child :: ParentIn(dir)(child) == Some(e) ==> child.parentCid == Some(e.cid)
  {
    ListingMembers(dir, events);
    var up := ParentIn(dir);
    WalkPrefix(up, r, k - 1, k);
    var visited := Visited(up, r, k);
    forall i: nat | i < k ensures visited[i] in events {
      ClimbStays(dir, events, r, i);
    }
    assert visited[0] == r;
  }

  lemma {:induction false} ClimbStays(dir: Directory, events: seq<FeedEvent>, e: FeedEvent, n: nat)
    requires OwnNames(dir) && Listing(dir, events) && e in events && Walk(ParentIn(dir), e, n).Some?
    ensures Walk(ParentIn(dir), e, n).value in events
  {
    ListingMembers(dir, events);
    if n > 0 {
      ClimbStays(dir, events, e, n - 1);
    }
  }

  /**
   * The chain walk from every root ends, whatever the order in which the files are listed, if and only if the stored
   * root event is not its own ancestor.
   */
  lemma WalksEndIff(dir: Directory, rootCid: Option<string>)
    requires OwnNames(dir)
    ensures (forall events :: Listing(dir, events) ==> WalksEnd(events, rootCid)) <==>
            !(rootCid.Some? && rootCid.value != "" && OwnAncestor(dir, rootCid.value))
  {
    if rootCid.Some? && rootCid.value != "" {
      if OwnAncestor(dir, rootCid.value) {
        var events := AncestorLoops(dir, rootCid.value);
        assert dir[rootCid.value].event in events;
        assert !WalksEnd(events, rootCid);
      } else {
        forall events | Listing(dir, events) ensures WalksEnd(events, rootCid) {
          forall r: FeedEvent | r in events && (r.parentCid == None || r.cid == rootCid.value)
            ensures exists n: nat :: Walk(FirstChildIn(events), r, n) == None {
            if forall n: nat :: Walk(FirstChildIn(events), r, n) != None {
              EndlessWalkClimbs(dir, events, r);
            }
          }
        }
      }
    }
  }

  /**
   * The same over runs: after any run of adds the walks end in every listing unless the root was made its own
   * ancestor.
   */
  lemma RunsTerminateIff(feedId: string, writers: seq<string>, now: int, adds: seq<Add>, signed: FeedEvent -> bool)
    ensures var dir, rootCid := RunAdds(CreateFeed(map[], feedId, writers, now), adds, signed),
                FirstRoot(adds, writers, signed);
            (forall events :: Listing(dir, events) ==> WalksEnd(events, rootCid)) <==>
            !(rootCid.Some? && rootCid.value != "" && OwnAncestor(dir, rootCid.value))
  {
    var created := CreateFeed(map[], feedId, writers, now);
    RunKeepsInv(created, adds, signed);
    WalksEndIff(RunAdds(created, adds, signed), FirstRoot(adds, writers, signed));
  }

  /** In runs that overwrite no event they always end. */
  lemma FreshRunsTerminate(
    feedId: string, writers: seq<string>, now: int, adds: seq<Add>, signed: FeedEvent -> bool, events: seq<FeedEvent>)
    requires NoOverwrites(CreateFeed(map[], feedId, writers, now), adds, signed)
    requires Listing(RunAdds(CreateFeed(map[], feedId, writers, now), adds, signed), events)
    ensures WalksEnd(events, FirstRoot(adds, writers, signed))
  {
    var created, rootCid := CreateFeed(map[], feedId, writers, now), FirstRoot(adds, writers, signed);
    var dir := RunAdds(created, adds, signed);
    FreshAddsKeepRoot(created, adds, signed);
    RootIsFirst(feedId, writers, now, adds, signed);
    if rootCid.Some? && OwnAncestor(dir, rootCid.value) {
      ParentlessNoAncestor(dir, rootCid.value);
    }
    RunsTerminateIff(feedId, writers, now, adds, signed);
  }

  lemma ParentlessNoAncestor(dir: Directory, cid: string)
    requires cid in dir && dir[cid].EventFile? && dir[cid].event.parentCid == None
    ensures !OwnAncestor(dir, cid)
  {
    var up, e := ParentIn(dir), dir[cid].event;
    forall k: nat | k > 0 ensures Walk(up, e, k) == None {
      ClimbEnds(up, e, k);
    }
  }

  lemma {:induction false} ClimbEnds(up: Next, e: FeedEvent, k: nat)
    requires up(e) == None && k > 0
    ensures Walk(up, e, k) == None
  {
    if k == 1 {
      assert Walk(up, e, 0) == Some(e);
    } else {
      ClimbEnds(up, e, k - 1);
    }
  }

  /**
   * A run that makes the root its own ancestor: the root event is signed and added again with its own child as
   * parent. The walk from the root never ends.
   */
  lemma ReaddedRootLoops(signed: FeedEvent -> bool)
    requires signed(FeedEvent("f", "a", None, "w", 0, "s0")) && signed(FeedEvent("f", "b", Some("a"), "w", 1, "s1"))
    requires signed(FeedEvent("f", "a", Some("b"), "w", 2, "s2"))
    ensures var root := FeedEvent("f", "a", None, "w", 0, "s0");
            var child := FeedEvent("f", "b", Some("a"), "w", 1, "s1");
            var again := FeedEvent("f", "a", Some("b"), "w", 2, "s2");
            var adds := [Add(root, {"a"}, 0), Add(child, {"b"}, 1), Add(again, {"a"}, 2)];
            var dir := RunAdds(CreateFeed(map[], "f", ["w"], 0), adds, signed);
            && FirstRoot(adds, ["w"], signed) == Some("a")
            && Listing(dir, [again, child]) && !WalksEnd([again, child], Some("a"))
            && forall n: nat :: Walk(FirstChildIn([again, child]), again, n).Some?
  {
    var root := FeedEvent("f", "a", None, "w", 0, "s0");
    var child := FeedEvent("f", "b", Some("a"), "w", 1, "s1");
    var again := FeedEvent("f", "a", Some("b"), "w", 2, "s2");
    var adds := [Add(root, {"a"}, 0), Add(child, {"b"}, 1), Add(again, {"a"}, 2)];
    var created := CreateFeed(map[], "f", ["w"], 0);
    RunOfThree(created, adds, signed);
    FirstOfThree(adds, ["w"], signed);
    var dir := RunAdds(created, adds, signed);
    assert dir.Keys == {METADATA, "a", "b"};
    assert dir["a"] == EventFile(again) && dir["b"] == EventFile(child);
    assert ReadFrom(dir, ["a", "b"], [again, child]);
    assert [again, child][0] == again;
    TwoEventLoop(again, child);
  }

  lemma FirstOfThree(adds: seq<Add>, writers: seq<string>, signed: FeedEvent -> bool)
    requires |adds| == 3 && Accepted(adds[0], writers, signed) && adds[0].event.parentCid == None
    ensures FirstRoot(adds, writers, signed) == Some(adds[0].event.cid)
  {
    assert adds[..2][..1] == adds[..1] && adds[..1][..0] == [];
    assert FirstRoot(adds[..1], writers, signed) == Some(adds[0].event.cid);
  }

  lemma RunOfThree(dir: Directory, adds: seq<Add>, signed: FeedEvent -> bool)
    requires |adds| == 3
    ensures var d1 := AddEntry(dir, adds[0].event, signed, adds[0].blobs, adds[0].now);
            var d2 := AddEntry(d1, adds[1].event, signed, adds[1].blobs, adds[1].now);
            RunAdds(dir, adds, signed) == AddEntry(d2, adds[2].event, signed, adds[2].blobs, adds[2].now)
  {
    RunOfTwo(dir, adds[..2], signed);
  }

  lemma RunOfTwo(dir: Directory, adds: seq<Add>, signed: FeedEvent -> bool)
    requires |adds| == 2
    ensures var d1 := AddEntry(dir, adds[0].event, signed, adds[0].blobs, adds[0].now);
            RunAdds(dir, adds, signed) == AddEntry(d1, adds[1].event, signed, adds[1].blobs, adds[1].now)
  {
    assert adds[..1][..0] == [];
    assert RunAdds(dir, [], signed) == dir;
    assert RunAdds(dir, adds[..1], signed) == AddEntry(dir, adds[0].event, signed, adds[0].blobs, adds[0].now);
  }

  lemma TwoEventLoop(a: FeedEvent, b: FeedEvent)
    requires a.parentCid == Some(b.cid) && b.parentCid == Some(a.cid) && a.cid != b.cid
    ensures forall n: nat :: Walk(FirstChildIn([a, b]), a, n).Some?
  {
    var next := FirstChildIn([a, b]);
    assert [a, b] == [a] + [b] && [a] == [] + [a];
    ChildrenSnoc([], a, a.cid);
    ChildrenSnoc([a], b, a.cid);
    ChildrenSnoc([], a, b.cid);
    ChildrenSnoc([a], b, b.cid);
    assert Walk(next, a, 1) == Some(b);
    assert Walk(next, a, 2) == Some(a);
    forall n: nat ensures Walk(next, a, n).Some? {
      CycleNeverEnds(next, a, 2, n);
    }
  }
}
