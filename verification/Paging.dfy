/**
 * Cursor paging as the index queries (src/services/index.service.ts) and `getFeedEvents`
 * (src/services/feed.service.ts) do it. Items carry a CID, read by `cidOf`.
 */
module Paging {
  import opened Sequences

  datatype Page<T> = Page(entries: seq<T>, cursor: Option<string>, hasMore: bool, total: nat)

  /** `slice(from, to)`: a negative end counts from the back. */
  function JsSlice<T>(s: seq<T>, from: nat, to: int): seq<T>
  {
    var end := if to < 0 then |s| + to else if to < |s| then to else |s|;
    if from < end then s[from..end] else []
  }

  function Named<T>(cidOf: T -> string, cid: string): T -> bool
  {
    (x: T) => cidOf(x) == cid
  }

  /** The part of the list behind the cursor; an unknown or empty cursor leaves the whole list. */
  function AfterCursor<T(!new)>(list: seq<T>, cidOf: T -> string, cursor: Option<string>): seq<T>
  {
    if cursor.None? || cursor.value == "" then list
    else list[FindIndex(list, Named(cidOf, cursor.value)) + 1..]
  }

  /** The first page of a list; none when the code would read the CID of a missing last entry. */
  function FirstPage<T>(rest: seq<T>, cidOf: T -> string, limit: int): Option<Page<T>>
  {
    var results := JsSlice(rest, 0, limit);
    if |rest| <= limit then Some(Page(results, None, false, |rest|))
    else if results == [] then None
    else Some(Page(results, Some(cidOf(results[|results| - 1])), true, |rest|))
  }

  /** One page of an index query. */
  function PageOf<T(!new)>(list: seq<T>, cidOf: T -> string, limit: int, cursor: Option<string>): Option<Page<T>>
  {
    FirstPage(AfterCursor(list, cidOf, cursor), cidOf, limit)
  }

  /** The steps of an index query behind the sort: cut behind the cursor if it is found, then cut to the limit. */
  method CutPage<T(!new)>(list: seq<T>, cidOf: T -> string, limit: int, cursor: Option<string>)
    returns (page: Option<Page<T>>)
    ensures page == PageOf(list, cidOf, limit, cursor)
  {
    var entries := CutBehind(list, cidOf, cursor);
    page := CutToLimit(entries, cidOf, limit);
  }

  method CutBehind<T(!new)>(list: seq<T>, cidOf: T -> string, cursor: Option<string>) returns (entries: seq<T>)
    ensures entries == AfterCursor(list, cidOf, cursor)
  {
    entries := list;
    if cursor.Some? && cursor.value != "" {
      var cursorIndex := FindIndex(entries, Named(cidOf, cursor.value));
      if cursorIndex >= 0 {
        entries := entries[cursorIndex + 1..];
      }
    }
  }

  method CutToLimit<T>(entries: seq<T>, cidOf: T -> string, limit: int) returns (page: Option<Page<T>>)
    ensures page == FirstPage(entries, cidOf, limit)
  {
    var hasMore := |entries| > limit;
    var results := JsSlice(entries, 0, limit);
    var nextCursor: Option<string> := None;
    if hasMore {
      if results == [] {
        return None;
      }
      nextCursor := Some(cidOf(results[|results| - 1]));
    }
    page := Some(Page(results, nextCursor, hasMore, |entries|));
  }

  /** Where a page begins: behind the entry the cursor names, or at the start. */
  function StartOf<T(!new)>(list: seq<T>, cidOf: T -> string, cursor: Option<string>): (r: nat)
    ensures r <= |list|
    ensures r > 0 ==> cursor == Some(cidOf(list[r - 1]))
  {
    if cursor.None? || cursor.value == "" then 0 else FindIndex(list, Named(cidOf, cursor.value)) + 1
  }

  /** A page is the next `limit` entries, and names its last entry exactly if there are more. */
  ghost predicate IsPage<T(!new)>(
    list: seq<T>, cidOf: T -> string, limit: nat, cursor: Option<string>, page: Option<Page<T>>)
  {
    var start := StartOf(list, cidOf, cursor);
    var end := if start + limit < |list| then start + limit else |list|;
    && (page.None? <==> start < |list| && limit == 0)
    && (page.Some? ==>
          && page.value.entries == list[start..end] && page.value.total == |list| - start
          && (page.value.hasMore <==> end < |list|)
          && page.value.cursor == if end < |list| then Some(cidOf(list[end - 1])) else None)
  }

  lemma AfterCursorIs<T(!new)>(list: seq<T>, cidOf: T -> string, cursor: Option<string>)
    ensures AfterCursor(list, cidOf, cursor) == list[StartOf(list, cidOf, cursor)..]
  {
  }

  lemma PageIsSlice<T(!new)>(list: seq<T>, cidOf: T -> string, limit: nat, cursor: Option<string>)
    ensures IsPage(list, cidOf, limit, cursor, PageOf(list, cidOf, limit, cursor))
  {
    var start := StartOf(list, cidOf, cursor);
    var rest := list[start..];
    AfterCursorIs(list, cidOf, cursor);
    assert JsSlice(rest, 0, limit) == list[start..if start + limit < |list| then start + limit else |list|];
  }

  lemma PageWithin<T(!new)>(list: seq<T>, cidOf: T -> string, limit: nat, cursor: Option<string>, page: Option<Page<T>>)
    requires IsPage(list, cidOf, limit, cursor, page)
    ensures page.Some? ==> forall e :: e in page.value.entries ==> e in list
  {
  }

  /** One page of `getFeedEvents`, which works with a start index instead of a shortened list. */
  function FeedPageOf<T(!new)>(list: seq<T>, cidOf: T -> string, limit: int, cursor: Option<string>): Option<Page<T>>
  {
    var startIndex := StartOf(list, cidOf, cursor);
    var events := JsSlice(list, startIndex, startIndex + limit);
    if startIndex + limit >= |list| then Some(Page(events, None, false, |list| - startIndex))
    else if events == [] then None
    else Some(Page(events, Some(cidOf(events[|events| - 1])), true, |list| - startIndex))
  }

  method CutFeedPage<T(!new)>(list: seq<T>, cidOf: T -> string, limit: int, cursor: Option<string>)
    returns (page: Option<Page<T>>)
    ensures page == FeedPageOf(list, cidOf, limit, cursor)
  {
    var startIndex: nat := 0;
    if cursor.Some? && cursor.value != "" {
      startIndex := FindIndex(list, Named(cidOf, cursor.value)) + 1;
    }
    assert startIndex == StartOf(list, cidOf, cursor);
    var events := JsSlice(list, startIndex, startIndex + limit);
    var hasMore := startIndex + limit < |list|;
    var nextCursor: Option<string> := None;
    if hasMore {
      if events == [] {
        return None;
      }
      nextCursor := Some(cidOf(events[|events| - 1]));
    }
    page := Some(Page(events, nextCursor, hasMore, |list| - startIndex));
  }

  lemma JsSliceShift<T>(list: seq<T>, start: nat, limit: nat)
    requires start <= |list|
    ensures JsSlice(list, start, start + limit) == JsSlice(list[start..], 0, limit)
  {
    if start + limit < |list| {
      assert list[start..start + limit] == list[start..][0..limit];
    } else {
      assert list[start..|list|] == list[start..][0..|list| - start];
    }
  }

  /** Both ways of paging give the same pages. */
  lemma FeedPageIsPage<T(!new)>(list: seq<T>, cidOf: T -> string, limit: nat, cursor: Option<string>)
    ensures FeedPageOf(list, cidOf, limit, cursor) == PageOf(list, cidOf, limit, cursor)
  {
    var start := StartOf(list, cidOf, cursor);
    AfterCursorIs(list, cidOf, cursor);
    JsSliceShift(list, start, limit);
  }

  /**
   * A negative limit cuts that many entries off the end and always claims that there is more; it fails where nothing is
   * left to name. By start index it does so only for limits that reach behind the beginning of the list.
   */
  lemma NegativeLimit<T(!new)>(list: seq<T>, cidOf: T -> string, limit: int, cursor: Option<string>)
    requires limit < 0
    ensures var start := StartOf(list, cidOf, cursor);
            var end := |list| + limit;
            PageOf(list, cidOf, limit, cursor) ==
            if end <= start then None
            else Some(Page(list[start..end], Some(cidOf(list[end - 1])), true, |list| - start))
    ensures var start := StartOf(list, cidOf, cursor);
            var end := |list| + start + limit;
            FeedPageOf(list, cidOf, limit, cursor) ==
            if start + limit >= 0 || end <= start then None
            else Some(Page(list[start..end], Some(cidOf(list[end - 1])), true, |list| - start))
  {
    AfterCursorIs(list, cidOf, cursor);
    var start := StartOf(list, cidOf, cursor);
    if start < |list| + limit {
      assert list[start..][0..|list| - start + limit] == list[start..|list| + limit];
    }
  }

  /** A query with everything but the cursor fixed. */
  type Pages<!T> = Option<string> -> Option<Page<T>>

  function IndexPages<T(!new)>(list: seq<T>, cidOf: T -> string, limit: int): Pages<T>
  {
    (cursor: Option<string>) => PageOf(list, cidOf, limit, cursor)
  }

  function FeedPages<T(!new)>(list: seq<T>, cidOf: T -> string, limit: int): Pages<T>
  {
    (cursor: Option<string>) => FeedPageOf(list, cidOf, limit, cursor)
  }

  /** Follows the cursors from one page to the next for at most `rounds` pages; none if that did not reach the end. */
  function Collect<T>(pages: Pages<T>, cursor: Option<string>, rounds: nat): Option<seq<T>>
    decreases rounds
  {
    if rounds == 0 || pages(cursor).None? then None
    else
      var page := pages(cursor).value;
      if !page.hasMore then Some(page.entries)
      else
        var rest := Collect(pages, page.cursor, rounds - 1);
        if rest.None? then None else Some(page.entries + rest.value)
  }

  ghost predicate DistinctKeys<T>(list: seq<T>, cidOf: T -> string)
  {
    forall i, j :: 0 <= i < j < |list| ==> cidOf(list[i]) != cidOf(list[j])
  }

  /** From position `pos` on, no page ends with an entry whose CID is the empty string. */
  predicate BoundariesNamed<T>(list: seq<T>, cidOf: T -> string, limit: nat, pos: nat)
    requires limit > 0
    decreases |list| - pos
  {
    pos + limit >= |list| ||
    (cidOf(list[pos + limit - 1]) != "" && BoundariesNamed(list, cidOf, limit, pos + limit))
  }

  /** The cursor stands behind the first `pos` entries; an empty one stands at the beginning. */
  ghost predicate StandsAt<T>(list: seq<T>, cidOf: T -> string, cursor: Option<string>, pos: nat)
  {
    if cursor.None? || cursor.value == "" then pos == 0
    else 0 < pos <= |list| && cursor.value == cidOf(list[pos - 1])
  }

  function MiddlePage<T>(list: seq<T>, cidOf: T -> string, limit: nat, pos: nat): Page<T>
    requires limit > 0 && pos <= |list|
  {
    if pos + limit >= |list| then Page(list[pos..], None, false, |list| - pos)
    else Page(list[pos..pos + limit], Some(cidOf(list[pos + limit - 1])), true, |list| - pos)
  }

  /** From wherever the cursor stands the query serves the next `limit` entries. */
  ghost predicate Serves<T(!new)>(pages: Pages<T>, list: seq<T>, cidOf: T -> string, limit: nat)
    requires limit > 0
  {
    forall cursor: Option<string>, pos: nat ::
      StandsAt(list, cidOf, cursor, pos) ==> pos <= |list| && pages(cursor) == Some(MiddlePage(list, cidOf, limit, pos))
  }

  lemma CursorFinds<T(!new)>(list: seq<T>, cidOf: T -> string, cursor: Option<string>, pos: nat)
    requires DistinctKeys(list, cidOf) && StandsAt(list, cidOf, cursor, pos)
    ensures AfterCursor(list, cidOf, cursor) == list[pos..]
  {
    if pos > 0 {
      var at := FindIndex(list, Named(cidOf, cursor.value));
      assert 0 <= at <= pos - 1;
      assert cidOf(list[at]) == cidOf(list[pos - 1]);
    }
  }

  lemma PageAt<T(!new)>(list: seq<T>, cidOf: T -> string, limit: nat, cursor: Option<string>, pos: nat)
    requires limit > 0 && DistinctKeys(list, cidOf) && StandsAt(list, cidOf, cursor, pos)
    ensures PageOf(list, cidOf, limit, cursor) == Some(MiddlePage(list, cidOf, limit, pos))
  {
    CursorFinds(list, cidOf, cursor, pos);
    var rest := list[pos..];
    assert |rest| > limit ==> JsSlice(rest, 0, limit) == list[pos..pos + limit];
    assert |rest| <= limit ==> JsSlice(rest, 0, limit) == rest;
  }

  lemma QueriesServe<T(!new)>(list: seq<T>, cidOf: T -> string, limit: nat)
    requires limit > 0 && DistinctKeys(list, cidOf)
    ensures Serves(IndexPages(list, cidOf, limit), list, cidOf, limit)
    ensures Serves(FeedPages(list, cidOf, limit), list, cidOf, limit)
  {
    forall cursor: Option<string>, pos: nat | StandsAt(list, cidOf, cursor, pos)
      ensures IndexPages(list, cidOf, limit)(cursor) == Some(MiddlePage(list, cidOf, limit, pos))
      ensures FeedPages(list, cidOf, limit)(cursor) == Some(MiddlePage(list, cidOf, limit, pos))
    {
      PageAt(list, cidOf, limit, cursor, pos);
      FeedPageIsPage(list, cidOf, limit, cursor);
    }
  }

  lemma {:induction false} CollectFrom<T(!new)>(
    pages: Pages<T>, list: seq<T>, cidOf: T -> string, limit: nat, cursor: Option<string>, pos: nat, rounds: nat)
    requires limit > 0 && Serves(pages, list, cidOf, limit) && StandsAt(list, cidOf, cursor, pos)
    requires BoundariesNamed(list, cidOf, limit, pos) && rounds > |list| - pos
    ensures pos <= |list| && Collect(pages, cursor, rounds) == Some(list[pos..])
    decreases rounds
  {
    assert pages(cursor) == Some(MiddlePage(list, cidOf, limit, pos));
    if pos + limit < |list| {
      var last := Some(cidOf(list[pos + limit - 1]));
      CollectFrom(pages, list, cidOf, limit, last, pos + limit, rounds - 1);
      assert list[pos..pos + limit] + list[pos + limit..] == list[pos..];
    }
  }

  lemma {:induction false} CollectStuck<T(!new)>(
    pages: Pages<T>, list: seq<T>, cidOf: T -> string, limit: nat, cursor: Option<string>, pos: nat, rounds: nat)
    requires limit > 0 && Serves(pages, list, cidOf, limit) && StandsAt(list, cidOf, cursor, pos)
    requires !BoundariesNamed(list, cidOf, limit, pos) && !BoundariesNamed(list, cidOf, limit, 0)
    ensures Collect(pages, cursor, rounds) == None
    decreases rounds
  {
    assert pages(cursor) == Some(MiddlePage(list, cidOf, limit, pos));
    if rounds > 0 {
      var last := cidOf(list[pos + limit - 1]);
      CollectStuck(pages, list, cidOf, limit, Some(last), if last == "" then 0 else pos + limit, rounds - 1);
    }
  }

  /**
   * Following the cursors from the first page ends, with every entry exactly once and in order, if and only if no page
   * ends with an entry whose CID is empty: an empty cursor starts over.
   */
  lemma PagingCompleteIff<T(!new)>(pages: Pages<T>, list: seq<T>, cidOf: T -> string, limit: nat, rounds: nat)
    requires limit > 0 && DistinctKeys(list, cidOf) && rounds > |list|
    requires pages == IndexPages(list, cidOf, limit) || pages == FeedPages(list, cidOf, limit)
    ensures BoundariesNamed(list, cidOf, limit, 0) ==> Collect(pages, None, rounds) == Some(list)
    ensures !BoundariesNamed(list, cidOf, limit, 0) ==> forall n: nat :: Collect(pages, None, n) == None
  {
    QueriesServe(list, cidOf, limit);
    assert list[0..] == list;
    if BoundariesNamed(list, cidOf, limit, 0) {
      CollectFrom(pages, list, cidOf, limit, None, 0, rounds);
    } else {
      forall n: nat ensures Collect(pages, None, n) == None {
        CollectStuck(pages, list, cidOf, limit, None, 0, n);
      }
    }
  }

  /** Non-empty CIDs are enough, whatever the page size. */
  lemma {:induction false} NamedBoundaries<T>(list: seq<T>, cidOf: T -> string, limit: nat, pos: nat)
    requires limit > 0 && forall i :: 0 <= i < |list| ==> cidOf(list[i]) != ""
    ensures BoundariesNamed(list, cidOf, limit, pos)
    decreases |list| - pos
  {
    if pos + limit < |list| {
      NamedBoundaries(list, cidOf, limit, pos + limit);
    }
  }
}
