/** One incremental sync (`App.Run`): load the cached bookmarks, ask the API
    for the ones not yet held, fetch and store the text of each new one,
    then rebuild and save the feed from the cached bookmarks followed by the
    new ones. The storage, the API, the feed builder and the feed file are
    oracles: each answer is a parameter, indexed by the order of the calls
    where the same collaborator is asked repeatedly. The method also returns
    the sequence of collaborator calls it made. */
module Sync {

  import opened Results
  import opened Text
  import opened Decimal
  import opened Instapaper
  import OAuth

  /** A stored bookmark; `text` is filled in by the sync. */
  datatype Bookmark = Bookmark(id: int, title: string, url: string, time: int, hash: string, text: string)

  /** The collaborator calls `Run` can make. */
  datatype Call =
    | LoadBookmarks
    | ListBookmarks(params: map<string, string>)
    | FetchText(id: int)
    | WriteBookmark(bookmark: Bookmark)
    | BuildFeed(bookmarks: seq<Bookmark>)
    | SaveFeed(feed: string)

  // ---------------------------------------------------------------------
  // The `have` parameter
  // ---------------------------------------------------------------------

  /** The decimal rendering of each bookmark's ID, in stored order. */
  function Ids(bs: seq<Bookmark>): (r: seq<string>)
    ensures |r| == |bs|
    ensures forall i :: 0 <= i < |bs| ==> r[i] == Itoa(bs[i].id)
  {
    seq(|bs|, i requires 0 <= i < |bs| => Itoa(bs[i].id))
  }

  /** `concatBookmarksIDs`. */
  function ConcatIds(bs: seq<Bookmark>): string {
    Join(Ids(bs), ",")
  }

  /** For a non-empty cache of n bookmarks the `have` value holds n - 1
      commas, its i-th comma-separated field is the decimal rendering of
      the i-th cached ID, and parsing that field gives the ID back. */
  lemma ConcatIdsLayout(bs: seq<Bookmark>)
    requires |bs| > 0
    ensures multiset(ConcatIds(bs))[','] == |bs| - 1
    ensures Split(ConcatIds(bs), ',') == Ids(bs)
    ensures forall i :: 0 <= i < |bs| ==> Atoi(Split(ConcatIds(bs), ',')[i]) == Some(bs[i].id)
  {
    var ids := Ids(bs);
    forall k | 0 <= k < |ids|
      ensures ',' !in ids[k]
    {
      ItoaHasNoSeparators(bs[k].id);
    }
    SplitJoin(ids, ',');
    JoinSeparatorCount(ids, ',');
    forall i | 0 <= i < |bs|
      ensures Atoi(ids[i]) == Some(bs[i].id)
    {
      ItoaRoundTrip(bs[i].id);
    }
  }

  /** The request parameters of the listing: `have` is present exactly when
      the cache is non-empty, and nothing else is ever sent. */
  function HaveParams(existing: seq<Bookmark>): (params: map<string, string>)
    ensures params.Keys <= {"have"}
    ensures "have" in params <==> |existing| > 0
    ensures "have" in params ==> Split(params["have"], ',') == Ids(existing)
  {
    if |existing| > 0 then
      ConcatIdsLayout(existing);
      map["have" := ConcatIds(existing)]
    else map[]
  }

  /** The two listing requests the tests expect: none for an empty cache,
      `have=1` for a cache holding bookmark 1. */
  lemma HaveParamsExamples(b: Bookmark)
    requires b.id == 1
    ensures HaveParams([]) == map[]
    ensures HaveParams([b]) == map["have" := "1"]
  {
    assert Itoa(1) == "1";
  }

  /** The listing posts to `bookmarks/list` an empty body for an empty
      cache, and otherwise the single field `have`, the comma-joined IDs. */
  lemma ListRequestFields(
    c: Client, existing: seq<Bookmark>, randomNonce: string, now: string,
    parseUrl: string -> Result<OAuth.Url>, mac: (string, string) -> string)
    ensures var r := CallApi(c, ListEndpoint, HaveParams(existing), randomNonce, now, parseUrl, mac);
            r.Ok? ==>
              && r.value.url == parseUrl(c.baseEndpoint + "bookmarks/list").value
              && (|existing| == 0 ==> r.value.body == "")
              && (|existing| > 0 ==> Split(r.value.body, '&') == [OAuth.Pair("have", ConcatIds(existing))])
  {
    OAuth.ParamStringSingle("have", ConcatIds(existing));
  }

  // ---------------------------------------------------------------------
  // Filtering the listing
  // ---------------------------------------------------------------------

  predicate IsBookmark(it: Item) {
    it.kind == "bookmark"
  }

  /** The stored form of a listed bookmark, before its text is known. */
  function ToBookmark(it: Item): Bookmark {
    Bookmark(it.bookmarkId, it.title, it.url, it.time, it.hash, "")
  }

  /** The new bookmarks of a listing: the bookmark-typed items, in listing
      order; user, error and any other items are dropped. */
  function NewBookmarks(items: seq<Item>): (r: seq<Bookmark>)
    ensures |r| <= |items|
    ensures |r| == 0 <==> forall i :: 0 <= i < |items| ==> !IsBookmark(items[i])
    ensures forall i :: 0 <= i < |items| && IsBookmark(items[i]) ==> ToBookmark(items[i]) in r
    ensures forall b :: b in r ==> exists i :: 0 <= i < |items| && IsBookmark(items[i]) && b == ToBookmark(items[i])
    decreases |items|
  {
    if |items| == 0 then []
    else
      var rest := NewBookmarks(items[1..]);
      assert forall i :: 1 <= i < |items| ==> items[i] == items[1..][i - 1];
      if IsBookmark(items[0]) then [ToBookmark(items[0])] + rest else rest
  }

  /** One step of the filter: the head item, kept or dropped, then the
      filtered rest. */
  lemma NewBookmarksCons(items: seq<Item>)
    requires |items| > 0
    ensures NewBookmarks(items)
         == (if IsBookmark(items[0]) then [ToBookmark(items[0])] else []) + NewBookmarks(items[1..])
  {
  }

  /** Filtering respects concatenation, so the new bookmarks keep the
      relative order of the listing. */
  lemma {:induction false} NewBookmarksAppend(a: seq<Item>, b: seq<Item>)
    ensures NewBookmarks(a + b) == NewBookmarks(a) + NewBookmarks(b)
    decreases |a|
  {
    if |a| > 0 {
      var head := if IsBookmark(a[0]) then [ToBookmark(a[0])] else [];
      assert (a + b)[0] == a[0];
      assert (a + b)[1..] == a[1..] + b;
      NewBookmarksCons(a + b);
      NewBookmarksCons(a);
      NewBookmarksAppend(a[1..], b);
      assert head + (NewBookmarks(a[1..]) + NewBookmarks(b)) == (head + NewBookmarks(a[1..])) + NewBookmarks(b);
    } else {
      assert a + b == b;
    }
  }

  /** The listing of the test: a user item followed by one bookmark yields
      just that bookmark. */
  lemma NewBookmarksExample(user: Item, item: Item)
    requires user.kind == "user" && item.kind == "bookmark"
    ensures NewBookmarks([user, item]) == [ToBookmark(item)]
  {
    assert [user, item][1..] == [item];
    assert [item][1..] == [];
  }

  // ---------------------------------------------------------------------
  // Text fetching and storing
  // ---------------------------------------------------------------------

  /** The j-th new bookmark with the text of the j-th fetch. */
  function Enrich(nb: seq<Bookmark>, fetchText: nat -> Result<string>, j: nat): Bookmark
    requires j < |nb|
  {
    nb[j].(text := TextOr(fetchText(j)))
  }

  /** The first k new bookmarks, text filled in. */
  function Enriched(nb: seq<Bookmark>, fetchText: nat -> Result<string>, k: nat): (r: seq<Bookmark>)
    requires k <= |nb|
    ensures |r| == k
    ensures forall j :: 0 <= j < k ==> r[j] == Enrich(nb, fetchText, j)
  {
    seq(k, j requires 0 <= j < k => Enrich(nb, fetchText, j))
  }

  /** Where the per-bookmark loop stops, searching from `from`: the first
      bookmark whose fetch fails or whose write fails, or the end. */
  function FirstFailure(nb: seq<Bookmark>, fetchText: nat -> Result<string>, write: nat -> Outcome, from: nat): (f: nat)
    requires from <= |nb|
    ensures from <= f <= |nb|
    ensures forall j :: from <= j < f ==> fetchText(j).Ok? && write(j).Pass?
    ensures f < |nb| ==> fetchText(f).Err? || write(f).Fail?
    decreases |nb| - from
  {
    if from == |nb| then from
    else if fetchText(from).Err? || write(from).Fail? then from
    else FirstFailure(nb, fetchText, write, from + 1)
  }

  /** The calls of the first k rounds of the loop: fetch, then write. */
  function Steps(nb: seq<Bookmark>, fetchText: nat -> Result<string>, k: nat): seq<Call>
    requires k <= |nb|
  {
    if k == 0 then []
    else Steps(nb, fetchText, k - 1) + [FetchText(nb[k - 1].id), WriteBookmark(Enrich(nb, fetchText, k - 1))]
  }

  /** Round j of the loop fetches the j-th bookmark's text and then writes
      that bookmark with the text; the rounds run in order. */
  lemma {:induction false} StepsLayout(nb: seq<Bookmark>, fetchText: nat -> Result<string>, k: nat)
    requires k <= |nb|
    ensures |Steps(nb, fetchText, k)| == 2 * k
    ensures forall j :: 0 <= j < k ==> Steps(nb, fetchText, k)[2 * j] == FetchText(nb[j].id)
    ensures forall j :: 0 <= j < k ==> Steps(nb, fetchText, k)[2 * j + 1] == WriteBookmark(Enrich(nb, fetchText, j))
    decreases k
  {
    if k > 0 {
      StepsLayout(nb, fetchText, k - 1);
    }
  }

  // ---------------------------------------------------------------------
  // Run
  // ---------------------------------------------------------------------

  function LoadError(cause: string): string {
    "error getting existing bookmarks: " + cause
  }

  function ListError(cause: string): string {
    "error getting bookmarks: " + cause
  }

  function TextError(id: int, cause: string): string {
    "error getting bookmark " + Itoa(id) + " text: " + cause
  }

  function WriteError(id: int, cause: string): string {
    "error writing bookmark " + Itoa(id) + " text: " + cause
  }

  function BuildError(cause: string): string {
    "error building feed: " + cause
  }

  /** The error texts the tests expect. */
  lemma ErrorMessageExamples()
    ensures LoadError("storage error") == "error getting existing bookmarks: storage error"
    ensures ListError("API error") == "error getting bookmarks: API error"
    ensures TextError(1, "text fetch error") == "error getting bookmark 1 text: text fetch error"
    ensures WriteError(1, "storage error") == "error writing bookmark 1 text: storage error"
  {
    TextErrorExample();
    WriteErrorExample();
  }

  lemma TextErrorExample()
    ensures TextError(1, "text fetch error") == "error getting bookmark 1 text: text fetch error"
  {
    ItoaOne();
  }

  lemma WriteErrorExample()
    ensures WriteError(1, "storage error") == "error writing bookmark 1 text: storage error"
  {
    ItoaOne();
  }

  lemma ItoaOne()
    ensures Itoa(1) == "1"
  {
    assert NatToString(1) == [DigitChar(1)];
  }

  /** `Outcome` as Go's nil-able error. */
  function ErrorOf(o: Outcome): Option<string> {
    match o
    case Pass => None
    case Fail(e) => Some(e)
  }

  /** The per-bookmark loop of `App.Run`: for each new bookmark in order,
      fetch its text and write it with that text, stopping at the first
      failure. On success the bookmarks come back with their texts. */
  method StoreTexts(nb: seq<Bookmark>, fetchText: nat -> Result<string>, write: nat -> Outcome)
    returns (done: seq<Bookmark>, failed: Option<string>, trace: seq<Call>)
    ensures var f := FirstFailure(nb, fetchText, write, 0);
            f == |nb| ==> failed.None? && done == Enriched(nb, fetchText, |nb|) && trace == Steps(nb, fetchText, |nb|)
    ensures var f := FirstFailure(nb, fetchText, write, 0);
            f < |nb| && fetchText(f).Err? ==>
              && failed == Some(TextError(nb[f].id, fetchText(f).error))
              && trace == Steps(nb, fetchText, f) + [FetchText(nb[f].id)]
    ensures var f := FirstFailure(nb, fetchText, write, 0);
            f < |nb| && fetchText(f).Ok? ==>
              && failed == Some(WriteError(nb[f].id, write(f).error))
              && trace == Steps(nb, fetchText, f) + [FetchText(nb[f].id), WriteBookmark(Enrich(nb, fetchText, f))]
  {
    ghost var f := FirstFailure(nb, fetchText, write, 0);
    done := [];
    trace := [];
    var i := 0;
    while i < |nb|
      invariant 0 <= i <= f
      invariant done == Enriched(nb, fetchText, i)
      invariant trace == Steps(nb, fetchText, i)
    {
      var text := fetchText(i);
      if text.Err? {
        assert i == f;
        return done, Some(TextError(nb[i].id, text.error)), trace + [FetchText(nb[i].id)];
      }
      var b := nb[i].(text := text.value);
      assert b == Enrich(nb, fetchText, i);
      var written := write(i);
      if written.Fail? {
        assert i == f;
        return done, Some(WriteError(nb[i].id, written.error)), trace + [FetchText(nb[i].id), WriteBookmark(b)];
      }
      assert i < f;
      assert Enriched(nb, fetchText, i + 1) == done + [b];
      done := done + [b];
      trace := trace + [FetchText(nb[i].id), WriteBookmark(b)];
      i := i + 1;
    }
    failed := None;
  }

  /** What the sync promises once the listing is in: with `f` the first
      failing bookmark, a failed fetch or write of bookmark `f` ends the run
      with that bookmark's error after `f` complete rounds; no new bookmark
      ends it with nothing to report; otherwise the feed is built once, from
      the cached bookmarks followed by the new ones with their texts, and
      saved when building succeeded. `tail` is the trace after the listing. */
  ghost predicate PublishSpec(
    existing: seq<Bookmark>,
    nb: seq<Bookmark>,
    fetchText: nat -> Result<string>,
    write: nat -> Outcome,
    build: seq<Bookmark> -> Result<string>,
    save: string -> Outcome,
    count: int,
    err: Option<string>,
    tail: seq<Call>)
  {
    var f := FirstFailure(nb, fetchText, write, 0);
    var all := existing + Enriched(nb, fetchText, |nb|);
    && (f < |nb| && fetchText(f).Err? ==>
          && count == 0
          && err == Some(TextError(nb[f].id, fetchText(f).error))
          && tail == Steps(nb, fetchText, f) + [FetchText(nb[f].id)])
    && (f < |nb| && fetchText(f).Ok? ==>
          && count == 0
          && err == Some(WriteError(nb[f].id, write(f).error))
          && tail == Steps(nb, fetchText, f) + [FetchText(nb[f].id), WriteBookmark(Enrich(nb, fetchText, f))])
    && (|nb| == 0 ==> count == 0 && err.None? && tail == [])
    && (|nb| > 0 && f == |nb| && build(all).Err? ==>
          && count == 0
          && err == Some(BuildError(build(all).error))
          && tail == Steps(nb, fetchText, |nb|) + [BuildFeed(all)])
    && (|nb| > 0 && f == |nb| && build(all).Ok? ==>
          && count == |nb|
          && err == ErrorOf(save(build(all).value))
          && tail == Steps(nb, fetchText, |nb|) + [BuildFeed(all), SaveFeed(build(all).value)])
  }

  /** The part of `App.Run` after the listing: store the new bookmarks'
      texts, then build and save the feed. */
  method Publish(
    existing: seq<Bookmark>,
    nb: seq<Bookmark>,
    fetchText: nat -> Result<string>,
    write: nat -> Outcome,
    build: seq<Bookmark> -> Result<string>,
    save: string -> Outcome)
    returns (count: int, err: Option<string>, tail: seq<Call>)
    ensures PublishSpec(existing, nb, fetchText, write, build, save, count, err, tail)
  {
    var done, failed, trace := StoreTexts(nb, fetchText, write);
    if failed.Some? {
      return 0, failed, trace;
    }
    if |nb| == 0 {
      return 0, None, trace;
    }
    var all := existing + done;
    var feed := build(all);
    if feed.Err? {
      return 0, Some(BuildError(feed.error)), trace + [BuildFeed(all)];
    }
    return |nb|, ErrorOf(save(feed.value)), trace + [BuildFeed(all), SaveFeed(feed.value)];
  }

  /** `App.Run`. `stored` is the cache read; `list` the API's listing for
      the parameters sent; `fetchText(j)` and `write(j)` the answers to the
      j-th text fetch and j-th bookmark write; `build` the feed builder;
      `save` the outcome of writing the feed file. */
  method Run(
    stored: Result<seq<Bookmark>>,
    list: map<string, string> -> Result<seq<Item>>,
    fetchText: nat -> Result<string>,
    write: nat -> Outcome,
    build: seq<Bookmark> -> Result<string>,
    save: string -> Outcome)
    returns (count: int, err: Option<string>, calls: seq<Call>)
    // a failed cache read stops everything
    ensures stored.Err? ==>
              count == 0 && err == Some(LoadError(stored.error)) && calls == [LoadBookmarks]
    // otherwise the listing is requested, with `have` for a non-empty cache
    ensures stored.Ok? ==>
              |calls| >= 2 && calls[..2] == [LoadBookmarks, ListBookmarks(HaveParams(stored.value))]
    // a failed listing stops before any text is fetched
    ensures stored.Ok? && list(HaveParams(stored.value)).Err? ==>
              && count == 0
              && err == Some(ListError(list(HaveParams(stored.value)).error))
              && |calls| == 2
    // after a listing, the new bookmarks are stored and the feed published
    ensures stored.Ok? && list(HaveParams(stored.value)).Ok? ==>
              PublishSpec(stored.value, NewBookmarks(list(HaveParams(stored.value)).value),
                          fetchText, write, build, save, count, err, calls[2..])
  {
    if stored.Err? {
      return 0, Some(LoadError(stored.error)), [LoadBookmarks];
    }
    var existing := stored.value;
    var params := HaveParams(existing);
    var head := [LoadBookmarks, ListBookmarks(params)];
    var listed := list(params);
    if listed.Err? {
      return 0, Some(ListError(listed.error)), head;
    }
    var tail;
    count, err, tail := Publish(existing, NewBookmarks(listed.value), fetchText, write, build, save);
    calls := head + tail;
    assert calls[2..] == tail;
  }
}
