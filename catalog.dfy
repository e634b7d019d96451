/**
 * The catalog of known Bentos (loadBentoList) and the per-feed cache of
 * member names (fetchMemberNames / getMemberNames).
 */
module Catalog {
  import opened Wrappers
  import opened Json
  import opened Todo
  import opened StateCodec
  import opened Feed

  /** One row of the root query: the root's local id and its feed id. */
  datatype CatalogRow = CatalogRow(localId: int, feedId: int)

  /** A listed Bento: its header, its item count, its root and feed. */
  datatype BentoSummary = BentoSummary(
    uuid: string,
    name: string,
    creContactId: string,
    numberOfTodo: nat,
    objId: int,
    feedId: int)

  /** An element of mBentoList: a Bento, or a disabled divider for a feed. */
  datatype CatalogEntry = Listed(summary: BentoSummary) | Divider(feedId: int)

  function FeedOf(e: CatalogEntry): int {
    match e
    case Listed(s) => s.feedId
    case Divider(f) => f
  }

  /** What the loop body does with one root. */
  datatype RowOutcome =
    | Skipped                     // no usable state
    | Shown(summary: BentoSummary) // listed; members fetched
    | MembersOnly(feedId: int)    // bento read, list not; members fetched
    | RowCrash                    // a null is dereferenced

  /** The JSON of the lookup is present wherever a lookup found a record. */
  predicate Parsed(latest: Option<LatestObj>) {
    latest.Some? ==> latest.value.json.Some?
  }

  /** The steps once the `state` object is in hand. */
  function OutcomeForState(state: Doc, row: CatalogRow): RowOutcome {
    match FetchBentoObj(state, EmptyBento)
    case None => Skipped
    case Some(b) =>
      var list := FetchTodoList(state);
      if list.ok then Shown(BentoSummary(b.uuid, b.name, b.creContactId, |list.items|, row.localId, row.feedId))
      else MembersOnly(row.feedId)
  }

  /**
   * The loop body as written: a `state` that is not an object gives a null
   * stateObj, and fetchBentoObj dereferences it.
   */
  function RowOutcomeAsWritten(latest: Option<LatestObj>, row: CatalogRow): RowOutcome
    requires Parsed(latest)
  {
    if latest.None? || !Has(latest.value.json.value, STATE) then Skipped
    else
      match OptObject(latest.value.json.value, STATE)
      case None => RowCrash
      case Some(state) => OutcomeForState(state, row)
  }

  /** The loop body with a non-object `state` skipped like a missing one. */
  function RowOutcomeFor(latest: Option<LatestObj>, row: CatalogRow): (r: RowOutcome)
    requires Parsed(latest)
    ensures r != RowCrash
    ensures r.Shown? ==> r.summary.objId == row.localId && r.summary.feedId == row.feedId
  {
    if latest.None? || !Has(latest.value.json.value, STATE) then Skipped
    else
      match OptObject(latest.value.json.value, STATE)
      case None => Skipped
      case Some(state) => OutcomeForState(state, row)
  }

  lemma ScalarStateCrashesRow(row: CatalogRow)
    ensures RowOutcomeAsWritten(Some(LatestObj(Some(map[STATE := JBool(true)]), 0)), row) == RowCrash
  {
  }

  lemma RowOutcomeAgrees(latest: Option<LatestObj>, row: CatalogRow)
    requires Parsed(latest)
    ensures RowOutcomeAsWritten(latest, row) != RowCrash ==>
      RowOutcomeFor(latest, row) == RowOutcomeAsWritten(latest, row)
    ensures RowOutcomeAsWritten(latest, row) == RowCrash ==> RowOutcomeFor(latest, row) == Skipped
  {
  }

  /** Every root of `rows` resolves to a parsed document or to nothing. */
  predicate AllParsed(records: seq<Record>, rows: seq<CatalogRow>) {
    forall i :: 0 <= i < |rows| ==> Parsed(FetchLatestObj(records, rows[i].localId))
  }

  /** The classification of root `i`. */
  function OutcomeAt(records: seq<Record>, rows: seq<CatalogRow>, i: nat): RowOutcome
    requires AllParsed(records, rows) && i < |rows|
  {
    RowOutcomeFor(FetchLatestObj(records, rows[i].localId), rows[i])
  }

  /** tmpList: the listed summaries, each new one added at the front. */
  function Listing(records: seq<Record>, rows: seq<CatalogRow>): seq<BentoSummary>
    requires AllParsed(records, rows)
  {
    if rows == [] then []
    else
      var n := |rows| - 1;
      var o := OutcomeAt(records, rows, n);
      (if o.Shown? then [o.summary] else []) + Listing(records, rows[..n])
  }

  /** The feeds whose members are fetched, in row order. */
  function MemberFeeds(records: seq<Record>, rows: seq<CatalogRow>): seq<int>
    requires AllParsed(records, rows)
  {
    if rows == [] then []
    else
      var n := |rows| - 1;
      var o := OutcomeAt(records, rows, n);
      MemberFeeds(records, rows[..n]) +
        (if o.Shown? then [o.summary.feedId] else if o.MembersOnly? then [o.feedId] else [])
  }

  /** The summary of every shown row is in the catalog. */
  lemma {:induction false} ListingShowsEveryListedRow(records: seq<Record>, rows: seq<CatalogRow>, i: nat)
    requires AllParsed(records, rows) && i < |rows|
    requires OutcomeAt(records, rows, i).Shown?
    ensures OutcomeAt(records, rows, i).summary in Listing(records, rows)
  {
    var n := |rows| - 1;
    var o := OutcomeAt(records, rows, n);
    if i < n {
      assert OutcomeAt(records, rows[..n], i) == OutcomeAt(records, rows, i);
      ListingShowsEveryListedRow(records, rows[..n], i);
    }
  }

  /** Every summary in the catalog is the summary of a shown row. */
  lemma {:induction false} ListedRowsWereShown(records: seq<Record>, rows: seq<CatalogRow>)
    requires AllParsed(records, rows)
    ensures forall s :: s in Listing(records, rows) ==>
      exists i :: 0 <= i < |rows| && OutcomeAt(records, rows, i).Shown? && OutcomeAt(records, rows, i).summary == s
  {
    if rows != [] {
      var n := |rows| - 1;
      var o := OutcomeAt(records, rows, n);
      ListedRowsWereShown(records, rows[..n]);
      forall s | s in Listing(records, rows)
        ensures exists i :: 0 <= i < |rows| && OutcomeAt(records, rows, i).Shown? && OutcomeAt(records, rows, i).summary == s
      {
        if o.Shown? && s == o.summary {
          assert OutcomeAt(records, rows, n).summary == s;
        } else {
          assert s in Listing(records, rows[..n]);
          var i :| 0 <= i < n && OutcomeAt(records, rows[..n], i).Shown? && OutcomeAt(records, rows[..n], i).summary == s;
          assert OutcomeAt(records, rows[..n], i) == OutcomeAt(records, rows, i);
        }
      }
    }
  }

  /** The catalog of a prefix of the rows is a suffix of the whole catalog. */
  lemma {:induction false} ListingOfPrefixIsSuffix(records: seq<Record>, rows: seq<CatalogRow>, m: nat)
    requires AllParsed(records, rows) && m <= |rows|
    ensures var whole := Listing(records, rows);
      var part := Listing(records, rows[..m]);
      |part| <= |whole| && whole[|whole| - |part|..] == part
  {
    if m < |rows| {
      var n := |rows| - 1;
      ListingOfPrefixIsSuffix(records, rows[..n], m);
      assert rows[..n][..m] == rows[..m];
    } else {
      assert rows[..m] == rows;
    }
  }

  /**
   * Where row `i`'s summary sits: after the summaries of the rows that
   * follow it (add(0, item) puts each new summary first).
   */
  lemma ListingPlacesRow(records: seq<Record>, rows: seq<CatalogRow>, i: nat)
    requires AllParsed(records, rows) && i < |rows|
    requires OutcomeAt(records, rows, i).Shown?
    ensures var whole := Listing(records, rows);
      var p := |whole| - |Listing(records, rows[..i + 1])|;
      0 <= p < |whole| && whole[p] == OutcomeAt(records, rows, i).summary
  {
    var before := rows[..i + 1];
    assert before[..i] == rows[..i];
    assert OutcomeAt(records, before, i) == OutcomeAt(records, rows, i);
    assert Listing(records, before) == [OutcomeAt(records, rows, i).summary] + Listing(records, rows[..i]);
    ListingOfPrefixIsSuffix(records, rows, i + 1);
  }

  /** Listing reverses row order: a later shown row's summary comes first. */
  lemma ListingReversesRows(records: seq<Record>, rows: seq<CatalogRow>, i: nat, j: nat)
    requires AllParsed(records, rows) && i < j < |rows|
    requires OutcomeAt(records, rows, i).Shown? && OutcomeAt(records, rows, j).Shown?
    ensures var whole := Listing(records, rows);
      var pi := |whole| - |Listing(records, rows[..i + 1])|;
      var pj := |whole| - |Listing(records, rows[..j + 1])|;
      0 <= pj < pi < |whole| &&
      whole[pj] == OutcomeAt(records, rows, j).summary && whole[pi] == OutcomeAt(records, rows, i).summary
  {
    ListingPlacesRow(records, rows, i);
    ListingPlacesRow(records, rows, j);
    var upTo := rows[..j];
    assert upTo[..i + 1] == rows[..i + 1];
    ListingOfPrefixIsSuffix(records, upTo, i + 1);
    var before := rows[..j + 1];
    assert before[..j] == upTo;
    assert OutcomeAt(records, before, j) == OutcomeAt(records, rows, j);
    assert |Listing(records, before)| == |Listing(records, upTo)| + 1;
  }

  // ---------------------------------------------------------------
  // Dividers
  // ---------------------------------------------------------------

  /**
   * The divider pass: before each summary whose feed differs from the one
   * before it (`prev` at the start), a divider for its feed.
   */
  function WithDividers(items: seq<BentoSummary>, prev: int): seq<CatalogEntry> {
    if items == [] then []
    else
      (if items[0].feedId != prev then [Divider(items[0].feedId)] else []) +
      [Listed(items[0])] + WithDividers(items[1..], items[0].feedId)
  }

  /** The summaries of a catalog, dividers dropped. */
  function Summaries(entries: seq<CatalogEntry>): seq<BentoSummary> {
    if entries == [] then []
    else (if entries[0].Listed? then [entries[0].summary] else []) + Summaries(entries[1..])
  }

  lemma {:induction false} DividersOnlyAdded(items: seq<BentoSummary>, prev: int)
    ensures Summaries(WithDividers(items, prev)) == items
  {
    if items != [] {
      var head := (if items[0].feedId != prev then [Divider(items[0].feedId)] else []) + [Listed(items[0])];
      var tail := WithDividers(items[1..], items[0].feedId);
      DividersOnlyAdded(items[1..], items[0].feedId);
      SummariesAppend(head, tail);
      assert Summaries([Listed(items[0])]) == [items[0]];
      if items[0].feedId != prev {
        SummariesAppend([Divider(items[0].feedId)], [Listed(items[0])]);
      }
    }
  }

  lemma {:induction false} SummariesAppend(a: seq<CatalogEntry>, b: seq<CatalogEntry>)
    ensures Summaries(a + b) == Summaries(a) + Summaries(b)
  {
    if a == [] {
      assert a + b == b;
    } else {
      var h := if a[0].Listed? then [a[0].summary] else [];
      assert (a + b)[0] == a[0];
      assert (a + b)[1..] == a[1..] + b;
      SummariesAppend(a[1..], b);
      assert Summaries(a + b) == h + Summaries(a[1..] + b);
      assert Summaries(a) == h + Summaries(a[1..]);
    }
  }

  /** Each summary follows its feed's divider or a summary of its feed. */
  predicate SummariesFollowTheirFeed(out: seq<CatalogEntry>, prev: int) {
    forall k :: 0 <= k < |out| && out[k].Listed? ==>
      (k == 0 && out[k].summary.feedId == prev) || (k > 0 && FeedOf(out[k - 1]) == out[k].summary.feedId)
  }

  /** Each divider is followed by a summary of its feed. */
  predicate DividersLeadTheirFeed(out: seq<CatalogEntry>) {
    forall k :: 0 <= k < |out| && out[k].Divider? ==>
      k + 1 < |out| && out[k + 1].Listed? && out[k + 1].summary.feedId == out[k].feedId
  }

  /** A divider stands only where the feed changes (at the start: from `prev`). */
  predicate DividersOnlyAtFeedChange(out: seq<CatalogEntry>, prev: int) {
    forall k :: 0 <= k < |out| && out[k].Divider? ==>
      (k == 0 && out[k].feedId != prev) || (k > 0 && FeedOf(out[k - 1]) != out[k].feedId)
  }

  /**
   * Each summary is directly preceded by its feed's divider or by another
   * summary of the same feed (at the start: its feed is `prev`), each
   * divider is directly followed by a summary of its feed, and no divider
   * stands inside one feed's run.
   */
  lemma {:induction false} DividersHeadFeedRuns(items: seq<BentoSummary>, prev: int)
    ensures SummariesFollowTheirFeed(WithDividers(items, prev), prev)
    ensures DividersLeadTheirFeed(WithDividers(items, prev))
    ensures DividersOnlyAtFeedChange(WithDividers(items, prev), prev)
  {
    if items != [] {
      var f := items[0].feedId;
      var head := (if f != prev then [Divider(f)] else []) + [Listed(items[0])];
      var tail := WithDividers(items[1..], f);
      DividersHeadFeedRuns(items[1..], f);
      assert SummariesFollowTheirFeed(tail, f) && DividersLeadTheirFeed(tail);
      var out := WithDividers(items, prev);
      assert out == head + tail;
      assert head[|head| - 1] == Listed(items[0]);
      assert f != prev ==> head[0] == Divider(f);
      forall k | 0 <= k < |out| && out[k].Listed?
        ensures (k == 0 && out[k].summary.feedId == prev) || (k > 0 && FeedOf(out[k - 1]) == out[k].summary.feedId)
      {
        if k < |head| {
          assert out[k] == head[k];
          if k > 0 {
            assert out[k - 1] == head[k - 1];
          }
        } else {
          var t := k - |head|;
          assert out[k] == tail[t];
          if t == 0 {
            assert out[k - 1] == head[|head| - 1];
          } else {
            assert out[k - 1] == tail[t - 1];
          }
        }
      }
      forall k | 0 <= k < |out| && out[k].Divider?
        ensures k + 1 < |out| && out[k + 1].Listed? && out[k + 1].summary.feedId == out[k].feedId
      {
        if k < |head| {
          assert out[k] == head[k];
          assert k == 0 && |head| == 2;
          assert out[k + 1] == head[1];
        } else {
          var t := k - |head|;
          assert out[k] == tail[t];
          assert tail[t].Divider?;
          assert t + 1 < |tail|;
          assert out[k + 1] == tail[t + 1];
        }
      }
      assert DividersOnlyAtFeedChange(tail, f);
      forall k | 0 <= k < |out| && out[k].Divider?
        ensures (k == 0 && out[k].feedId != prev) || (k > 0 && FeedOf(out[k - 1]) != out[k].feedId)
      {
        if k < |head| {
          assert out[k] == head[k];
          assert k == 0;
        } else {
          var t := k - |head|;
          assert out[k] == tail[t];
          if t == 0 {
            assert out[k - 1] == head[|head| - 1];
          } else {
            assert out[k - 1] == tail[t - 1];
          }
        }
      }
    }
  }

  // ---------------------------------------------------------------
  // Member names
  // ---------------------------------------------------------------

  /** A participant of a feed; `owned` marks the local user. */
  datatype Identity = Identity(name: string, owned: bool)

  /** The names of the non-null members that are not the local user. */
  function OtherMemberNames(members: seq<Option<Identity>>): seq<string> {
    if members == [] then []
    else
      (if members[0].Some? && !members[0].value.owned then [members[0].value.name] else []) +
      OtherMemberNames(members[1..])
  }

  lemma {:induction false} OtherMemberNamesExact(members: seq<Option<Identity>>)
    ensures |OtherMemberNames(members)| <= |members|
    ensures forall x :: x in OtherMemberNames(members) <==>
      exists i :: 0 <= i < |members| && members[i].Some? && !members[i].value.owned && members[i].value.name == x
  {
    if members != [] {
      OtherMemberNamesExact(members[1..]);
      var head := if members[0].Some? && !members[0].value.owned then [members[0].value.name] else [];
      forall x ensures x in OtherMemberNames(members) <==>
        exists i :: 0 <= i < |members| && members[i].Some? && !members[i].value.owned && members[i].value.name == x
      {
        if x in OtherMemberNames(members[1..]) {
          var i :| 0 <= i < |members[1..]| && members[1..][i].Some? && !members[1..][i].value.owned && members[1..][i].value.name == x;
          assert members[i + 1] == members[1..][i];
        }
        if exists i :: 0 <= i < |members| && members[i].Some? && !members[i].value.owned && members[i].value.name == x {
          var i :| 0 <= i < |members| && members[i].Some? && !members[i].value.owned && members[i].value.name == x;
          if i > 0 {
            assert members[1..][i - 1] == members[i];
          }
        }
      }
    }
  }

  /** The member loop of fetchMemberNames. */
  method CollectMemberNames(members: seq<Option<Identity>>) returns (names: seq<string>)
    ensures names == OtherMemberNames(members)
  {
    names := [];
    var j := 0;
    while j < |members|
      invariant 0 <= j <= |members|
      invariant names + OtherMemberNames(members[j..]) == OtherMemberNames(members)
    {
      var id := members[j];
      if id.Some? {
        if !id.value.owned {
          names := names + [id.value.name];
        }
      }
      assert members[j..][1..] == members[j + 1..];
      j := j + 1;
    }
  }

  /** The cache after fetchMemberNames(feedId): created if absent, filled once. */
  function FillCache(cache: Option<map<int, seq<string>>>, feedId: int,
                     directory: int -> seq<Option<Identity>>): (r: Option<map<int, seq<string>>>)
    ensures r.Some? && feedId in r.value
  {
    var base := cache.GetOr(map[]);
    if feedId in base then Some(base) else Some(base[feedId := OtherMemberNames(directory(feedId))])
  }

  /** The cache after fetching the feeds `feeds` in order. */
  function FillAll(cache: Option<map<int, seq<string>>>, feeds: seq<int>,
                   directory: int -> seq<Option<Identity>>): Option<map<int, seq<string>>> {
    if feeds == [] then cache
    else FillCache(FillAll(cache, feeds[..|feeds| - 1], directory), feeds[|feeds| - 1], directory)
  }

  lemma FillAllSnoc(cache: Option<map<int, seq<string>>>, feeds: seq<int>, f: int,
                    directory: int -> seq<Option<Identity>>)
    ensures FillAll(cache, feeds + [f], directory) == FillCache(FillAll(cache, feeds, directory), f, directory)
  {
    assert (feeds + [f])[..|feeds|] == feeds;
  }

  /** A cached feed keeps its names even if the directory later changes. */
  lemma CacheFillsOnce(cache: Option<map<int, seq<string>>>, feedId: int,
                       d1: int -> seq<Option<Identity>>, d2: int -> seq<Option<Identity>>)
    ensures FillCache(FillCache(cache, feedId, d1), feedId, d2) == FillCache(cache, feedId, d1)
  {
  }

  /** What a fetch stores: the old names, or the directory's other members. */
  lemma CacheEntryValue(cache: Option<map<int, seq<string>>>, feedId: int,
                        directory: int -> seq<Option<Identity>>)
    ensures var r := FillCache(cache, feedId, directory).value;
      (cache.Some? && feedId in cache.value ==> r == cache.value) &&
      (!(cache.Some? && feedId in cache.value) ==>
         r[feedId] == OtherMemberNames(directory(feedId)) &&
         r.Keys == cache.GetOr(map[]).Keys + {feedId} &&
         forall f :: f in cache.GetOr(map[]) ==> r[f] == cache.value[f])
  {
  }

  /** Filling only adds keys and never changes a cached entry. */
  lemma {:induction false} FillAllOnlyAdds(cache: Option<map<int, seq<string>>>, feeds: seq<int>,
                                          directory: int -> seq<Option<Identity>>)
    ensures var r := FillAll(cache, feeds, directory).GetOr(map[]);
      (forall f :: f in cache.GetOr(map[]) ==> f in r && r[f] == cache.value[f]) &&
      (forall i :: 0 <= i < |feeds| ==> feeds[i] in r)
  {
    if feeds != [] {
      var n := |feeds| - 1;
      FillAllOnlyAdds(cache, feeds[..n], directory);
      var mid := FillAll(cache, feeds[..n], directory);
      assert forall i :: 0 <= i < n ==> feeds[..n][i] == feeds[i];
      CacheEntryValue(mid, feeds[n], directory);
    }
  }
}
