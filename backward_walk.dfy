/** Backward time pagination as written in `__get_future_trades`
    (deribit_fetcher/fetch_futures.py) and `__get_option_trades`
    (deribit_fetcher/fetch_options.py); the two loops are the same text.

    The trades endpoint is a function parameter: `api(start, end)` is the
    response to one request for the window [start, end].  The only facts
    assumed of it are those of `WellBehaved`: a page holds at most MaxCount
    trades and every trade lies inside the requested window.  The order of
    the trades inside a page is NOT assumed. */
module BackwardWalk {
  import opened Trades

  type Api = (int, int) -> Response

  ghost predicate WellBehaved(api: Api)
  {
    forall s: int, e: int :: api(s, e).Some? ==>
      |api(s, e).value| <= MaxCount && Within(api(s, e).value, s, e)
  }

  /** The pages the loop appends to `dfs`, in request order, when the
      window end starts at `endMs`: an absent or empty trades list stops
      without being recorded; a short page is recorded and stops; a full
      page is recorded and the next end is its FIRST trade's timestamp
      minus one, unless that falls below `startMs`. */
  function Recorded(api: Api, startMs: int, endMs: int): seq<seq<Trade>>
    requires WellBehaved(api)
    decreases endMs - startMs
  {
    var res := api(startMs, endMs);
    if res.None? || res.value == [] then []
    else if |res.value| < MaxCount then [res.value]
    else
      var next := res.value[0].timestamp - 1;
      FirstWithin(api, startMs, endMs);
      if next < startMs then [res.value]
      else [res.value] + Recorded(api, startMs, next)
  }

  /** The loop itself.  None when no page was recorded; otherwise the
      concatenation of the recorded pages, sorted by timestamp, with nothing
      dropped or merged. */
  method WalkBackward(api: Api, startMs: int, endMs: int) returns (r: Option<seq<Trade>>)
    requires WellBehaved(api)
    ensures r.None? <==> Recorded(api, startMs, endMs) == []
    ensures r.Some? ==> r.value == MergePages(Recorded(api, startMs, endMs))
  {
    var dfs := CollectPages(api, startMs, endMs);
    if dfs == [] {
      return None;
    }
    r := Some(MergePages(dfs));
  }

  /** The `while True` loop of the walk: the pages it appends to `dfs`. */
  method CollectPages(api: Api, startMs: int, endMs: int) returns (dfs: seq<seq<Trade>>)
    requires WellBehaved(api)
    ensures dfs == Recorded(api, startMs, endMs)
  {
    dfs := [];
    var currentEndMs := endMs;
    while true
      invariant dfs + Recorded(api, startMs, currentEndMs) == Recorded(api, startMs, endMs)
      decreases currentEndMs - startMs
    {
      var res := api(startMs, currentEndMs);
      if res.None? || res.value == [] {
        assert dfs == Recorded(api, startMs, endMs);
        break;
      }
      var df := res.value;
      LoopStep(api, startMs, currentEndMs, dfs);
      dfs := dfs + [df];
      if |df| < MaxCount {
        assert dfs == Recorded(api, startMs, endMs);
        break;
      }
      currentEndMs := df[0].timestamp - 1;
      if currentEndMs < startMs {
        assert dfs == Recorded(api, startMs, endMs);
        break;
      }
    }
  }

  /** `pd.concat(dfs)` followed by `sort_values(by="timestamp")`: every
      recorded trade is kept, duplicates included, and the result is ordered
      by timestamp (ties in no promised order). */
  function MergePages(pages: seq<seq<Trade>>): (r: seq<Trade>)
    ensures SortedBy(r, Timestamp)
    ensures multiset(r) == multiset(Concat(pages))
    ensures |r| == TotalLen(pages)
  {
    SortBySorted(Concat(pages), Timestamp);
    SortByPermutation(Concat(pages), Timestamp);
    SortBy(Concat(pages), Timestamp)
  }

  /** The merged result of a walk is non-empty and lies inside the window. */
  lemma MergedWithin(api: Api, startMs: int, endMs: int)
    requires WellBehaved(api)
    requires Recorded(api, startMs, endMs) != []
    ensures MergePages(Recorded(api, startMs, endMs)) != []
    ensures Within(MergePages(Recorded(api, startMs, endMs)), startMs, endMs)
  {
    var pages := Recorded(api, startMs, endMs);
    var merged := MergePages(pages);
    RecordedPages(api, startMs, endMs);
    assert pages[0] in pages;
    assert pages[0][0] in Concat(pages) by {
      ConcatMember(pages, pages[0][0]);
    }
    assert pages[0][0] in multiset(merged);
    forall t | t in merged ensures startMs <= t.timestamp <= endMs {
      assert t in multiset(Concat(pages));
      ConcatMember(pages, t);
      var i :| 0 <= i < |pages| && t in pages[i];
      assert pages[i] in pages;
    }
  }

  /** The first trade of a page lies in the requested window. */
  lemma FirstWithin(api: Api, s: int, e: int)
    requires WellBehaved(api)
    requires api(s, e).Some? && api(s, e).value != []
    ensures s <= api(s, e).value[0].timestamp <= e
  {
    assert api(s, e).value[0] in api(s, e).value;
  }

  /** One round of the loop on a full page, as `Recorded` sees it: the next
      end bound is strictly below the current one. */
  lemma RecordedFull(api: Api, s: int, e: int)
    requires WellBehaved(api)
    requires api(s, e).Some? && |api(s, e).value| >= MaxCount
    ensures api(s, e).value[0].timestamp - 1 < e
    ensures api(s, e).value[0].timestamp - 1 < s ==> Recorded(api, s, e) == [api(s, e).value]
    ensures api(s, e).value[0].timestamp - 1 >= s ==>
              Recorded(api, s, e) == [api(s, e).value] + Recorded(api, s, api(s, e).value[0].timestamp - 1)
  {
    FirstWithin(api, s, e);
  }

  /** The invariant of the loop in `WalkBackward` survives one round. */
  lemma LoopStep(api: Api, s: int, e: int, dfs: seq<seq<Trade>>)
    requires WellBehaved(api)
    requires api(s, e).Some? && api(s, e).value != []
    ensures |api(s, e).value| < MaxCount ==> dfs + Recorded(api, s, e) == (dfs + [api(s, e).value])
    ensures |api(s, e).value| >= MaxCount ==>
              var next := api(s, e).value[0].timestamp - 1;
              next - s < e - s &&
              (next < s ==> dfs + Recorded(api, s, e) == dfs + [api(s, e).value]) &&
              (next >= s ==> dfs + Recorded(api, s, e) == (dfs + [api(s, e).value]) + Recorded(api, s, next))
  {
    if |api(s, e).value| >= MaxCount {
      RecordedFull(api, s, e);
    }
  }

  /** `page` was fetched by the request that followed the full page `prev`:
      its window ends one millisecond before prev's first trade, which is
      not below the window start, so the first timestamps strictly decrease. */
  ghost predicate NextRequest(startMs: int, prev: seq<Trade>, page: seq<Trade>)
  {
    prev != [] && page != [] &&
    startMs <= prev[0].timestamp - 1 &&
    Within(page, startMs, prev[0].timestamp - 1) &&
    page[0].timestamp < prev[0].timestamp
  }

  /** What the recorded pages look like: each is non-empty, lies in the
      window, and all but the last are full.  The k-th request after the
      first ends one millisecond before the first trade of the page before
      it. */
  lemma {:induction false} RecordedPages(api: Api, startMs: int, endMs: int)
    requires WellBehaved(api)
    ensures forall p :: p in Recorded(api, startMs, endMs) ==>
              p != [] && |p| <= MaxCount && Within(p, startMs, endMs)
    ensures forall k :: 0 <= k < |Recorded(api, startMs, endMs)| - 1 ==>
              |Recorded(api, startMs, endMs)[k]| == MaxCount
    ensures forall k :: 0 <= k < |Recorded(api, startMs, endMs)| - 1 ==>
              NextRequest(startMs, Recorded(api, startMs, endMs)[k], Recorded(api, startMs, endMs)[k + 1])
    decreases endMs - startMs
  {
    var pages := Recorded(api, startMs, endMs);
    var res := api(startMs, endMs);
    if res.Some? && |res.value| >= MaxCount {
      RecordedFull(api, startMs, endMs);
      var p := res.value;
      var next := p[0].timestamp - 1;
      if next >= startMs {
        var rest := Recorded(api, startMs, next);
        RecordedPages(api, startMs, next);
        assert pages == [p] + rest;
        forall q | q in pages
          ensures q != [] && |q| <= MaxCount && Within(q, startMs, endMs)
        {
          if q != p {
            assert q in rest;
          }
        }
        forall k | 0 <= k < |pages| - 1
          ensures NextRequest(startMs, pages[k], pages[k + 1])
        {
          assert pages[k + 1] == rest[k];
          assert pages[k + 1][0] in rest[k];
          if k > 0 {
            assert pages[k] == rest[k - 1];
          }
        }
      }
    }
  }

  /** Nothing is recorded exactly when the very first response carries no
      trades; otherwise the first recorded page is that response. */
  lemma RecordedNone(api: Api, startMs: int, endMs: int)
    requires WellBehaved(api)
    ensures Recorded(api, startMs, endMs) == [] <==>
              api(startMs, endMs).None? || api(startMs, endMs).value == []
    ensures Recorded(api, startMs, endMs) != [] ==>
              Recorded(api, startMs, endMs)[0] == api(startMs, endMs).value
  {
  }

  /** The loop keeps every recorded trade and the next bound comes from the
      page's FIRST trade, not its earliest.  A well-behaved endpoint that
      lists a full page newest-first therefore gets asked again for the
      older part of that page, and the merged result holds a trade twice. */
  lemma FirstTradeBoundaryCanDuplicate()
    ensures exists api: Api :: WellBehaved(api) && !Distinct(Concat(Recorded(api, 1, MaxCount)))
  {
    var oldest := Trade(MaxCount - 1, 1);
    var page := seq(MaxCount, i requires 0 <= i < MaxCount => Trade(i, MaxCount - i));
    var api: Api := (s: int, e: int) =>
      if s <= 1 && MaxCount <= e then Some(page)
      else if s <= 1 <= e then Some([oldest])
      else Some([]);
    assert WellBehaved(api) by {
      forall s: int, e: int | api(s, e).Some?
        ensures |api(s, e).value| <= MaxCount && Within(api(s, e).value, s, e)
      {
        if s <= 1 && MaxCount <= e {
          forall t | t in page ensures s <= t.timestamp <= e {
            var i :| 0 <= i < MaxCount && page[i] == t;
          }
        }
      }
    }
    assert page[0].timestamp == MaxCount;
    assert Recorded(api, 1, MaxCount - 1) == [[oldest]];
    assert Recorded(api, 1, MaxCount) == [page, [oldest]];
    var all := Concat(Recorded(api, 1, MaxCount));
    assert [page, [oldest]][1..] == [[oldest]];
    assert Concat([[oldest]]) == [oldest] by { assert [[oldest]][1..] == []; }
    assert all == page + [oldest];
    assert all[MaxCount - 1] == all[MaxCount];
  }

  /** `api` answers from the trade tape `tape`: it returns only trades of the
      tape, and a page shorter than MaxCount holds every trade of the tape
      inside the requested window. */
  ghost predicate AnswersFrom(api: Api, tape: seq<Trade>)
  {
    forall s: int, e: int :: api(s, e).Some? &&
      (forall t :: t in api(s, e).value ==> t in tape) &&
      (|api(s, e).value| < MaxCount ==>
         forall t :: t in tape && s <= t.timestamp <= e ==> t in api(s, e).value)
  }

  /** A full page of trades that all happened at millisecond 1. */
  function TiedPage(): seq<Trade>
  {
    seq(MaxCount, i requires 0 <= i < MaxCount => Trade(i, 1))
  }

  /** A tape of MaxCount + 1 trades at millisecond 1: one more than a page holds. */
  function TiedTape(): seq<Trade>
  {
    TiedPage() + [Trade(MaxCount, 1)]
  }

  /** The endpoint over TiedTape that returns the first MaxCount trades of
      any window containing millisecond 1. */
  function TiedApi(): Api
  {
    (s: int, e: int) => if s <= 1 <= e then Some(TiedPage()) else Some([])
  }

  /** TiedApi is a well-behaved endpoint answering from TiedTape, and the
      last trade of the tape is not on its page. */
  lemma TiedApiAnswersFromTape()
    ensures WellBehaved(TiedApi()) && AnswersFrom(TiedApi(), TiedTape())
    ensures Trade(MaxCount, 1) in TiedTape() && Trade(MaxCount, 1) !in TiedPage()
    ensures forall t :: t in TiedPage() ==> t.timestamp == 1
  {
    var page, tape := TiedPage(), TiedTape();
    forall t | t in page ensures t.timestamp == 1 && t != Trade(MaxCount, 1) {
      var i :| 0 <= i < MaxCount && page[i] == t;
    }
    forall t | t in tape ensures t.timestamp == 1 {
      if t != Trade(MaxCount, 1) {
        assert t in page;
      }
    }
    assert tape[MaxCount] == Trade(MaxCount, 1);
  }

  /** Trades sharing the boundary timestamp of a full page can be lost: the
      next request ends one millisecond before that timestamp, so a trade of
      the tape at that millisecond which did not fit on the page is never
      fetched. */
  lemma TiedBoundaryCanBeMissed()
    ensures WellBehaved(TiedApi()) && AnswersFrom(TiedApi(), TiedTape())
    ensures Trade(MaxCount, 1) in TiedTape() && Trade(MaxCount, 1) !in Concat(Recorded(TiedApi(), 1, 1))
  {
    TiedApiAnswersFromTape();
    var page := TiedPage();
    assert page[0] in page;
    assert Recorded(TiedApi(), 1, 1) == [page];
    assert Concat([page]) == page by { var pages: seq<seq<Trade>> := [page]; assert pages[1..] == []; }
  }
}
