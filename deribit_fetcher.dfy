/** deribit_fetcher.py: the single-file fetcher.  Its `get_trades` walks
    backward by recursion: each page is sorted by time first, a full page
    asks again for the window ending one millisecond before its earliest
    trade, and the older trades are put IN FRONT of the page. */
module DeribitFetcher {
  import opened Trades
  import opened Windows
  import opened Instruments
  import opened BackwardWalk

  /** The first element of a sorted sequence has the least key. */
  lemma SortedFirstLeast(s: seq<Trade>, key: Column)
    requires SortedBy(s, key) && s != []
    ensures forall y :: y in s ==> Key(s[0], key) <= Key(y, key)
  {
    forall y | y in s ensures Key(s[0], key) <= Key(y, key) {
      var k :| 0 <= k < |s| && s[k] == y;
    }
  }

  /** `get_trades`: an absent or empty trades list gives an empty result;
      otherwise the page sorted by time, preceded, when the page is full,
      by everything older fetched the same way. */
  function GetTrades(api: Api, startMs: int, endMs: int): (r: seq<Trade>)
    requires WellBehaved(api)
    ensures r == [] <==> api(startMs, endMs).None? || api(startMs, endMs).value == []
    decreases endMs - startMs
  {
    var resp := api(startMs, endMs);
    if resp.None? || resp.value == [] then []
    else
      var res := SortBy(resp.value, Timestamp);
      if |resp.value| == MaxCount then
        SortByPermutation(resp.value, Timestamp);
        PermutationWithin(res, resp.value, startMs, endMs);
        assert res[0] in res;
        GetTrades(api, startMs, res[0].timestamp - 1) + res
      else res
  }

  /** One level of `get_trades` on a full page. */
  lemma GetTradesFull(api: Api, startMs: int, endMs: int)
    requires WellBehaved(api)
    requires api(startMs, endMs).Some? && |api(startMs, endMs).value| == MaxCount
    ensures startMs <= SortBy(api(startMs, endMs).value, Timestamp)[0].timestamp <= endMs
    ensures GetTrades(api, startMs, endMs) ==
              GetTrades(api, startMs, SortBy(api(startMs, endMs).value, Timestamp)[0].timestamp - 1) +
              SortBy(api(startMs, endMs).value, Timestamp)
  {
    var res := SortBy(api(startMs, endMs).value, Timestamp);
    SortByPermutation(api(startMs, endMs).value, Timestamp);
    PermutationWithin(res, api(startMs, endMs).value, startMs, endMs);
    assert res[0] in res;
  }

  /** Every trade of the result lies in the requested window. */
  lemma {:induction false} GetTradesWithin(api: Api, startMs: int, endMs: int)
    requires WellBehaved(api)
    ensures Within(GetTrades(api, startMs, endMs), startMs, endMs)
    decreases endMs - startMs
  {
    var resp := api(startMs, endMs);
    if resp.Some? && resp.value != [] {
      var res := SortBy(resp.value, Timestamp);
      SortByPermutation(resp.value, Timestamp);
      PermutationWithin(res, resp.value, startMs, endMs);
      if |resp.value| == MaxCount {
        GetTradesFull(api, startMs, endMs);
        var prev := GetTrades(api, startMs, res[0].timestamp - 1);
        GetTradesWithin(api, startMs, res[0].timestamp - 1);
        WithinAppend(prev, res, startMs, endMs);
      }
    }
  }

  /** The result is in ascending time order: each page is sorted, and
      everything older ends before the earliest trade of the page after it. */
  lemma {:induction false} GetTradesSorted(api: Api, startMs: int, endMs: int)
    requires WellBehaved(api)
    ensures SortedBy(GetTrades(api, startMs, endMs), Timestamp)
    decreases endMs - startMs, 1
  {
    var resp := api(startMs, endMs);
    if resp.Some? && resp.value != [] && |resp.value| == MaxCount {
      SortedFull(api, startMs, endMs);
    } else if resp.Some? && resp.value != [] {
      SortBySorted(resp.value, Timestamp);
    }
  }

  /** `GetTradesSorted` on a full page, given it for the older window. */
  lemma {:induction false} SortedFull(api: Api, startMs: int, endMs: int)
    requires WellBehaved(api)
    requires api(startMs, endMs).Some? && |api(startMs, endMs).value| == MaxCount
    ensures SortedBy(GetTrades(api, startMs, endMs), Timestamp)
    decreases endMs - startMs, 0
  {
    var resp := api(startMs, endMs);
    var res := SortBy(resp.value, Timestamp);
    SortBySorted(resp.value, Timestamp);
    GetTradesFull(api, startMs, endMs);
    var newEndMs := res[0].timestamp - 1;
    var prev := GetTrades(api, startMs, newEndMs);
    GetTradesSorted(api, startMs, newEndMs);
    GetTradesWithin(api, startMs, newEndMs);
    OlderInFront(prev, res, startMs);
  }

  /** Trades older than the earliest of a sorted page, themselves sorted,
      put in front of it keep the whole sorted. */
  lemma OlderInFront(prev: seq<Trade>, res: seq<Trade>, startMs: int)
    requires res != [] && SortedBy(res, Timestamp) && SortedBy(prev, Timestamp)
    requires Within(prev, startMs, res[0].timestamp - 1)
    ensures SortedBy(prev + res, Timestamp)
  {
    SortedFirstLeast(res, Timestamp);
    SortedAppend(prev, res, Timestamp);
  }

  /** The pages `get_trades` receives, newest request first. */
  ghost function FetchedPages(api: Api, startMs: int, endMs: int): seq<seq<Trade>>
    requires WellBehaved(api)
    decreases endMs - startMs
  {
    var resp := api(startMs, endMs);
    if resp.None? || resp.value == [] then []
    else if |resp.value| == MaxCount then
      var res := SortBy(resp.value, Timestamp);
      SortByPermutation(resp.value, Timestamp);
      PermutationWithin(res, resp.value, startMs, endMs);
      assert res[0] in res;
      [resp.value] + FetchedPages(api, startMs, res[0].timestamp - 1)
    else [resp.value]
  }

  /** Nothing is dropped and nothing is added: the result holds exactly the
      trades of the fetched pages. */
  lemma {:induction false} GetTradesKeepsAll(api: Api, startMs: int, endMs: int)
    requires WellBehaved(api)
    ensures multiset(GetTrades(api, startMs, endMs)) == multiset(Concat(FetchedPages(api, startMs, endMs)))
    decreases endMs - startMs, 1
  {
    var resp := api(startMs, endMs);
    if resp.Some? && resp.value != [] && |resp.value| == MaxCount {
      KeepsAllFull(api, startMs, endMs);
    } else if resp.Some? && resp.value != [] {
      SortByPermutation(resp.value, Timestamp);
      KeepsAllStep(GetTrades(api, startMs, endMs), [], SortBy(resp.value, Timestamp), resp.value,
                   FetchedPages(api, startMs, endMs), []);
    }
  }

  /** `GetTradesKeepsAll` on a full page, given it for the older window. */
  lemma {:induction false} KeepsAllFull(api: Api, startMs: int, endMs: int)
    requires WellBehaved(api)
    requires api(startMs, endMs).Some? && |api(startMs, endMs).value| == MaxCount
    ensures multiset(GetTrades(api, startMs, endMs)) == multiset(Concat(FetchedPages(api, startMs, endMs)))
    decreases endMs - startMs, 0
  {
    var resp := api(startMs, endMs);
    var res := SortBy(resp.value, Timestamp);
    SortByPermutation(resp.value, Timestamp);
    GetTradesFull(api, startMs, endMs);
    var newEndMs := res[0].timestamp - 1;
    GetTradesKeepsAll(api, startMs, newEndMs);
    KeepsAllStep(GetTrades(api, startMs, endMs), GetTrades(api, startMs, newEndMs), res, resp.value,
                 FetchedPages(api, startMs, endMs), FetchedPages(api, startMs, newEndMs));
  }

  /** The result is exactly as long as the fetched pages together. */
  lemma GetTradesCount(api: Api, startMs: int, endMs: int)
    requires WellBehaved(api)
    ensures |GetTrades(api, startMs, endMs)| == TotalLen(FetchedPages(api, startMs, endMs))
  {
    var r := GetTrades(api, startMs, endMs);
    var all := Concat(FetchedPages(api, startMs, endMs));
    GetTradesKeepsAll(api, startMs, endMs);
    assert |r| == |multiset(r)| && |all| == |multiset(all)|;
  }

  /** One level of `GetTradesKeepsAll`: the older trades in front of a
      reordering of the newest page. */
  lemma KeepsAllStep(r: seq<Trade>, prev: seq<Trade>, res: seq<Trade>, page: seq<Trade>,
                     pages: seq<seq<Trade>>, older: seq<seq<Trade>>)
    requires r == prev + res && multiset(res) == multiset(page)
    requires multiset(prev) == multiset(Concat(older))
    requires pages == [page] + older
    ensures multiset(r) == multiset(Concat(pages))
  {
    assert pages[1..] == older;
  }

  /** Every fetched page but the last is full. */
  lemma {:induction false} FetchedPagesFull(api: Api, startMs: int, endMs: int)
    requires WellBehaved(api)
    ensures forall k :: 0 <= k < |FetchedPages(api, startMs, endMs)| - 1 ==>
              |FetchedPages(api, startMs, endMs)[k]| == MaxCount
    decreases endMs - startMs
  {
    var resp := api(startMs, endMs);
    if resp.Some? && resp.value != [] && |resp.value| == MaxCount {
      var res := SortBy(resp.value, Timestamp);
      SortByPermutation(resp.value, Timestamp);
      PermutationWithin(res, resp.value, startMs, endMs);
      assert res[0] in res;
      var newEndMs := res[0].timestamp - 1;
      var pages := FetchedPages(api, startMs, endMs);
      var older := FetchedPages(api, startMs, newEndMs);
      FetchedPagesFull(api, startMs, newEndMs);
      forall k | 0 < k < |pages| - 1 ensures |pages[k]| == MaxCount {
        assert pages[k] == older[k - 1];
      }
    }
  }

  /** When no page repeats a trade, neither does the result: every older
      request ends before the earliest trade of the newer page. */
  lemma {:induction false} GetTradesDistinct(api: Api, startMs: int, endMs: int)
    requires WellBehaved(api)
    requires forall s: int, e: int :: api(s, e).Some? ==> Distinct(api(s, e).value)
    ensures Distinct(GetTrades(api, startMs, endMs))
    decreases endMs - startMs
  {
    var resp := api(startMs, endMs);
    if resp.Some? && resp.value != [] {
      var res := SortBy(resp.value, Timestamp);
      SortByPermutation(resp.value, Timestamp);
      PermutationDistinct(res, resp.value);
      if |resp.value| == MaxCount {
        PermutationWithin(res, resp.value, startMs, endMs);
        assert res[0] in res;
        var newEndMs := res[0].timestamp - 1;
        GetTradesDistinct(api, startMs, newEndMs);
        var prev := GetTrades(api, startMs, newEndMs);
        GetTradesFull(api, startMs, endMs);
        GetTradesWithin(api, startMs, newEndMs);
        SortBySorted(resp.value, Timestamp);
        SortedFirstLeast(res, Timestamp);
        DisjointDistinct(prev, res);
      }
    }
  }

  /** The end bound `main` gives an instrument: the expiration, cut at the
      run's one captured time when EXPIRED is exactly the string "false". */
  function EndBound(expirationMs: int, expiredFlag: string, nowMs: int): (endMs: int)
    ensures expiredFlag == "false" ==> endMs == WindowEnd(expirationMs, false, nowMs)
    ensures expiredFlag != "false" ==> endMs == expirationMs
  {
    if expiredFlag == "false" then Min(expirationMs, nowMs) else expirationMs
  }

  /** `get_all_trades_by_instrument` with FORMAT "csv" or "all": the file
      `{instrument}.csv` is written (Some) exactly when the walk found a
      trade. */
  function InstrumentFile(api: Api, startMs: int, endMs: int): (file: Option<seq<Trade>>)
    requires WellBehaved(api)
    ensures file.None? <==> api(startMs, endMs).None? || api(startMs, endMs).value == []
    ensures file.Some? ==> SortedBy(file.value, Timestamp) && Within(file.value, startMs, endMs)
  {
    var df := GetTrades(api, startMs, endMs);
    GetTradesSorted(api, startMs, endMs);
    GetTradesWithin(api, startMs, endMs);
    if df == [] then None else Some(df)
  }

  /** `main`: one instrument after the other (the thread pool run
      sequentially in list order), each over [creation, EndBound]. */
  method FetchAll(market: (string, string) -> Api, rows: seq<Instrument>, expiredFlag: string, nowMs: int)
    returns (written: seq<Option<seq<Trade>>>)
    requires forall name, flag :: WellBehaved(market(name, flag))
    ensures |written| == |rows|
    ensures forall i :: 0 <= i < |rows| ==>
              written[i] == InstrumentFile(market(rows[i].name, expiredFlag), rows[i].creationMs,
                                           EndBound(rows[i].expirationMs, expiredFlag, nowMs))
  {
    written := [];
    for i := 0 to |rows|
      invariant |written| == i
      invariant forall k :: 0 <= k < i ==>
                  written[k] == InstrumentFile(market(rows[k].name, expiredFlag), rows[k].creationMs,
                                               EndBound(rows[k].expirationMs, expiredFlag, nowMs))
    {
      var row := rows[i];
      var endTimeMs := row.expirationMs;
      if expiredFlag == "false" {
        endTimeMs := Min(endTimeMs, nowMs);
      }
      written := written + [InstrumentFile(market(row.name, expiredFlag), row.creationMs, endTimeMs)];
    }
  }

  /** `get_trades` loses the trades of the tape that share a full page's
      earliest timestamp but did not fit on the page. */
  lemma GetTradesCanMiss()
    ensures WellBehaved(TiedApi()) && AnswersFrom(TiedApi(), TiedTape())
    ensures Trade(MaxCount, 1) in TiedTape() && Trade(MaxCount, 1) !in GetTrades(TiedApi(), 1, 1)
  {
    TiedApiAnswersFromTape();
    var api, page := TiedApi(), TiedPage();
    var res := SortBy(page, Timestamp);
    GetTradesFull(api, 1, 1);
    SortByPermutation(page, Timestamp);
    assert res[0] in multiset(page);
    assert GetTrades(api, 1, 0) == [];
    assert GetTrades(api, 1, 1) == res;
    assert Trade(MaxCount, 1) !in multiset(page);
  }
}
