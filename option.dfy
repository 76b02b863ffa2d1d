/** option.py: the standalone option script.  Its two walks are recursions
    whose `+=` only extends a fresh local list, so they are functions here.
    A response whose envelope lacks the `result` or `trades` key makes the
    script raise; that exception is the `Err` of the model and it travels up
    through every enclosing call. */
module OptionScript {
  import opened Trades
  import opened Windows
  import opened BackwardWalk

  /** `get_data_by_seq_recur`: a page as long as `count` asks for the next
      `count` sequence numbers right after `endSeq`, and the result is this
      page followed by the rest. */
  function SeqWalk(api: SeqApi, ghost latest: int, startSeq: int, endSeq: int, count: int): (r: Result<seq<Trade>>)
    requires count > 0 && SeqWellBehaved(api, latest)
    ensures r.Ok? ==> forall t :: t in r.value ==> startSeq <= t.tradeSeq <= latest
    decreases latest - startSeq
  {
    var res := api(startSeq, endSeq, count);
    if res.None? then Err(MissingTrades)
    else if |res.value| == count then
      assert res.value[0] in res.value;
      var rest := SeqWalk(api, latest, endSeq + 1, endSeq + count, count);
      if rest.Err? then rest else Ok(res.value + rest.value)
    else Ok(res.value)
  }

  /** The windows the sequence walk requests, in order. */
  ghost function SeqRequests(api: SeqApi, latest: int, startSeq: int, endSeq: int, count: int): (ws: seq<Window>)
    requires count > 0 && SeqWellBehaved(api, latest)
    decreases latest - startSeq
  {
    var res := api(startSeq, endSeq, count);
    if res.Some? && |res.value| == count then
      assert res.value[0] in res.value;
      [Window(startSeq, endSeq)] + SeqRequests(api, latest, endSeq + 1, endSeq + count, count)
    else [Window(startSeq, endSeq)]
  }

  /** The first request is the caller's window; each later one starts right
      after the previous one ends and spans exactly `count` sequence
      numbers; every request but the last got a full page. */
  lemma {:induction false} SeqRequestsContiguous(api: SeqApi, latest: int, startSeq: int, endSeq: int, count: int)
    requires count > 0 && SeqWellBehaved(api, latest)
    ensures var ws := SeqRequests(api, latest, startSeq, endSeq, count);
            ws != [] && ws[0] == Window(startSeq, endSeq) &&
            (forall k :: 0 < k < |ws| ==> ws[k] == Window(ws[k - 1].hi + 1, ws[k - 1].hi + count)) &&
            (forall k :: 0 <= k < |ws| - 1 ==>
               api(ws[k].lo, ws[k].hi, count).Some? && |api(ws[k].lo, ws[k].hi, count).value| == count)
    decreases latest - startSeq
  {
    var res := api(startSeq, endSeq, count);
    if res.Some? && |res.value| == count {
      assert res.value[0] in res.value;
      var ws := SeqRequests(api, latest, startSeq, endSeq, count);
      var rest := SeqRequests(api, latest, endSeq + 1, endSeq + count, count);
      SeqRequestsContiguous(api, latest, endSeq + 1, endSeq + count, count);
      assert ws == [Window(startSeq, endSeq)] + rest;
      forall k | 0 < k < |ws| ensures ws[k] == Window(ws[k - 1].hi + 1, ws[k - 1].hi + count) {
        if k > 1 {
          assert ws[k] == rest[k - 1] && ws[k - 1] == rest[k - 2];
        }
      }
      forall k | 0 <= k < |ws| - 1
        ensures api(ws[k].lo, ws[k].hi, count).Some? && |api(ws[k].lo, ws[k].hi, count).value| == count
      {
        if k > 0 {
          assert ws[k] == rest[k - 1];
        }
      }
    }
  }

  /** The sequence walk fails exactly when its last request finds no trades
      list.  Otherwise it returns `count` trades per request except the last
      one, whose page was shorter. */
  lemma {:induction false} SeqWalkOutcome(api: SeqApi, latest: int, startSeq: int, endSeq: int, count: int)
    requires count > 0 && SeqWellBehaved(api, latest)
    ensures var r := SeqWalk(api, latest, startSeq, endSeq, count);
            var ws := SeqRequests(api, latest, startSeq, endSeq, count);
            var last := api(ws[|ws| - 1].lo, ws[|ws| - 1].hi, count);
            (r.Err? <==> last.None?) &&
            (r.Ok? ==> |last.value| < count && |r.value| == count * (|ws| - 1) + |last.value|)
    decreases latest - startSeq
  {
    var res := api(startSeq, endSeq, count);
    if res.Some? && |res.value| == count {
      assert res.value[0] in res.value;
      var ws := SeqRequests(api, latest, startSeq, endSeq, count);
      var rest := SeqRequests(api, latest, endSeq + 1, endSeq + count, count);
      SeqWalkOutcome(api, latest, endSeq + 1, endSeq + count, count);
      assert ws == [Window(startSeq, endSeq)] + rest;
      assert ws[|ws| - 1] == rest[|rest| - 1];
    }
  }

  /** When the endpoint lists each page in ascending sequence order, the
      whole walk is in ascending sequence order: pages come from ascending,
      non-overlapping ranges. */
  lemma {:induction false} SeqWalkSorted(api: SeqApi, latest: int, startSeq: int, endSeq: int, count: int)
    requires count > 0 && SeqWellBehaved(api, latest)
    requires forall s: int, e: int, c: int :: api(s, e, c).Some? ==> SortedBy(api(s, e, c).value, TradeSeq)
    ensures SeqWalk(api, latest, startSeq, endSeq, count).Ok? ==>
              SortedBy(SeqWalk(api, latest, startSeq, endSeq, count).value, TradeSeq)
    decreases latest - startSeq
  {
    var res := api(startSeq, endSeq, count);
    if res.Some? && |res.value| == count {
      assert res.value[0] in res.value;
      var rest := SeqWalk(api, latest, endSeq + 1, endSeq + count, count);
      if rest.Ok? {
        SeqWalkSorted(api, latest, endSeq + 1, endSeq + count, count);
        SortedAppend(res.value, rest.value, TradeSeq);
      }
    }
  }

  /** When no page repeats a trade, neither does the whole walk. */
  lemma {:induction false} SeqWalkDistinct(api: SeqApi, latest: int, startSeq: int, endSeq: int, count: int)
    requires count > 0 && SeqWellBehaved(api, latest)
    requires forall s: int, e: int, c: int :: api(s, e, c).Some? ==> Distinct(api(s, e, c).value)
    ensures SeqWalk(api, latest, startSeq, endSeq, count).Ok? ==>
              Distinct(SeqWalk(api, latest, startSeq, endSeq, count).value)
    decreases latest - startSeq
  {
    var res := api(startSeq, endSeq, count);
    if res.Some? && |res.value| == count {
      assert res.value[0] in res.value;
      var rest := SeqWalk(api, latest, endSeq + 1, endSeq + count, count);
      if rest.Ok? {
        SeqWalkDistinct(api, latest, endSeq + 1, endSeq + count, count);
        DisjointDistinct(res.value, rest.value);
      }
    }
  }

  /** `get_data_by_ts_recur` with its default `count` of MaxCount: a full
      page asks again for the window ending one millisecond before the
      page's EARLIEST trade, and the result is this page followed by the
      older ones. */
  function TsWalk(api: Api, startTs: int, endTs: int): (r: Result<seq<Trade>>)
    requires WellBehaved(api)
    ensures r.Ok? ==> Within(r.value, startTs, endTs)
    decreases endTs - startTs
  {
    var res := api(startTs, endTs);
    if res.None? then Err(MissingTrades)
    else if |res.value| == MaxCount then
      var newEnd := MinTs(res.value) - 1;
      var rest := TsWalk(api, startTs, newEnd);
      if rest.Err? then rest else Ok(res.value + rest.value)
    else Ok(res.value)
  }

  /** Every trade fetched by a later request is strictly older than every
      trade of the page before it: the walk lists the newest page first,
      and its pages share no trade. */
  lemma TsWalkNewestFirst(api: Api, startTs: int, endTs: int)
    requires WellBehaved(api)
    requires api(startTs, endTs).Some? && |api(startTs, endTs).value| == MaxCount
    ensures var p := api(startTs, endTs).value;
            var rest := TsWalk(api, startTs, MinTs(p) - 1);
            rest.Ok? ==> forall x, y :: x in p && y in rest.value ==> y.timestamp < x.timestamp
  {
  }

  /** When no page repeats a trade, neither does the time walk; contrast
      `BackwardWalk.FirstTradeBoundaryCanDuplicate`, where the boundary is
      the page's first trade instead of its earliest. */
  lemma {:induction false} TsWalkDistinct(api: Api, startTs: int, endTs: int)
    requires WellBehaved(api)
    requires forall s: int, e: int :: api(s, e).Some? ==> Distinct(api(s, e).value)
    ensures TsWalk(api, startTs, endTs).Ok? ==> Distinct(TsWalk(api, startTs, endTs).value)
    decreases endTs - startTs
  {
    var res := api(startTs, endTs);
    if res.Some? && |res.value| == MaxCount {
      var newEnd := MinTs(res.value) - 1;
      var rest := TsWalk(api, startTs, newEnd);
      if rest.Ok? {
        TsWalkDistinct(api, startTs, newEnd);
        TsWalkNewestFirst(api, startTs, endTs);
        DisjointDistinct(res.value, rest.value);
      }
    }
  }

  /** `fetch_and_process` inside `fetch`: one instrument's whole lifetime,
      from creation to expiration (this script applies no clamp), walked by
      time and written ordered by sequence number. */
  function FetchAndProcess(api: Api, creationMs: int, expirationMs: int): (r: Result<Option<seq<Trade>>>)
    requires WellBehaved(api)
    ensures r.Ok? && r.value.Some? ==>
              SortedBy(r.value.value, TradeSeq) && Within(r.value.value, creationMs, expirationMs)
  {
    var trades := TsWalk(api, creationMs, expirationMs);
    if trades.Err? then Err(trades.error)
    else
      var file := ProcessTrades(trades.value);
      if file.Some? then
        PermutationWithin(file.value, trades.value, creationMs, expirationMs);
        Ok(file)
      else Ok(file)
  }

  /** The time walk loses the trades of the tape that share a full page's
      earliest timestamp but did not fit on the page. */
  lemma TsWalkCanMiss()
    ensures WellBehaved(TiedApi()) && AnswersFrom(TiedApi(), TiedTape())
    ensures TsWalk(TiedApi(), 1, 1).Ok? && Trade(MaxCount, 1) in TiedTape() &&
            Trade(MaxCount, 1) !in TsWalk(TiedApi(), 1, 1).value
  {
    TiedApiAnswersFromTape();
    var page := TiedPage();
    assert page[0] in page;
    assert MinTs(page) == 1;
    assert TsWalk(TiedApi(), 1, 0) == Ok([]);
    assert TsWalk(TiedApi(), 1, 1) == Ok(page + []);
  }
}
