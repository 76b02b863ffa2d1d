/** future.py: the standalone future script.  Every instrument's trades are
    fetched by trade sequence number, in blocks of SeqBlock numbers from 1 up
    to the latest sequence number found at the instrument's (clamped)
    expiration, one file per block. */
module FutureScript {
  import opened Trades
  import opened Windows
  import opened Instruments

  /** Width of a sequence block (the `count` of every request). */
  const SeqBlock: nat := 10000

  /** `int(time.time()) * 1000`, with the clock reading given in
      milliseconds: the whole seconds of `nowMs` (truncated toward zero, as
      Python's `int` does), in milliseconds. */
  function CurTs(nowMs: int): (cur: int)
    ensures cur % 1000 == 0
    ensures nowMs >= 0 ==> cur <= nowMs < cur + 1000
    ensures nowMs < 0 ==> cur - 1000 < nowMs <= cur
  {
    if nowMs >= 0 then (nowMs / 1000) * 1000 else -(((-nowMs) / 1000) * 1000)
  }

  /** The masked update in `get_list`: every expiration later than `curTs`
      becomes `curTs`, which is the clamp every fetcher applies to active
      instruments; every other row is left as it was. */
  function ClampList(rows: seq<Instrument>, curTs: int): (r: seq<Instrument>)
    ensures |r| == |rows|
    ensures forall i :: 0 <= i < |rows| ==>
              r[i].name == rows[i].name && r[i].creationMs == rows[i].creationMs &&
              r[i].expirationMs == WindowEnd(rows[i].expirationMs, false, curTs)
    ensures forall i :: 0 <= i < |rows| && rows[i].expirationMs <= curTs ==> r[i] == rows[i]
  {
    seq(|rows|, i requires 0 <= i < |rows| =>
      if rows[i].expirationMs > curTs then rows[i].(expirationMs := curTs) else rows[i])
  }

  /** `get_latest_seq_by_ts` on the response to its one-trade request: 0 for
      an empty list, otherwise the first trade's sequence number; a response
      without a trades list raises. */
  function LatestSeq(resp: Response): (r: Result<int>)
    ensures r.Err? <==> resp.None?
    ensures resp.Some? && resp.value == [] ==> r == Ok(0)
    ensures resp.Some? && resp.value != [] ==> r == Ok(resp.value[0].tradeSeq)
  {
    match resp
    case None => Err(MissingTrades)
    case Some(trades) => if |trades| == 0 then Ok(0) else Ok(trades[0].tradeSeq)
  }

  /** The list comprehension in `main`: one block per start in
      `range(1, latest, SeqBlock)`, the k-th from 1 + k*SeqBlock to at most
      `latest`. */
  function SeqRanges(latest: int): (ws: seq<Window>)
  {
    var n := if latest > 1 then (latest - 1 + SeqBlock - 1) / SeqBlock else 0;
    seq(n, k requires 0 <= k < n => Window(1 + k * SeqBlock, Min(1 + k * SeqBlock + SeqBlock - 1, latest)))
  }

  /** The comprehension is the generic planner on [1, latest], so the
      planner's lemmas (bounds, contiguity, disjointness) hold of it. */
  lemma SeqRangesArePlan(latest: int)
    ensures SeqRanges(latest) == Plan(1, latest, SeqBlock)
  {
    var ws := SeqRanges(latest);
    var plan := Plan(1, latest, SeqBlock);
    var n := |ws|;
    PlanAt(1, latest, SeqBlock, n);
    if n > 0 {
      PlanAt(1, latest, SeqBlock, n - 1);
    }
    assert |plan| == n;
    forall k | 0 <= k < n ensures ws[k] == plan[k] {
      PlanAt(1, latest, SeqBlock, k);
    }
  }

  /** No blocks at all exactly when latest <= 1; in particular an instrument
      whose latest sequence number is 0 is skipped, and so, silently, is one
      whose latest sequence number is 1. */
  lemma SeqRangesEmpty(latest: int)
    ensures SeqRanges(latest) == [] <==> latest <= 1
  {
    SeqRangesArePlan(latest);
  }

  /** The blocks cover [1, latest) and cover `latest` itself unless
      latest % SeqBlock == 1, where the last start would have to equal
      `latest` and `range` stops before it. */
  lemma SeqRangesCover(latest: int, x: int)
    ensures Covered(SeqRanges(latest), x) <==>
              1 <= x < latest || (x == latest && latest > 1 && latest % SeqBlock != 1)
  {
    SeqRangesArePlan(latest);
    PlanCovers(1, latest, SeqBlock, x);
    var q, r := (latest - 1) / SeqBlock, (latest - 1) % SeqBlock;
    if r + 1 < SeqBlock {
      ModUnique(latest, SeqBlock, q, r + 1);
    } else {
      ModUnique(latest, SeqBlock, q + 1, 0);
    }
  }

  /** Blocks are at most SeqBlock wide, lie in [1, latest], and each one
      starts right after the previous one ends, so no sequence number is in
      two blocks and no two blocks have the same file name. */
  lemma SeqRangesDisjoint(latest: int)
    ensures forall w :: w in SeqRanges(latest) ==>
              1 <= w.lo <= w.hi <= latest && w.hi - w.lo + 1 <= SeqBlock
    ensures forall k :: 0 < k < |SeqRanges(latest)| ==> SeqRanges(latest)[k].lo == SeqRanges(latest)[k - 1].hi + 1
    ensures forall i, j :: 0 <= i < j < |SeqRanges(latest)| ==> SeqRanges(latest)[i].hi < SeqRanges(latest)[j].lo
  {
    SeqRangesArePlan(latest);
    PlanBounds(1, latest, SeqBlock);
    PlanContiguous(1, latest, SeqBlock);
    forall i, j | 0 <= i < j < |SeqRanges(latest)|
      ensures SeqRanges(latest)[i].hi < SeqRanges(latest)[j].lo
    {
      PlanDisjoint(1, latest, SeqBlock, i, j);
    }
  }

  /** The file `fetch_and_process` writes for one block: the single request
      `get_data_by_seq(name, lo, hi)` followed by `process_trades`. */
  function RangeFile(api: SeqApi, w: Window): (r: Result<Option<ChunkFile>>)
    ensures r.Err? <==> api(w.lo, w.hi, SeqBlock).None?
    ensures r.Ok? && r.value.Some? ==>
              r.value.value.window == w && r.value.value.trades != [] &&
              SortedBy(r.value.value.trades, TradeSeq) &&
              multiset(r.value.value.trades) == multiset(api(w.lo, w.hi, SeqBlock).value)
    ensures r.Ok? ==> (r.value.None? <==> api(w.lo, w.hi, SeqBlock).value == [])
  {
    var resp := api(w.lo, w.hi, SeqBlock);
    if resp.None? then Err(MissingTrades)
    else
      var file := ProcessTrades(resp.value);
      if file.None? then Ok(None) else Ok(Some(ChunkFile(w, file.value)))
  }

  /** `prefix` followed by a successful result; a failure stays a failure. */
  function Prepend<T>(prefix: seq<T>, r: Result<seq<T>>): (p: Result<seq<T>>)
    ensures p.Err? <==> r.Err?
    ensures p.Ok? ==> |p.value| == |prefix| + |r.value| && p.value[..|prefix|] == prefix && p.value[|prefix|..] == r.value
  {
    if r.Err? then r else Ok(prefix + r.value)
  }

  lemma PrependTwice<T>(a: seq<T>, b: seq<T>, r: Result<seq<T>>)
    ensures Prepend(a, Prepend(b, r)) == Prepend(a + b, r)
  {
    if r.Ok? {
      assert a + (b + r.value) == (a + b) + r.value;
    }
  }

  /** The files of all blocks `ws` of one instrument, in block order; the
      run fails if any block's response has no trades list. */
  function RangeFiles(api: SeqApi, ws: seq<Window>): Result<seq<ChunkFile>>
  {
    if ws == [] then Ok([])
    else
      var head := RangeFile(api, ws[0]);
      if head.Err? then Err(head.error)
      else Prepend(if head.value.Some? then [head.value.value] else [], RangeFiles(api, ws[1..]))
  }

  /** What one iteration of `main` produces for an instrument row whose
      latest sequence number came back in `latestResp`. */
  function InstrumentFiles(latestResp: Response, api: SeqApi): Result<seq<ChunkFile>>
  {
    var latest := LatestSeq(latestResp);
    if latest.Err? then Err(latest.error)
    else if latest.value == 0 then Ok([])
    else RangeFiles(api, SeqRanges(latest.value))
  }

  /** The files of every instrument, in list order; the run stops at the
      first instrument that fails. */
  function AllFiles(latestApi: (string, int) -> Response, seqApis: string -> SeqApi, items: seq<Instrument>)
    : Result<seq<seq<ChunkFile>>>
  {
    if items == [] then Ok([])
    else
      var first := InstrumentFiles(latestApi(items[0].name, items[0].expirationMs), seqApis(items[0].name));
      if first.Err? then Err(first.error)
      else Prepend([first.value], AllFiles(latestApi, seqApis, items[1..]))
  }

  /** The block fan-out of one instrument, run sequentially in block order. */
  method FetchRanges(api: SeqApi, ws: seq<Window>) returns (r: Result<seq<ChunkFile>>)
    ensures r == RangeFiles(api, ws)
  {
    var files: seq<ChunkFile> := [];
    var i := 0;
    while i < |ws|
      invariant 0 <= i <= |ws|
      invariant Prepend(files, RangeFiles(api, ws[i..])) == RangeFiles(api, ws)
    {
      var file := RangeFile(api, ws[i]);
      RangeFilesAt(api, ws, i);
      if file.Err? {
        return Err(file.error);
      }
      var head := if file.value.Some? then [file.value.value] else [];
      PrependTwice(files, head, RangeFiles(api, ws[i + 1..]));
      files := files + head;
      i := i + 1;
    }
    assert ws[i..] == [] && files + [] == files;
    r := Ok(files);
  }

  lemma RangeFilesAt(api: SeqApi, ws: seq<Window>, i: int)
    requires 0 <= i < |ws|
    ensures RangeFiles(api, ws[i..]) ==
              var head := RangeFile(api, ws[i]);
              if head.Err? then Err(head.error)
              else Prepend(if head.value.Some? then [head.value.value] else [], RangeFiles(api, ws[i + 1..]))
  {
    assert ws[i..][1..] == ws[i + 1..];
  }

  lemma AllFilesAt(latestApi: (string, int) -> Response, seqApis: string -> SeqApi, items: seq<Instrument>, i: int)
    requires 0 <= i < |items|
    ensures AllFiles(latestApi, seqApis, items[i..]) ==
              var first := InstrumentFiles(latestApi(items[i].name, items[i].expirationMs), seqApis(items[i].name));
              if first.Err? then Err(first.error)
              else Prepend([first.value], AllFiles(latestApi, seqApis, items[i + 1..]))
  {
    assert items[i..][1..] == items[i + 1..];
  }

  /** `main`: clamp the list to the run's clock, then for every instrument
      look up its latest sequence number at its expiration, skip it when
      that is 0, and fetch its blocks. */
  method FetchAll(latestApi: (string, int) -> Response, seqApis: string -> SeqApi, rows: seq<Instrument>, nowMs: int)
    returns (r: Result<seq<seq<ChunkFile>>>)
    ensures r == AllFiles(latestApi, seqApis, ClampList(rows, CurTs(nowMs)))
  {
    var items := ClampList(rows, CurTs(nowMs));
    var written: seq<seq<ChunkFile>> := [];
    for i := 0 to |items|
      invariant Prepend(written, AllFiles(latestApi, seqApis, items[i..])) == AllFiles(latestApi, seqApis, items)
    {
      var item := items[i];
      AllFilesAt(latestApi, seqApis, items, i);
      var latest := LatestSeq(latestApi(item.name, item.expirationMs));
      if latest.Err? {
        return Err(latest.error);
      }
      var files: Result<seq<ChunkFile>>;
      if latest.value == 0 {
        files := Ok([]);
      } else {
        files := FetchRanges(seqApis(item.name), SeqRanges(latest.value));
        if files.Err? {
          return Err(files.error);
        }
      }
      PrependTwice(written, [files.value], AllFiles(latestApi, seqApis, items[i + 1..]));
      written := written + [files.value];
    }
    assert items[|items|..] == [] && written + [] == written;
    r := Ok(written);
  }

  /** The blocks of one instrument fail exactly when some block's response
      has no trades list, whichever order the blocks complete in. */
  lemma {:induction false} RangeFilesErr(api: SeqApi, ws: seq<Window>)
    ensures RangeFiles(api, ws).Err? <==>
              exists k :: 0 <= k < |ws| && api(ws[k].lo, ws[k].hi, SeqBlock).None?
  {
    if ws != [] {
      RangeFilesErr(api, ws[1..]);
      if exists k :: 0 <= k < |ws[1..]| && api(ws[1..][k].lo, ws[1..][k].hi, SeqBlock).None? {
        var k :| 0 <= k < |ws[1..]| && api(ws[1..][k].lo, ws[1..][k].hi, SeqBlock).None?;
        assert ws[k + 1] == ws[1..][k];
      }
      if exists k :: 0 <= k < |ws| && api(ws[k].lo, ws[k].hi, SeqBlock).None? {
        var k :| 0 <= k < |ws| && api(ws[k].lo, ws[k].hi, SeqBlock).None?;
        if k > 0 {
          assert ws[1..][k - 1] == ws[k];
        }
      }
    }
  }

  /** The file of one block holds only trades of that block. */
  lemma RangeFileWithin(api: SeqApi, latest: int, w: Window)
    requires SeqWellBehaved(api, latest)
    ensures var r := RangeFile(api, w);
            r.Ok? && r.value.Some? ==>
              forall t :: t in r.value.value.trades ==> w.lo <= t.tradeSeq <= w.hi
  {
    var r := RangeFile(api, w);
    if r.Ok? && r.value.Some? {
      forall t | t in r.value.value.trades ensures w.lo <= t.tradeSeq <= w.hi {
        assert t in multiset(api(w.lo, w.hi, SeqBlock).value);
      }
    }
  }

  /** Every block file of a successful instrument comes from one of its
      blocks and holds trades, ordered by sequence number, all from that
      block. */
  lemma {:induction false} RangeFilesContent(api: SeqApi, latest: int, ws: seq<Window>)
    requires SeqWellBehaved(api, latest)
    ensures RangeFiles(api, ws).Ok? ==>
              forall f :: f in RangeFiles(api, ws).value ==>
                f.window in ws && f.trades != [] && SortedBy(f.trades, TradeSeq) &&
                forall t :: t in f.trades ==> f.window.lo <= t.tradeSeq <= f.window.hi
  {
    if ws != [] && RangeFiles(api, ws).Ok? {
      RangeFilesContent(api, latest, ws[1..]);
      RangeFileWithin(api, latest, ws[0]);
      var rest := RangeFiles(api, ws[1..]);
      forall f | f in rest.value ensures f.window in ws {
        assert f.window in ws[1..];
      }
    }
  }

  /** Every block file's window is one of the blocks. */
  lemma {:induction false} RangeFilesWindows(api: SeqApi, ws: seq<Window>)
    ensures RangeFiles(api, ws).Ok? ==> forall f :: f in RangeFiles(api, ws).value ==> f.window in ws
  {
    if ws != [] && RangeFiles(api, ws).Ok? {
      RangeFilesWindows(api, ws[1..]);
      forall f | f in RangeFiles(api, ws[1..]).value ensures f.window in ws {
        assert f.window in ws[1..];
      }
    }
  }

  /** The block files follow block order, so with disjoint ascending
      blocks no two files share a block (nor a file name). */
  lemma {:induction false} RangeFilesOrdered(api: SeqApi, ws: seq<Window>)
    requires forall i, j :: 0 <= i < j < |ws| ==> ws[i].hi < ws[j].lo
    ensures RangeFiles(api, ws).Ok? ==>
              forall i, j :: 0 <= i < j < |RangeFiles(api, ws).value| ==>
                RangeFiles(api, ws).value[i].window.hi < RangeFiles(api, ws).value[j].window.lo
  {
    if ws != [] && RangeFiles(api, ws).Ok? {
      var head := RangeFile(api, ws[0]);
      var rest := RangeFiles(api, ws[1..]);
      RangeFilesOrdered(api, ws[1..]);
      RangeFilesWindows(api, ws[1..]);
      if head.value.Some? {
        forall w | w in ws[1..] ensures ws[0].hi < w.lo {
          var k :| 0 <= k < |ws[1..]| && ws[1..][k] == w;
          assert ws[k + 1] == w;
        }
        ConsOrdered(head.value.value, ws[1..], rest.value);
      }
    }
  }

  /** One instrument's files: each holds trades of one block in sequence
      order, blocks lie in [1, latest], and no two files share a block. */
  lemma InstrumentFilesShape(latestResp: Response, api: SeqApi, latest: int)
    requires SeqWellBehaved(api, latest)
    ensures var r := InstrumentFiles(latestResp, api);
            r.Ok? ==>
              (forall f :: f in r.value ==>
                 f.window in SeqRanges(LatestSeq(latestResp).value) &&
                 1 <= f.window.lo <= f.window.hi <= LatestSeq(latestResp).value &&
                 f.window.hi - f.window.lo + 1 <= SeqBlock &&
                 f.trades != [] && SortedBy(f.trades, TradeSeq) &&
                 forall t :: t in f.trades ==> f.window.lo <= t.tradeSeq <= f.window.hi) &&
              (forall i, j :: 0 <= i < j < |r.value| ==> r.value[i].window.hi < r.value[j].window.lo)
  {
    var l := LatestSeq(latestResp);
    if l.Ok? && l.value != 0 {
      var ws := SeqRanges(l.value);
      SeqRangesDisjoint(l.value);
      RangeFilesContent(api, latest, ws);
      RangeFilesOrdered(api, ws);
    }
  }
}
