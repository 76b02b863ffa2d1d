/** deribit_fetcher/fetch_futures.py: every future instrument's window is
    cut into one-hour chunks, each chunk is walked backward page by page,
    and each chunk that yielded trades is written to its own file
    `{instrument}_{chunkStart}_{chunkEnd}.csv`. */
module FetchFutures {
  import opened Trades
  import opened Windows
  import opened Instruments
  import opened BackwardWalk

  /** Width of a chunk: one hour in milliseconds (the source comment says
      "day", the constant is an hour). */
  const HourMs: nat := 60 * 60 * 1000

  /** The chunk planner loop of `__get_all_future_trades`. */
  method PlanHourChunks(startMs: int, endMs: int) returns (chunks: seq<Window>)
    ensures chunks == Plan(startMs, endMs, HourMs)
  {
    chunks := [];
    var tmpEndMs := startMs;
    while tmpEndMs < endMs
      invariant chunks + Plan(tmpEndMs, endMs, HourMs) == Plan(startMs, endMs, HourMs)
      decreases endMs - tmpEndMs
    {
      chunks := chunks + [Window(tmpEndMs, Min(tmpEndMs + HourMs - 1, endMs))];
      tmpEndMs := tmpEndMs + HourMs;
    }
  }

  /** There are as many chunks as started hours in [startMs, endMs): none
      when startMs >= endMs. */
  lemma HourChunkCount(startMs: int, endMs: int)
    ensures |Plan(startMs, endMs, HourMs)| ==
              if startMs < endMs then (endMs - startMs + HourMs - 1) / HourMs else 0
  {
    var n := |Plan(startMs, endMs, HourMs)|;
    PlanAt(startMs, endMs, HourMs, n);
    if n > 0 {
      PlanAt(startMs, endMs, HourMs, n - 1);
    }
  }

  /** The files the chunk loop writes for the windows `ws`, in chunk order:
      one per chunk whose walk recorded at least one page. */
  function SavedFiles(api: Api, ws: seq<Window>): seq<ChunkFile>
    requires WellBehaved(api)
  {
    if ws == [] then []
    else
      var pages := Recorded(api, ws[0].lo, ws[0].hi);
      (if pages == [] then [] else [ChunkFile(ws[0], MergePages(pages))]) + SavedFiles(api, ws[1..])
  }

  /** `__get_all_future_trades`: plan the chunks, walk each one and keep the
      non-empty results.  The thread pool is run sequentially in chunk order;
      the files have distinct names, so the order of writing is immaterial. */
  method GetAllFutureTrades(api: Api, startMs: int, endMs: int) returns (files: seq<ChunkFile>)
    requires WellBehaved(api)
    ensures files == SavedFiles(api, Plan(startMs, endMs, HourMs))
  {
    var chunks := PlanHourChunks(startMs, endMs);
    files := [];
    var i := 0;
    while i < |chunks|
      invariant 0 <= i <= |chunks|
      invariant files + SavedFiles(api, chunks[i..]) == SavedFiles(api, chunks)
    {
      var df := WalkBackward(api, chunks[i].lo, chunks[i].hi);
      SavedFilesStep(api, chunks, i, files, df);
      if df.Some? {
        files := files + [ChunkFile(chunks[i], df.value)];
      }
      i := i + 1;
    }
  }

  /** One chunk's contribution, as the loop in `GetAllFutureTrades` sees it. */
  lemma SavedFilesAt(api: Api, ws: seq<Window>, i: int)
    requires WellBehaved(api)
    requires 0 <= i < |ws|
    ensures SavedFiles(api, ws[i..]) ==
              (if Recorded(api, ws[i].lo, ws[i].hi) == [] then []
               else [ChunkFile(ws[i], MergePages(Recorded(api, ws[i].lo, ws[i].hi)))]) +
              SavedFiles(api, ws[i + 1..])
  {
    assert ws[i..][1..] == ws[i + 1..];
  }

  /** The invariant of the loop in `GetAllFutureTrades` survives one chunk. */
  lemma SavedFilesStep(api: Api, ws: seq<Window>, i: int, files: seq<ChunkFile>, df: Option<seq<Trade>>)
    requires WellBehaved(api)
    requires 0 <= i < |ws|
    requires df.None? <==> Recorded(api, ws[i].lo, ws[i].hi) == []
    requires df.Some? ==> df.value == MergePages(Recorded(api, ws[i].lo, ws[i].hi))
    ensures files + SavedFiles(api, ws[i..]) ==
              (if df.Some? then files + [ChunkFile(ws[i], df.value)] else files) + SavedFiles(api, ws[i + 1..])
  {
    SavedFilesAt(api, ws, i);
  }

  /** Each file comes from a window of `ws` and holds a non-empty,
      time-sorted list of trades lying inside that window. */
  lemma {:induction false} SavedFilesContent(api: Api, ws: seq<Window>)
    requires WellBehaved(api)
    ensures forall f :: f in SavedFiles(api, ws) ==>
              f.window in ws && f.trades != [] && SortedBy(f.trades, Timestamp) &&
              Within(f.trades, f.window.lo, f.window.hi)
  {
    if ws != [] {
      SavedFilesAt(api, ws, 0);
      SavedFilesContent(api, ws[1..]);
      if Recorded(api, ws[0].lo, ws[0].hi) != [] {
        MergedWithin(api, ws[0].lo, ws[0].hi);
      }
      SavedFilesWindows(api, ws);
    }
  }

  /** Every file's window is one of `ws`. */
  lemma {:induction false} SavedFilesWindows(api: Api, ws: seq<Window>)
    requires WellBehaved(api)
    ensures forall f :: f in SavedFiles(api, ws) ==> f.window in ws
  {
    if ws != [] {
      SavedFilesAt(api, ws, 0);
      SavedFilesWindows(api, ws[1..]);
      forall f | f in SavedFiles(api, ws[1..]) ensures f.window in ws {
        assert f.window in ws[1..];
      }
    }
  }

  /** Files follow window order: when the windows are ascending and
      disjoint, so are the windows of the files, and (by SavedFilesContent)
      no trade timestamp occurs in two files. */
  lemma {:induction false} SavedFilesOrdered(api: Api, ws: seq<Window>)
    requires WellBehaved(api)
    requires forall i, j :: 0 <= i < j < |ws| ==> ws[i].hi < ws[j].lo
    ensures forall i, j :: 0 <= i < j < |SavedFiles(api, ws)| ==>
              SavedFiles(api, ws)[i].window.hi < SavedFiles(api, ws)[j].window.lo
  {
    if ws != [] {
      var tail := SavedFiles(api, ws[1..]);
      var files := SavedFiles(api, ws);
      SavedFilesAt(api, ws, 0);
      SavedFilesOrdered(api, ws[1..]);
      SavedFilesWindows(api, ws[1..]);
      if Recorded(api, ws[0].lo, ws[0].hi) != [] {
        forall w | w in ws[1..] ensures ws[0].hi < w.lo {
          var k :| 0 <= k < |ws[1..]| && ws[1..][k] == w;
          assert ws[k + 1] == w;
        }
        ConsOrdered(files[0], ws[1..], tail);
      }
    }
  }

  /** The chunk files of one instrument: ordered, disjoint windows inside
      [startMs, endMs], each file's trades inside its own chunk. */
  lemma ChunkFilesDisjoint(api: Api, startMs: int, endMs: int)
    requires WellBehaved(api)
    ensures forall f :: f in SavedFiles(api, Plan(startMs, endMs, HourMs)) ==>
              startMs <= f.window.lo && f.window.hi <= endMs &&
              f.trades != [] && SortedBy(f.trades, Timestamp) &&
              Within(f.trades, f.window.lo, f.window.hi)
    ensures forall i, j :: 0 <= i < j < |SavedFiles(api, Plan(startMs, endMs, HourMs))| ==>
              SavedFiles(api, Plan(startMs, endMs, HourMs))[i].window.hi <
              SavedFiles(api, Plan(startMs, endMs, HourMs))[j].window.lo
  {
    var ws := Plan(startMs, endMs, HourMs);
    forall i, j | 0 <= i < j < |ws| ensures ws[i].hi < ws[j].lo {
      PlanDisjoint(startMs, endMs, HourMs, i, j);
    }
    SavedFilesContent(api, ws);
    SavedFilesOrdered(api, ws);
    PlanBounds(startMs, endMs, HourMs);
  }

  /** `fetch_futures_trades`: each instrument's window runs from its
      creation to its expiration, cut at the one frozen time shared by the
      whole run when the list is of active instruments.  `market(name,
      expired)` is the trades endpoint for one instrument, the flag being
      the request's include-old parameter. */
  method FetchFuturesTrades(market: (string, bool) -> Api, rows: seq<Instrument>, expired: bool, frozenMs: int)
    returns (written: seq<seq<ChunkFile>>)
    requires forall name, old_ :: WellBehaved(market(name, old_))
    ensures |written| == |rows|
    ensures forall i :: 0 <= i < |rows| ==>
              written[i] == SavedFiles(market(rows[i].name, expired),
                                       Plan(rows[i].creationMs,
                                            WindowEnd(rows[i].expirationMs, expired, frozenMs), HourMs))
  {
    written := [];
    for i := 0 to |rows|
      invariant |written| == i
      invariant forall k :: 0 <= k < i ==>
                  written[k] == SavedFiles(market(rows[k].name, expired),
                                           Plan(rows[k].creationMs,
                                                WindowEnd(rows[k].expirationMs, expired, frozenMs), HourMs))
    {
      var row := rows[i];
      var endTimeMs := row.expirationMs;
      if !expired {
        endTimeMs := Min(endTimeMs, frozenMs);
      }
      var files := GetAllFutureTrades(market(row.name, expired), row.creationMs, endTimeMs);
      written := written + [files];
    }
  }
}
