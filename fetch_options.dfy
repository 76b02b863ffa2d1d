/** deribit_fetcher/fetch_options.py: every option instrument's whole window
    is walked backward page by page (no chunking) and, when the walk
    recorded anything, written to a single file `{instrument}.csv`. */
module FetchOptions {
  import opened Trades
  import opened Windows
  import opened Instruments
  import opened BackwardWalk

  /** What `__get_all_option_trades` leaves behind for one instrument: None
      when the walk found nothing (no file is written), otherwise the file's
      rows. */
  function OptionFile(api: Api, startMs: int, endMs: int): (file: Option<seq<Trade>>)
    requires WellBehaved(api)
    ensures file.None? <==> api(startMs, endMs).None? || api(startMs, endMs).value == []
    ensures file.Some? ==> file.value != [] && SortedBy(file.value, Timestamp) &&
                           Within(file.value, startMs, endMs) &&
                           multiset(file.value) == multiset(Concat(Recorded(api, startMs, endMs)))
  {
    var pages := Recorded(api, startMs, endMs);
    RecordedNone(api, startMs, endMs);
    if pages == [] then None
    else
      MergedWithin(api, startMs, endMs);
      Some(MergePages(pages))
  }

  /** `__get_all_option_trades`. */
  method GetAllOptionTrades(api: Api, startMs: int, endMs: int) returns (file: Option<seq<Trade>>)
    requires WellBehaved(api)
    ensures file == OptionFile(api, startMs, endMs)
  {
    file := WalkBackward(api, startMs, endMs);
  }

  /** `fetch_options_trades`: one walk per instrument over
      [creation, WindowEnd(expiration)], the frozen time shared by all rows.
      The thread pool is run sequentially in row order; each instrument has
      its own file, so the order is immaterial. */
  method FetchOptionsTrades(market: (string, bool) -> Api, rows: seq<Instrument>, expired: bool, frozenMs: int)
    returns (written: seq<Option<seq<Trade>>>)
    requires forall name, old_ :: WellBehaved(market(name, old_))
    ensures |written| == |rows|
    ensures forall i :: 0 <= i < |rows| ==>
              written[i] == OptionFile(market(rows[i].name, expired), rows[i].creationMs,
                                       WindowEnd(rows[i].expirationMs, expired, frozenMs))
  {
    written := [];
    for i := 0 to |rows|
      invariant |written| == i
      invariant forall k :: 0 <= k < i ==>
                  written[k] == OptionFile(market(rows[k].name, expired), rows[k].creationMs,
                                           WindowEnd(rows[k].expirationMs, expired, frozenMs))
    {
      var row := rows[i];
      var endTimeMs := row.expirationMs;
      if !expired {
        endTimeMs := Min(endTimeMs, frozenMs);
      }
      var file := GetAllOptionTrades(market(row.name, expired), row.creationMs, endTimeMs);
      written := written + [file];
    }
  }

  /** An active instrument's file never holds a trade later than the run's
      frozen time, nor one after its expiration. */
  lemma OptionFileBeforeFrozen(api: Api, inst: Instrument, frozenMs: int)
    requires WellBehaved(api)
    ensures var file := OptionFile(api, inst.creationMs, WindowEnd(inst.expirationMs, false, frozenMs));
            file.Some? ==> forall t :: t in file.value ==>
              inst.creationMs <= t.timestamp <= frozenMs && t.timestamp <= inst.expirationMs
  {
  }
}
