# Deribit historical trade backfill: window planning and pagination

This project models the part of the Deribit historical-data fetcher that decides
which requests are made and what ends up in each output file:

- the **window planners**:
  - the one-hour chunk planner of `deribit_fetcher/fetch_futures.py`;
  - the trade-sequence block planner of `future.py`.
  Both are instances of one generic planner, `Windows.Plan`.
- the **backward time pagination**, in two forms:
  - the iterative `while True` loop, the same text in `fetch_futures.py` and `fetch_options.py`;
  - the recursive walks `get_data_by_ts_recur` (`option.py`) and `get_trades` (`deribit_fetcher.py`).
- the **forward sequence pagination** `get_data_by_seq_recur` (`option.py`).
- the **end-of-range clamp** that every entry point applies to active instruments.
- the `process_trades` ordering, the `get_latest_seq_by_ts` selection, and the flag helpers of `deribit_fetcher/utils.py`.

The trades endpoint is a function parameter:
- `Api = (int, int) -> Option<seq<Trade>>` answers a request for the window `[start, end]`.
- `SeqApi = (int, int, int) -> Option<seq<Trade>>` answers a request by sequence range and count.
- `None` stands for a response envelope without a trades list.

The facts assumed of the endpoint are collected in `BackwardWalk.WellBehaved` and `Trades.SeqWellBehaved`:
- a page has at most `count` (here `MaxCount` = 10000) trades;
- every trade lies inside the requested window;
- for the sequence endpoint, no trade is past the instrument's latest sequence number.

The order of trades inside a page is not assumed; the one exception is `OptionScript.SeqWalkSorted`, which takes "every page is ascending by sequence number" as its hypothesis. A trade keeps only its sequence number and its timestamp. Dataframe sorts are modelled by one insertion sort. Its contract says only "sorted by the key and a permutation of the input", so the order among equal keys is left open.

The source is imperative in `fetch_futures.py` and `fetch_options.py`:
- the chunk loop is the method `FetchFutures.PlanHourChunks`;
- the page loop is the method `BackwardWalk.CollectPages`.
Each is proved equal to a recursive specification function: `Windows.Plan` and `BackwardWalk.Recorded`. The thread-pool fan-outs become `for`/`while` loops in list order, proved against functions that describe the files written (`SavedFiles`, `OptionFile`, `RangeFiles`, `AllFiles`, `InstrumentFile`). The recursive walks of `option.py` and `deribit_fetcher.py` are recursive functions.

The intended result is each instrument's complete trade tape, ordered and without duplicates (the docstrings promise "all trades" of the time range). Where that intent and the code part ways, the model follows the code:
- **Merge step.** The code only concatenates the pages and sorts by timestamp; it does not break ties by `trade_seq` and drops no repeated trade. `BackwardWalk.FirstTradeBoundaryCanDuplicate` shows a well-behaved endpoint for which the iterative walk records a trade twice.
- **Next bound in the iterative loop.** The iterative loop takes the next bound from the page's first row (`iloc[0]`), which is the earliest only when the endpoint lists the page oldest-first.
- **Completeness.** Every walk ends its next request one millisecond before a page's boundary timestamp. Trades at that millisecond that did not fit on the full page are never fetched. `BackwardWalk.TiedBoundaryCanBeMissed`, `OptionScript.TsWalkCanMiss` and `DeribitFetcher.GetTradesCanMiss` exhibit an endpoint answering from a fixed tape for which each walk misses a trade.
- **Chunk width.** The chunk planner's comment says "day", but the constant is one hour.

## Model

| member | source | states |
|---|---|---|
| Utils.BoolToStr | deribit_fetcher/utils.py:7-8 | true gives "true" and false gives "false" |
| Utils.StrToBool | deribit_fetcher/utils.py:11-12 | the result is true exactly when the string is "true" |
| Utils.BoolToFilename | deribit_fetcher/utils.py:15-16 | true gives "expired" and false gives "active" |
| Utils.StrToBoolInvertsBoolToStr | deribit_fetcher/utils.py:7-12 | reading back a written flag gives the same flag |
| Utils.BoolToStrOfStrToBool | deribit_fetcher/utils.py:7-12 | a string survives a read and a write exactly when it is "true" or "false" |
| Utils.BoolToFilenameInjective | deribit_fetcher/utils.py:15-16 | expired and active instruments get different directory names |
| Instruments.WindowEnd | deribit_fetcher/fetch_futures.py:21-22 | expired instruments keep their expiration; an active one ends at the smaller of its expiration and the frozen time |
| Windows.Plan | deribit_fetcher/fetch_futures.py:35-38 | no windows exactly when the start is not below the end |
| Windows.PlanAt | deribit_fetcher/fetch_futures.py:34-38 | the k-th window exists exactly when lo + k*step < hi, and it is [lo + k*step, min(lo + k*step + step - 1, hi)] |
| Windows.PlanBounds | deribit_fetcher/fetch_futures.py:36-38 | every window lies in [lo, hi], is non-empty and holds at most step points |
| Windows.PlanContiguous | deribit_fetcher/fetch_futures.py:36-38 | each window starts one past the end of the previous one |
| Windows.PlanDisjoint | deribit_fetcher/fetch_futures.py:36-38 | an earlier window ends before any later one starts |
| Windows.PlanCovers | deribit_fetcher/fetch_futures.py:36-38 | a point is covered exactly when it is in [lo, hi), or it is hi and hi - lo is not a multiple of step |
| Trades.SortByPermutation | deribit_fetcher/fetch_futures.py:112 | sorting keeps exactly the given trades, as a multiset |
| Trades.SortBySorted | deribit_fetcher/fetch_futures.py:112 | the sorted sequence is ascending in the chosen column |
| Trades.ProcessTrades | option.py:103-110 | nothing is written for an empty list; otherwise exactly the given trades, ascending by trade sequence number |
| Trades.MinTs | option.py:98 | the result is the timestamp of a trade of the page and no trade of the page is earlier |
| Trades.Concat | deribit_fetcher/fetch_futures.py:111 | the concatenation is as long as all the pages together |
| BackwardWalk.CollectPages | deribit_fetcher/fetch_futures.py:86-106 | the loop records exactly the pages of `Recorded`: it stops at an absent or empty page (not recorded), after a short page, or when the next bound falls below the start; after a full page the next end is the first trade's timestamp minus 1 |
| BackwardWalk.WalkBackward | deribit_fetcher/fetch_futures.py:86-113 | None exactly when no page was recorded; otherwise the merge of the recorded pages |
| BackwardWalk.MergePages | deribit_fetcher/fetch_futures.py:111-112 | the merge is sorted by timestamp, holds exactly the recorded trades with no deduplication, and is as long as all pages together |
| BackwardWalk.MergedWithin | deribit_fetcher/fetch_futures.py:108-113 | a walk that recorded a page yields a non-empty result inside the window |
| BackwardWalk.RecordedFull | deribit_fetcher/fetch_futures.py:101-106 | after a full page the next bound is strictly below the current one; the walk stops there exactly when the bound falls below the start |
| BackwardWalk.RecordedPages | deribit_fetcher/fetch_futures.py:92-106 | every recorded page is non-empty, at most MaxCount long and inside the window; all but the last are full; each later request ends one millisecond before the previous page's first trade, so first timestamps strictly decrease |
| BackwardWalk.RecordedNone | deribit_fetcher/fetch_futures.py:92-99 | nothing is recorded exactly when the first response has no trades; otherwise the first recorded page is that response |
| BackwardWalk.FirstTradeBoundaryCanDuplicate | deribit_fetcher/fetch_futures.py:104 | some well-behaved endpoint makes the walk record a trade twice, because the bound comes from the page's first trade |
| BackwardWalk.TiedBoundaryCanBeMissed | deribit_fetcher/fetch_futures.py:101-106 | for a well-behaved endpoint answering from a tape of 10001 trades at one millisecond, the walk never records the trade that did not fit on the full page |
| FetchFutures.PlanHourChunks | deribit_fetcher/fetch_futures.py:32-38 | the chunk loop produces exactly the generic plan of [start, end] in one-hour steps |
| FetchFutures.HourChunkCount | deribit_fetcher/fetch_futures.py:34-38 | there are ceil((end - start) / one hour) chunks, and none when start >= end |
| FetchFutures.GetAllFutureTrades | deribit_fetcher/fetch_futures.py:29-69 | the files written are, in chunk order, one per chunk whose walk recorded a page, each holding that walk's merge |
| FetchFutures.SavedFilesContent | deribit_fetcher/fetch_futures.py:40-65 | every file belongs to one of the chunks and holds a non-empty, time-sorted list of trades inside its chunk |
| FetchFutures.SavedFilesOrdered | deribit_fetcher/fetch_futures.py:43-62 | with ascending disjoint chunks, the files' windows are ascending and disjoint |
| FetchFutures.ChunkFilesDisjoint | deribit_fetcher/fetch_futures.py:32-65 | one instrument's chunk files lie inside [start, end], each holds sorted trades of its own chunk, and no two files' windows overlap |
| FetchFutures.FetchFuturesTrades | deribit_fetcher/fetch_futures.py:13-26 | each instrument's files are those of its window from creation to the clamped end, with one frozen time shared by all rows |
| FetchOptions.OptionFile | deribit_fetcher/fetch_options.py:56-59 | no file exactly when the first response has no trades; otherwise a non-empty, time-sorted file inside the window holding exactly the recorded trades |
| FetchOptions.GetAllOptionTrades | deribit_fetcher/fetch_options.py:45-69 | the walk's result is the file `OptionFile` describes |
| FetchOptions.FetchOptionsTrades | deribit_fetcher/fetch_options.py:13-32 | each instrument's file is the walk over its creation to its clamped end, with one frozen time shared by all rows |
| FetchOptions.OptionFileBeforeFrozen | deribit_fetcher/fetch_options.py:22-23 | an active instrument's file holds no trade after the frozen time or after its expiration |
| OptionScript.SeqWalk | option.py:72-84 | a successful walk holds only sequence numbers from the start up to the latest one |
| OptionScript.SeqRequestsContiguous | option.py:82-83 | the first request is the caller's window; each later one starts right after the previous one ends and spans count numbers; every request but the last got a full page |
| OptionScript.SeqWalkOutcome | option.py:80-84 | the walk fails exactly when its last request finds no trades list; otherwise its length is count per full request plus the short last page |
| OptionScript.SeqWalkSorted | option.py:82-84 | with pages in sequence order, the whole walk is in sequence order |
| OptionScript.SeqWalkDistinct | option.py:82-84 | with duplicate-free pages, the whole walk is duplicate-free |
| OptionScript.TsWalk | option.py:87-100 | a successful walk holds only trades inside the window |
| OptionScript.TsWalkNewestFirst | option.py:97-100 | every trade the recursive call returns is strictly older than every trade of the current page |
| OptionScript.TsWalkCanMiss | option.py:97-100 | for the same tape, the time walk succeeds without the trade that did not fit on the full page |
| OptionScript.TsWalkDistinct | option.py:96-100 | with duplicate-free pages, the whole walk is duplicate-free |
| OptionScript.FetchAndProcess | option.py:216-219 | a written file is ascending by sequence number and inside the instrument's lifetime |
| FutureScript.CurTs | future.py:45 | the clamp time is a whole number of seconds, truncated toward zero from the clock |
| FutureScript.ClampList | future.py:45-46 | every row keeps its name and creation; its expiration becomes the clamp of the expiration at cur_ts; rows not past cur_ts are unchanged |
| FutureScript.LatestSeq | future.py:92-95 | 0 for an empty page, else the first trade's sequence number; a missing trades list is an error |
| FutureScript.SeqRangesArePlan | future.py:123-126 | the comprehension is the generic plan of [1, latest] in blocks of 10000 |
| FutureScript.SeqRangesEmpty | future.py:119-126 | there are no blocks exactly when latest <= 1 |
| FutureScript.SeqRangesCover | future.py:123-126 | a number is covered exactly when it is in [1, latest), or it is latest > 1 and latest % 10000 != 1 |
| FutureScript.SeqRangesDisjoint | future.py:123-126 | blocks lie in [1, latest], are at most 10000 wide, are contiguous and do not overlap |
| FutureScript.RangeFile | future.py:131-134 | one block fails exactly when its response has no trades list; no file exactly when the list is empty; otherwise the block's file holds exactly its trades, ascending by sequence number |
| FutureScript.FetchRanges | future.py:136-141 | the block loop yields the files of `RangeFiles` |
| FutureScript.RangeFilesErr | future.py:131-141 | an instrument's blocks fail exactly when some block's response has no trades list, in whatever order blocks complete |
| FutureScript.FetchAll | future.py:108-141 | the run yields the files of `AllFiles` over the clamped list |
| FutureScript.RangeFileWithin | future.py:131-134 | a block's file holds only trades of that block |
| FutureScript.RangeFilesContent | future.py:131-141 | each block file belongs to a block and holds non-empty, sequence-sorted trades of that block |
| FutureScript.RangeFilesOrdered | future.py:123-141 | block files follow block order and their windows do not overlap |
| FutureScript.InstrumentFilesShape | future.py:118-141 | each of one instrument's files belongs to one of the blocks of [1, latest], lies in [1, latest], is at most 10000 wide and holds sorted trades of its block; no two files share a block |
| DeribitFetcher.GetTrades | deribit_fetcher.py:66-109 | the result is empty exactly when the first response has no trades |
| DeribitFetcher.GetTradesFull | deribit_fetcher.py:100-105 | on a full page the earliest trade is inside the window, and the result is the walk ending one millisecond before it followed by the sorted page |
| DeribitFetcher.GetTradesWithin | deribit_fetcher.py:92-107 | every trade of the result lies in the requested window |
| DeribitFetcher.GetTradesSorted | deribit_fetcher.py:95-105 | the whole result is ascending by timestamp |
| DeribitFetcher.OlderInFront | deribit_fetcher.py:103-105 | trades older than a sorted page's earliest, put in front of it, keep the result sorted |
| DeribitFetcher.GetTradesKeepsAll | deribit_fetcher.py:92-107 | the result holds exactly the trades of the fetched pages, as a multiset |
| DeribitFetcher.GetTradesCount | deribit_fetcher.py:92-107 | the result is as long as all fetched pages together |
| DeribitFetcher.FetchedPagesFull | deribit_fetcher.py:100-104 | every fetched page but the last has exactly 10000 trades |
| DeribitFetcher.GetTradesDistinct | deribit_fetcher.py:100-105 | with duplicate-free pages, the result is duplicate-free |
| DeribitFetcher.GetTradesCanMiss | deribit_fetcher.py:100-105 | for the same tape, `get_trades` returns a result without the trade that did not fit on the full page |
| DeribitFetcher.EndBound | deribit_fetcher.py:201-203 | when EXPIRED is "false" the end is the clamp at the captured time; otherwise the expiration |
| DeribitFetcher.InstrumentFile | deribit_fetcher.py:121-144 | with FORMAT "csv" or "all": no file exactly when the first response has no trades; otherwise the file is time-sorted and inside the window |
| DeribitFetcher.FetchAll | deribit_fetcher.py:175-221 | each instrument's file is the walk from creation to `EndBound`, with one captured time for all rows |

## Left out

- HTTP requests, the status-200 retry loops, the retry-on-exception recursion and `exit(-1)` of `deribit_fetcher.py` are left out. The endpoint is a function parameter.
- The instrument-list downloads (`get_list`'s fetch branch, `get_all_instruments`, `deribit_fetcher/common.py`) are left out. Instrument rows are inputs.
- Thread pools and `as_completed` are left out. Each fan-out runs sequentially in list order. The files have distinct names, so the set of files written does not depend on completion order.
- Exceptions inside a worker are caught and logged by `fetch_futures.py` and `fetch_options.py`, and are left out.
- CSV and parquet writing, `merge_all_csv`, `join_with_list`, `save_to_parquet` and `prepare_dir` are left out. A file is modelled as the sequence of rows it would hold.
- The `PARQUET` global of `deribit_fetcher.py` is left out. Its `pd.concat` results are discarded, so it stays empty.
- DeribitFetcher.InstrumentFile: models FORMAT "csv" and "all" only. With FORMAT "parquet", `get_all_trades_by_instrument` writes no per-instrument file at all, and because of the discarded concat the run's output holds no trades.
- Price, amount, IV and the other float columns are left out, and so are the dtype specs.
- Clocks (`datetime.now()`, `time.time()`) are left out. They become an integer millisecond parameter captured once per run.
- The include-old flag of a request is folded into the `market(name, flag)` endpoint parameter.
- A response whose `result` is present but null makes `.get` raise in `fetch_futures.py` and `fetch_options.py`. The model treats every response without a trades list as `None`, which those loops treat as the end of the walk.
- OptionScript.SeqWalk: requires count > 0. With count 0 an empty page would recurse forever; `get_data_by_seq_recur` has no caller in the repository, and its default count is 10000. Termination also relies on the endpoint never returning a sequence number above the instrument's latest one.
- OptionScript.TsWalk: fixed to the default count of 10000. Its one caller, `fetch_and_process`, passes no count.
- FutureScript.AllFiles: a failing instrument makes the whole run an error, and the error value carries no files. In the source, the block pool of the failing instrument still finishes every submitted block before the exception leaves `main`. So every block of that instrument that does not fail is written, as are all files of earlier instruments.
- FutureScript.FetchRanges: stops at the first failing block in block order, while the source raises the first failure in completion order. Which blocks fail does not depend on order (`FutureScript.RangeFilesErr`).
- The order among trades with equal sort keys is left open, since a pandas sort promises none.

