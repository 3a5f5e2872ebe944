# Stock backtest tool: a Dafny model

This project models the logic inside the Streamlit page script of the stock backtest
tool (`streamlit_backtest_app.py`). The tool replays a list of entry signals against
historical price bars and tests a fixed-risk exit rule on each trade. The rule has a
stop-loss (SL) and a take-profit (TP), both given as a percentage of the entry price.

The model has three parts.

- **Signal deduplication** (`signals.dfy`, module `Signals`). A signal is a symbol
  and a timestamp in minutes. `Day(t) = t / 1440` is its calendar day. The tool keeps
  the earliest signal of each (symbol, day) and orders the kept signals by time.
  `FirstEntries` builds this list one signal at a time. It is proved to be in time
  order, to hold at most one signal per (symbol, day), and to hold exactly the
  earliest signal of each (symbol, day).
- **Per-trade exit scan** (`exit_scan.dfy`, `exit_properties.dfy`).
  - `Evaluate` is the reference definition of one trade. It uses the 5-minute bars,
    or the daily bars when there are none. It keeps the bars at or after the entry
    time and enters at the open of the first of them. It then looks for the first
    later bar that breaches a threshold, testing the stop-loss first. If no bar
    breaches, the trade is STILL_OPEN at the last close.
  - `ScanTrade` is the same scan written as the application's loop: skip the entry
    bar, break at the first breach, then fall back to STILL_OPEN. It is proved equal
    to `Evaluate`.
  - The lemmas in `ExitProperties` state what the tool promises about a trade, in
    terms of `Evaluate` and its post-entry part `Exit`.
- **Run and statistics** (`backtest.dfy`, `statistics.dfy`).
  - `RunBacktest` is the run loop. For each entry it fetches bars and appends exactly
    one row. `ProcessEntry` requests daily bars only when there are no 5-minute bars.
  - `Summarize` decides whether the summary block is shown, and `Tally` computes
    it. The trade count, win rate, total and
    average P&L and the take-profit and stop-loss counts are over the COMPLETED
    rows. The OPEN count is over all rows.
  - The total P&L of a run is proved to equal TP times the take-profit exits minus
    SL times the stop-loss exits.

Prices are exact `real`s, so thresholds and P&L are exact. The price provider is a
pure function parameter, `(symbol, start day, end day, resolution) -> bars`. The
window is 7 days from the entry day. A provider that returns nothing gives an empty
sequence.

Three behaviours of the code worth noting:

- A trade whose only post-entry bar is the entry bar ends **OPEN / STILL_OPEN** at
  that bar's close, not NO_DATA_AFTER_ENTRY. The scan skips the entry bar, finds no
  exit and falls through to the still-open branch. See `SingleBarStillOpen` and
  `Examples.EntryBarOnlyScenario`.
- A zero entry price is not rejected. In the still-open branch the P&L division by
  zero gives a non-finite float instead of an error. The model records this as
  `openPnlPct == None`.
- The candle filter `hist.index >= entry_datetime` keeps every bar at or after the
  entry time, wherever it sits in the series. It does not cut a prefix. The model
  uses this filter. `AtOrAfterIsSuffix` shows that it cuts a prefix when the bars are
  in time order.

## Model

| member | source | states |
|---|---|---|
| Signals.FirstEntries | streamlit_backtest_app.py:32-34 | the entry list is in non-decreasing time order, has at most one signal per (symbol, calendar day), and is no longer than the input |
| Signals.FirstEntriesAreEarliest | streamlit_backtest_app.py:29-34 | a signal is an entry if and only if it is in the input and no input signal of the same (symbol, day) is earlier |
| Signals.EveryDayHasEntry | streamlit_backtest_app.py:33 | every (symbol, day) that has a signal has an entry, at or before that signal's time |
| Signals.EarliestExists | streamlit_backtest_app.py:33 | every group of signals sharing a (symbol, day) has an earliest member |
| ExitScan.AtOrAfter | streamlit_backtest_app.py:94 | the bars kept are exactly those at or after the entry time |
| ExitScan.AtOrAfterIsSuffix | streamlit_backtest_app.py:94 | on a time-ordered series the filter keeps a suffix and drops only bars before the entry time |
| ExitScan.AtOrAfterHead | streamlit_backtest_app.py:94-111 | the first kept bar is the first bar of the series at or after the entry time |
| ExitScan.StopLossPrice | streamlit_backtest_app.py:114 | for a positive entry and 0 < SL < 100, the stop-loss price lies strictly between 0 and the entry price |
| ExitScan.TakeProfitPrice | streamlit_backtest_app.py:115 | for a positive entry and TP > 0, the take-profit price is above the entry price |
| ExitScan.FirstBreach | streamlit_backtest_app.py:119-159 | returns the first index at or after `from` whose low reaches the stop-loss or whose high reaches the take-profit; every bar before it breaches neither; returns the length if none breaches |
| ExitScan.Exit | streamlit_backtest_app.py:110-177 | the outcome of a non-empty post-entry series is COMPLETED or OPEN at the given resolution with the first bar's open as entry price; a COMPLETED exit time is that of a breaching bar after the entry bar; an OPEN trade ends at the last bar's time and close |
| ExitScan.Evaluate | streamlit_backtest_app.py:70-177 | a COMPLETED or OPEN trade enters at the open of a bar of the chosen series at or after the entry time, and never exits before the entry time |
| ExitScan.ScanTrade | streamlit_backtest_app.py:68-177 | the loop with the 5-minute/daily fallback, entry-bar skip, stop-loss-first test and still-open fallback returns exactly the reference outcome `Evaluate` |
| ExitProperties.ReportedPnlColumn | streamlit_backtest_app.py:84-175 | the `pnl_pct` column of a trade's row is 0 for NO_DATA and NO_DATA_AFTER_ENTRY, −SL for a stop-loss exit, +TP for a take-profit exit, and the percent return from entry price to last close for an OPEN trade (absent when the entry price is 0) |
| ExitProperties.ResolutionFallback | streamlit_backtest_app.py:70-91 | NO_DATA if and only if both series are empty, with a zero P&L column; otherwise the resolution is 5min when there are 5-minute bars, else daily; daily bars do not matter when 5-minute bars exist |
| ExitProperties.NoDataAfterEntryIff | streamlit_backtest_app.py:94-108 | NO_DATA_AFTER_ENTRY if and only if the chosen series is non-empty and every bar in it is earlier than the entry time; its P&L column is 0 |
| ExitProperties.EntryAtFirstBarAtOrAfter | streamlit_backtest_app.py:110-111 | when a bar at or after the entry time exists, the trade is COMPLETED or OPEN and its entry price is the open of the first such bar |
| ExitProperties.ExitAtFirstBreach | streamlit_backtest_app.py:119-159 | if bar k ≥ 1 is the first breach after the entry bar, the trade completes at bar k: STOP_LOSS at entry·(1−SL/100) with P&L −SL if its low reaches the stop-loss, else TAKE_PROFIT at entry·(1+TP/100) with P&L +TP |
| ExitProperties.CompletedIffBreach | streamlit_backtest_app.py:118-162 | the outcome is COMPLETED or OPEN; it is COMPLETED if and only if some bar after the entry bar breaches, and then its exit time is that of the first such bar (index ≥ 1) |
| ExitProperties.StillOpenAtLastClose | streamlit_backtest_app.py:161-177 | with no breach after the entry bar, the trade is OPEN/STILL_OPEN at the last bar's close and time, with P&L (last close − entry)/entry·100 |
| ExitProperties.SingleBarStillOpen | streamlit_backtest_app.py:119-121 | a lone entry bar gives OPEN/STILL_OPEN at its own close, not NO_DATA_AFTER_ENTRY |
| ExitProperties.StopLossPriority | streamlit_backtest_app.py:127-145 | a first breaching bar that reaches both thresholds is a STOP_LOSS exit |
| ExitProperties.StopLossBeforeTakeProfit | streamlit_backtest_app.py:127-142 | a stop-loss touch at bar k ≥ 1 with no earlier take-profit touch completes as STOP_LOSS at the stop-loss price with P&L −SL |
| ExitProperties.TakeProfitBeforeStopLoss | streamlit_backtest_app.py:144-159 | a take-profit touch at bar k ≥ 1 with no stop-loss touch up to and including k completes as TAKE_PROFIT at the take-profit price with P&L +TP |
| ExitProperties.PnlIsReturn | streamlit_backtest_app.py:134-175 | the reported P&L of a priced trade is the percent return from its entry price to its exit price (for a completed trade, whenever the entry price is non-zero) |
| ExitProperties.ExitSides | streamlit_backtest_app.py:15-16 | within the sidebar bounds and at a positive entry price, a stop-loss exit is below entry with negative P&L and a take-profit exit above entry with positive P&L |
| ExitProperties.CompletedAtThreshold | streamlit_backtest_app.py:128-159 | every completed trade exits at its threshold price with P&L exactly −SL or +TP |
| Statistics.CountCompleted | streamlit_backtest_app.py:206 | the number of COMPLETED rows is at most the number of rows |
| Statistics.CountOpen | streamlit_backtest_app.py:238 | the OPEN rows and the COMPLETED rows together are at most the number of rows |
| Statistics.TotalPnlWithoutCompleted | streamlit_backtest_app.py:206-220 | the sum of `pnl_pct` over COMPLETED rows is 0 when no row is COMPLETED |
| Statistics.Percent | streamlit_backtest_app.py:216 | the win rate times the trade count is 100 times the winners, and it lies in [0, 100] when the winners are no more than the trades |
| Statistics.Mean | streamlit_backtest_app.py:224 | the average P&L times the trade count is the total P&L |
| Statistics.Summarize | streamlit_backtest_app.py:206-208 | the summary block is shown if and only if some row is COMPLETED, and it then holds the figures of `Tally` |
| Statistics.Tally | streamlit_backtest_app.py:210-238 | the trade count is the COMPLETED count, which is take-profit hits plus stop-loss hits; the hit counts are the take-profit and stop-loss exits; the total is the sum of `pnl_pct` over COMPLETED rows; win rate times trade count is 100 times the take-profit hits, and the win rate lies in [0, 100]; average P&L times trade count is the total; the OPEN count is over all rows |
| Statistics.CompletedSplit | streamlit_backtest_app.py:215-235 | take-profit exits plus stop-loss exits equal the number of COMPLETED rows |
| Statistics.CompletedExists | streamlit_backtest_app.py:206-208 | the COMPLETED count is positive if and only if some row is COMPLETED |
| Statistics.TotalPnlClosedForm | streamlit_backtest_app.py:220 | when every completed row carries −SL or +TP, the total P&L is TP·(take-profit exits) − SL·(stop-loss exits) |
| Backtest.RecordFor | streamlit_backtest_app.py:53-177 | the row of an entry carries its symbol, calendar day and time, and a COMPLETED or OPEN row never exits before its entry time |
| Backtest.Records | streamlit_backtest_app.py:50-52 | the results table has one row per entry, in entry order, each row the outcome of that entry |
| Backtest.ProcessEntry | streamlit_backtest_app.py:53-177 | fetching 5-minute bars, fetching daily bars only when there are none, and scanning yields exactly that entry's row |
| Backtest.RunBacktest | streamlit_backtest_app.py:29-177 | the run deduplicates the signals and appends exactly one row per entry, in order, each the entry's reference outcome |
| Backtest.RecordPnl | streamlit_backtest_app.py:128-159 | a completed row's P&L is −SL for a stop-loss exit and +TP for a take-profit exit |
| Backtest.RunTotalPnl | streamlit_backtest_app.py:206-220 | a run's total P&L equals TP·(take-profit exits) − SL·(stop-loss exits) |
| Backtest.EmptyUploadHalts | streamlit_backtest_app.py:33-208 | as written, the page stops after the run if and only if the upload has no usable signal rows; for such an upload `Summarize` gives no summary |
| Backtest.OneRowPerDay | streamlit_backtest_app.py:33-52 | every (symbol, day) in the input has a row, at or before the input signal's time, and no two rows share a (symbol, day) |
| Examples.StopLossScenario | streamlit_backtest_app.py:110-142 | entry 100, SL 3 %, second bar low 96: STOP_LOSS at 97 with P&L −3 |
| Examples.TakeProfitScenario | streamlit_backtest_app.py:144-159 | entry 100, TP 7.5 %, second bar high 108 and low 98: TAKE_PROFIT at 107.5 with P&L +7.5 |
| Examples.EntryBarOnlyScenario | streamlit_backtest_app.py:72-177 | with no 5-minute bars, daily bars before the entry time are dropped, and the only daily bar at or after the entry time gives STILL_OPEN at its close, with daily resolution |

## Left out

- Streamlit page layout, sidebar widgets, file upload, progress bar, metrics display,
  result tables and the download button are left out. They are presentation only.
  The sidebar bounds on SL and TP appear only as `Market.ValidConfig`.
- CSV reading and export, and parsing of `DD-MM-YYYY HH:MM am/pm` strings, are left
  out. Timestamps are integer minutes on one time line. The calendar day is
  `t / 1440`. Rows whose date fails to parse, which abort the run, are not modelled.
- The price provider's time zone is not modelled. The model compares bar and entry
  timestamps directly on the same integer time line. With the pinned library versions
  (pandas 2.1.1, yfinance 0.2.31, in `script (1).py`), the bar index is most likely
  time-zone aware and the parsed entry time naive. Comparing the two at line 94 would
  then raise an error, and the handler would turn every trade with data into an ERROR
  row. This reading of the library behaviour is plausible but unconfirmed. The model
  shows what the scan does when the comparison succeeds.
- Rows without a symbol, and rows with an empty date cell, are not modelled. The
  date parsing turns an empty cell into a missing time, and the grouping drops rows
  with a missing symbol or day without stopping the run. Here every signal has a
  symbol and a time.
- Signal columns other than symbol and time are not modelled. The core ignores them.
- The provider's network client is replaced by a pure function parameter. The `.NS`
  ticker suffix is left out because it only names the instrument.
- The exception handler and its ERROR row, with the error text cut to 50 characters,
  are left out. They depend on failures of foreign code.
- The `time.sleep` pause every ten entries is left out. It is timing only.
- `round(..., 2)` on prices and P&L is left out. All values are the exact reals
  before rounding.
- The data-quality summary (counts per resolution, and the warning when daily bars
  were used) is left out. It is display only.
- Statistics.Summarize: gives no summary for an empty results table. The code as written
  stops at line 206 instead; that case is `ResultsPageAsWritten` with `Backtest.EmptyUploadHalts`, listed under
  "## Findings".
- Signals.FirstEntries: among entries with the same timestamp, the order is whatever
  the insertion produces. The source sorts with pandas' default non-stable sort, so it
  promises no order among such ties. The contract promises only non-decreasing time.
- Floating point is not modelled. Where the source's float division by a zero entry
  price gives inf or NaN, the model gives `None`.

## Findings

| source | as written | input that shows it | evidently intended | confidence | as-written member | corrected member |
|---|---|---|---|---|---|---|
| streamlit_backtest_app.py:200-208 | with no result rows, `pd.DataFrame([])` has no `status` column, so `results_df['status']` raises a KeyError outside the try block and the page stops | an upload with a header and no data rows, or whose rows all lack a symbol, then "Run Backtest" | show no statistics when no trade completed, as for a non-empty table with no COMPLETED row | not executed; reading of the pandas behaviour | Backtest.EmptyUploadHalts | Statistics.Summarize |
