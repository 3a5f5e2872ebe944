// One backtest run: deduplicate the signals, then for every entry fetch its bars
// and append exactly one result row, in entry order.

module Backtest {
  import opened Market
  import opened Signals
  import opened ExitScan
  import opened ExitProperties
  import opened Statistics

  /** The price provider: bars of a symbol from a start day up to (not including)
      an end day, at one resolution; empty when nothing is available. */
  type Provider = (string, int, int, Resolution) -> seq<Candle>

  /** The fetch window, in calendar days from the entry day. */
  const WINDOW_DAYS: int := 7

  /** The result row the run appends for one entry. */
  function RecordFor(entry: Signal, fetch: Provider, cfg: Config): (row: TradeRecord)
    ensures row.symbol == entry.symbol && row.entryDay == Day(entry.t) && row.entryTime == entry.t
    ensures row.outcome.Completed? || row.outcome.StillOpen? ==> row.entryTime <= row.outcome.exitTime
  {
    var day := Day(entry.t);
    var fiveMin := fetch(entry.symbol, day, day + WINDOW_DAYS, FiveMin);
    var daily := fetch(entry.symbol, day, day + WINDOW_DAYS, Daily);
    TradeRecord(entry.symbol, day, entry.t, Evaluate(entry.t, fiveMin, daily, cfg))
  }

  /** The results table for a list of entries: one row per entry, in order. */
  function Records(entries: seq<Signal>, fetch: Provider, cfg: Config): (rs: seq<TradeRecord>)
    ensures |rs| == |entries|
    ensures forall i :: 0 <= i < |rs| ==> rs[i] == RecordFor(entries[i], fetch, cfg)
  {
    if entries == [] then []
    else Records(entries[..|entries| - 1], fetch, cfg) + [RecordFor(entries[|entries| - 1], fetch, cfg)]
  }

  /** Processes one entry: fetch the 5-minute bars, fall back to the daily bars
      only when there are none, and scan. */
  method ProcessEntry(entry: Signal, fetch: Provider, cfg: Config) returns (row: TradeRecord)
    ensures row == RecordFor(entry, fetch, cfg)
  {
    var day := Day(entry.t);
    var fiveMin := fetch(entry.symbol, day, day + WINDOW_DAYS, FiveMin);
    var daily := [];
    if |fiveMin| == 0 {
      daily := fetch(entry.symbol, day, day + WINDOW_DAYS, Daily);
    }
    var outcome := ScanTrade(entry.t, fiveMin, daily, cfg);
    ResolutionFallback(entry.t, fiveMin, fetch(entry.symbol, day, day + WINDOW_DAYS, Daily), cfg);
    row := TradeRecord(entry.symbol, day, entry.t, outcome);
  }

  /** The run loop: each entry, in order, appends exactly one row. */
  method RunBacktest(signals: seq<Signal>, fetch: Provider, cfg: Config) returns (results: seq<TradeRecord>)
    ensures |results| == |FirstEntries(signals)|
    ensures forall i :: 0 <= i < |results| ==> results[i] == RecordFor(FirstEntries(signals)[i], fetch, cfg)
    ensures results == Records(FirstEntries(signals), fetch, cfg)
  {
    var entries := FirstEntries(signals);
    results := [];
    for idx := 0 to |entries|
      invariant |results| == idx
      invariant forall j :: 0 <= j < idx ==> results[j] == RecordFor(entries[j], fetch, cfg)
    {
      var row := ProcessEntry(entries[idx], fetch, cfg);
      results := results + [row];
    }
  }

  /** A completed row exits at -SL or +TP. */
  lemma RecordPnl(entry: Signal, fetch: Provider, cfg: Config)
    ensures var o := RecordFor(entry, fetch, cfg).outcome;
            o.Completed? ==> o.pnlPct == if o.reason == StopLoss then -cfg.stopLossPct else cfg.takeProfitPct
  {
    var day := Day(entry.t);
    CompletedAtThreshold(entry.t, fetch(entry.symbol, day, day + WINDOW_DAYS, FiveMin),
                         fetch(entry.symbol, day, day + WINDOW_DAYS, Daily), cfg);
  }

  /** Every completed row of a run carries -SL or +TP, so the run's total P&L is
      TP per take-profit exit minus SL per stop-loss exit. */
  lemma RunTotalPnl(entries: seq<Signal>, fetch: Provider, cfg: Config)
    ensures TotalPnl(Records(entries, fetch, cfg)) == FixedRiskTotal(Records(entries, fetch, cfg), cfg)
  {
    var rs := Records(entries, fetch, cfg);
    forall i | 0 <= i < |rs| && rs[i].outcome.Completed?
      ensures rs[i].outcome.pnlPct ==
                if rs[i].outcome.reason == StopLoss then -cfg.stopLossPct else cfg.takeProfitPct
    {
      RecordPnl(entries[i], fetch, cfg);
    }
    TotalPnlClosedForm(rs, cfg);
  }

  /** As written, the page stops after the run exactly when the upload has no usable
      signal rows; for such an upload the summary is simply absent. */
  lemma EmptyUploadHalts(signals: seq<Signal>, fetch: Provider, cfg: Config)
    ensures ResultsPageAsWritten(Records(FirstEntries(signals), fetch, cfg)).Halted? <==> signals == []
    ensures signals == [] ==> Summarize(Records(FirstEntries(signals), fetch, cfg)) == None
  {
    if signals != [] {
      EveryDayHasEntry(signals, signals[0]);
    } else {
      assert |FirstEntries(signals)| == 0;
    }
  }

  /** Each (symbol, day) of the input yields exactly one row, for its earliest signal. */
  lemma OneRowPerDay(signals: seq<Signal>, fetch: Provider, cfg: Config, x: Signal)
    requires x in signals
    ensures var rs := Records(FirstEntries(signals), fetch, cfg);
            exists i :: 0 <= i < |rs| && rs[i].symbol == x.symbol && rs[i].entryDay == Day(x.t)
                        && rs[i].entryTime <= x.t
    ensures var rs := Records(FirstEntries(signals), fetch, cfg);
            forall i, j :: 0 <= i < j < |rs| ==> (rs[i].symbol, rs[i].entryDay) != (rs[j].symbol, rs[j].entryDay)
  {
    var es := FirstEntries(signals);
    EveryDayHasEntry(signals, x);
    var e :| e in es && Key(e) == Key(x) && e.t <= x.t;
    var i :| 0 <= i < |es| && es[i] == e;
    assert Records(es, fetch, cfg)[i].symbol == x.symbol;
  }
}
