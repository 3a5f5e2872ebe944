// Summary statistics over the results table: totals, win rate and P&L of the
// COMPLETED trades, the take-profit / stop-loss split and the OPEN count.

module Statistics {
  import opened Market

  /** Rows with status COMPLETED. */
  function CountCompleted(rs: seq<TradeRecord>): (n: nat)
    ensures n <= |rs|
  {
    if rs == [] then 0
    else (if rs[0].outcome.Completed? then 1 else 0) + CountCompleted(rs[1..])
  }

  /** Completed trades that exited for `reason`. */
  function CountExits(rs: seq<TradeRecord>, reason: ExitReason): (n: nat)
  {
    if rs == [] then 0
    else (if rs[0].outcome.Completed? && rs[0].outcome.reason == reason then 1 else 0)
         + CountExits(rs[1..], reason)
  }

  /** Rows with status OPEN (the 'Still Open/Incomplete' figure). */
  function CountOpen(rs: seq<TradeRecord>): (n: nat)
    ensures n + CountCompleted(rs) <= |rs|
  {
    if rs == [] then 0
    else (if rs[0].outcome.StillOpen? then 1 else 0) + CountOpen(rs[1..])
  }

  /** The sum of pnl_pct over the completed trades. */
  function TotalPnl(rs: seq<TradeRecord>): real
  {
    if rs == [] then 0.0
    else (if rs[0].outcome.Completed? then rs[0].outcome.pnlPct else 0.0) + TotalPnl(rs[1..])
  }

  datatype Summary = Summary(trades: nat, winRate: real, totalPnl: real, avgPnl: real,
                             takeProfitHits: nat, stopLossHits: nat, stillOpen: nat)

  /** The summary block, shown only when at least one trade completed. */
  function Summarize(rs: seq<TradeRecord>): (s: Option<Summary>)
    ensures s.Some? <==> exists i :: 0 <= i < |rs| && rs[i].outcome.Completed?
    ensures s.Some? ==> CountCompleted(rs) > 0 && s.value == Tally(rs)
  {
    CompletedExists(rs);
    if CountCompleted(rs) == 0 then None else Some(Tally(rs))
  }

  /** The figures of the summary block. The trade count, win rate, P&L and exit
      counts are over the COMPLETED rows; the OPEN count is over all rows. */
  function Tally(rs: seq<TradeRecord>): (s: Summary)
    requires CountCompleted(rs) > 0
    ensures s.trades == CountCompleted(rs) == s.takeProfitHits + s.stopLossHits
    ensures s.takeProfitHits == CountExits(rs, TakeProfit) && s.stopLossHits == CountExits(rs, StopLoss)
    ensures s.totalPnl == TotalPnl(rs)
    ensures s.winRate * s.trades as real == 100.0 * s.takeProfitHits as real
    ensures 0.0 <= s.winRate <= 100.0
    ensures s.avgPnl * s.trades as real == s.totalPnl
    ensures s.stillOpen == CountOpen(rs)
  {
    CompletedSplit(rs);
    var n := CountCompleted(rs);
    var winners := CountExits(rs, TakeProfit);
    var total := TotalPnl(rs);
    var avg := Mean(total, n as real);
    Summary(n, Percent(winners as real, n as real), total, avg,
            winners, CountExits(rs, StopLoss), CountOpen(rs))
  }

  /** `part` as a percentage of a positive `whole` (the win rate). */
  function Percent(part: real, whole: real): (r: real)
    requires whole > 0.0
    ensures r * whole == 100.0 * part
    ensures 0.0 <= part <= whole ==> 0.0 <= r <= 100.0
  {
    var q := part / whole;
    assert q * whole == part;
    assert q * 100.0 * whole == 100.0 * (q * whole);
    q * 100.0
  }

  /** The mean of `count` values that add up to `total` (the average P&L). */
  function Mean(total: real, count: real): (r: real)
    requires count > 0.0
    ensures r * count == total
  {
    total / count
  }

  /** What the page shows once the run loop is done. */
  datatype Page = Halted | Shown(summary: Option<Summary>)

  /** The results page as the code is written: a run with no rows builds a results
      frame without a status column, so selecting the COMPLETED rows fails and the
      page stops before any statistics are shown. */
  function ResultsPageAsWritten(rs: seq<TradeRecord>): Page
  {
    if rs == [] then Halted else Shown(Summarize(rs))
  }

  /** Every completed trade is either a take-profit or a stop-loss exit. */
  lemma {:induction false} CompletedSplit(rs: seq<TradeRecord>)
    ensures CountExits(rs, TakeProfit) + CountExits(rs, StopLoss) == CountCompleted(rs)
  {
    if rs != [] {
      CompletedSplit(rs[1..]);
    }
  }

  lemma {:induction false} CompletedExists(rs: seq<TradeRecord>)
    ensures CountCompleted(rs) > 0 <==> exists i :: 0 <= i < |rs| && rs[i].outcome.Completed?
  {
    if rs != [] {
      CompletedExists(rs[1..]);
      if exists i :: 0 <= i < |rs[1..]| && rs[1..][i].outcome.Completed? {
        var i :| 0 <= i < |rs[1..]| && rs[1..][i].outcome.Completed?;
        assert rs[i + 1].outcome.Completed?;
      }
      if exists i :: 0 <= i < |rs| && rs[i].outcome.Completed? {
        var i :| 0 <= i < |rs| && rs[i].outcome.Completed?;
        if i > 0 {
          assert rs[1..][i - 1].outcome.Completed?;
        }
      }
    }
  }

  /** With no COMPLETED row the total P&L is 0. */
  lemma {:induction false} TotalPnlWithoutCompleted(rs: seq<TradeRecord>)
    requires CountCompleted(rs) == 0
    ensures TotalPnl(rs) == 0.0
  {
    if rs != [] {
      TotalPnlWithoutCompleted(rs[1..]);
    }
  }

  /** Every completed row carries the fixed P&L of its exit: -SL or +TP. */
  ghost predicate FixedRiskPnl(rs: seq<TradeRecord>, cfg: Config)
  {
    forall i :: 0 <= i < |rs| && rs[i].outcome.Completed? ==>
      rs[i].outcome.pnlPct == if rs[i].outcome.reason == StopLoss then -cfg.stopLossPct else cfg.takeProfitPct
  }

  /** With fixed-risk exits the total P&L is TP times the winners minus SL times
      the losers. */
  lemma TotalPnlClosedForm(rs: seq<TradeRecord>, cfg: Config)
    requires FixedRiskPnl(rs, cfg)
    ensures TotalPnl(rs) == FixedRiskTotal(rs, cfg)
  {
    TotalPnlRepeated(rs, cfg);
    RepeatedIsProduct(cfg.takeProfitPct, CountExits(rs, TakeProfit));
    RepeatedIsProduct(cfg.stopLossPct, CountExits(rs, StopLoss));
  }

  /** TP per take-profit exit minus SL per stop-loss exit. */
  function FixedRiskTotal(rs: seq<TradeRecord>, cfg: Config): real
  {
    cfg.takeProfitPct * CountExits(rs, TakeProfit) as real - cfg.stopLossPct * CountExits(rs, StopLoss) as real
  }

  /** `x` added up `n` times. */
  function Repeated(x: real, n: nat): real
  {
    if n == 0 then 0.0 else x + Repeated(x, n - 1)
  }

  lemma {:induction false} RepeatedIsProduct(x: real, n: nat)
    ensures Repeated(x, n) == x * n as real
  {
    if n > 0 {
      RepeatedIsProduct(x, n - 1);
    }
  }

  lemma {:induction false} TotalPnlRepeated(rs: seq<TradeRecord>, cfg: Config)
    requires FixedRiskPnl(rs, cfg)
    ensures TotalPnl(rs) == Repeated(cfg.takeProfitPct, CountExits(rs, TakeProfit))
                            - Repeated(cfg.stopLossPct, CountExits(rs, StopLoss))
  {
    if rs != [] {
      FixedRiskPnlTail(rs, cfg);
      TotalPnlRepeated(rs[1..], cfg);
    }
  }

  lemma FixedRiskPnlTail(rs: seq<TradeRecord>, cfg: Config)
    requires rs != [] && FixedRiskPnl(rs, cfg)
    ensures FixedRiskPnl(rs[1..], cfg)
  {
    forall i | 0 <= i < |rs[1..]|
      ensures rs[1..][i] == rs[i + 1]
    {
    }
  }
}
