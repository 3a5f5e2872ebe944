// Shared vocabulary of the backtest: price bars, the run configuration and the
// terminal record produced for each trade.

module Market {

  datatype Option<+T> = None | Some(value: T)

  /** One OHLC price bar; `t` is its timestamp in minutes on the same time line
      as the entry signals. Prices are exact reals. */
  datatype Candle = Candle(t: int, open: real, high: real, low: real, close: real)

  /** The bar granularity a trade was evaluated on ('5min' or 'daily'). */
  datatype Resolution = FiveMin | Daily

  datatype ExitReason = StopLoss | TakeProfit

  /** Stop-loss and take-profit distances, in percent of the entry price. */
  datatype Config = Config(stopLossPct: real, takeProfitPct: real)

  /** The bounds the sidebar inputs enforce on the two percentages. */
  predicate ValidConfig(cfg: Config)
  {
    0.1 <= cfg.stopLossPct <= 20.0 && 0.1 <= cfg.takeProfitPct <= 50.0
  }

  /** The terminal state of one trade.
      - NoData: neither resolution returned any bar (status and exit type NO_DATA).
      - NoDataAfterEntry: bars exist, none at or after the entry time.
      - Completed: a stop-loss or take-profit threshold was breached.
      - StillOpen: no breach within the fetched bars; the exit is the last close.
        `openPnlPct` is None where the P&L division by a zero entry price has no
        finite value. */
  datatype Outcome =
    | NoData
    | NoDataAfterEntry(resolution: Resolution)
    | Completed(resolution: Resolution, entryPrice: real, exitPrice: real, exitTime: int,
                reason: ExitReason, pnlPct: real)
    | StillOpen(resolution: Resolution, entryPrice: real, exitPrice: real, exitTime: int,
                openPnlPct: Option<real>)

  /** The pnl_pct column of a result row: 0 for both no-data states. */
  function ReportedPnl(o: Outcome): Option<real>
  {
    match o
    case NoData => Some(0.0)
    case NoDataAfterEntry(_) => Some(0.0)
    case Completed(_, _, _, _, _, pnl) => Some(pnl)
    case StillOpen(_, _, _, _, pnl) => pnl
  }

  /** One row of the results table. */
  datatype TradeRecord = TradeRecord(symbol: string, entryDay: int, entryTime: int, outcome: Outcome)
}
