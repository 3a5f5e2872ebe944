// Worked scenarios: entry at 100 with a 3% stop-loss (97) and a 7.5%
// take-profit (107.5), and a trade whose only bar is the entry bar.

module Examples {
  import opened Market
  import opened ExitScan

  const DEFAULT_CONFIG := Config(3.0, 7.5)

  /** The second bar's low (96) reaches 97: stop-loss at 97, P&L -3. */
  lemma StopLossScenario()
    ensures Evaluate(0, [Candle(0, 100.0, 101.0, 99.0, 100.5), Candle(5, 101.0, 102.0, 96.0, 97.5),
                         Candle(10, 96.0, 110.0, 95.0, 109.0)], [], DEFAULT_CONFIG)
            == Completed(FiveMin, 100.0, 97.0, 5, StopLoss, -3.0)
  {
    var after := [Candle(0, 100.0, 101.0, 99.0, 100.5), Candle(5, 101.0, 102.0, 96.0, 97.5),
                  Candle(10, 96.0, 110.0, 95.0, 109.0)];
    assert AtOrAfter(after, 0) == after;
    assert FirstBreach(after, 1, 97.0, 107.5) == 1;
  }

  /** The second bar's high (108) reaches 107.5 and its low (98) stays above 97:
      take-profit at 107.5, P&L +7.5. */
  lemma TakeProfitScenario()
    ensures Evaluate(0, [Candle(0, 100.0, 101.0, 99.0, 100.5), Candle(5, 101.0, 108.0, 98.0, 107.0)],
                     [], DEFAULT_CONFIG)
            == Completed(FiveMin, 100.0, 107.5, 5, TakeProfit, 7.5)
  {
    var after := [Candle(0, 100.0, 101.0, 99.0, 100.5), Candle(5, 101.0, 108.0, 98.0, 107.0)];
    assert AtOrAfter(after, 0) == after;
    assert FirstBreach(after, 1, 97.0, 107.5) == 1;
  }

  /** Bars earlier than the entry time are dropped; when only one daily bar lies at
      or after the entry time, it is the entry bar and leaves the trade OPEN at its close (51 from 50: +2%), from the daily series. */
  lemma EntryBarOnlyScenario()
    ensures Evaluate(600, [], [Candle(0, 48.0, 49.0, 47.0, 48.5), Candle(1440, 50.0, 52.0, 49.0, 51.0)],
                     DEFAULT_CONFIG)
            == StillOpen(Daily, 50.0, 51.0, 1440, Some(2.0))
  {
    var daily := [Candle(0, 48.0, 49.0, 47.0, 48.5), Candle(1440, 50.0, 52.0, 49.0, 51.0)];
    assert AtOrAfter(daily, 600) == [daily[1]];
  }
}
