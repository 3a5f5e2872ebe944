// What the exit scanner promises: the resolution fallback, the two no-data
// states, the entry price, exit at the first breach with stop-loss priority, and
// the still-open fallback at the last close.

module ExitProperties {
  import opened Market
  import opened ExitScan

  /** The stop-loss price of a trade whose post-entry bars are `after`. */
  function SlOf(after: seq<Candle>, cfg: Config): real
    requires after != []
  {
    StopLossPrice(after[0].open, cfg.stopLossPct)
  }

  /** The take-profit price of a trade whose post-entry bars are `after`. */
  function TpOf(after: seq<Candle>, cfg: Config): real
    requires after != []
  {
    TakeProfitPrice(after[0].open, cfg.takeProfitPct)
  }

  /** Daily bars are used only when there are no 5-minute bars; the result says
      which; with neither, the trade is NO_DATA with a zero P&L column. */
  lemma ResolutionFallback(entryTime: int, fiveMin: seq<Candle>, daily: seq<Candle>, cfg: Config)
    ensures Evaluate(entryTime, fiveMin, daily, cfg).NoData? <==> fiveMin == [] && daily == []
    ensures var o := Evaluate(entryTime, fiveMin, daily, cfg);
            !o.NoData? ==> o.resolution == if fiveMin != [] then FiveMin else Daily
    ensures fiveMin != [] ==> Evaluate(entryTime, fiveMin, daily, cfg) == Evaluate(entryTime, fiveMin, [], cfg)
    ensures Evaluate(entryTime, fiveMin, daily, cfg).NoData? ==>
              ReportedPnl(Evaluate(entryTime, fiveMin, daily, cfg)) == Some(0.0)
  {
  }

  /** NO_DATA_AFTER_ENTRY exactly when the chosen series is non-empty and every bar
      in it is earlier than the entry time. */
  lemma NoDataAfterEntryIff(entryTime: int, fiveMin: seq<Candle>, daily: seq<Candle>, cfg: Config)
    ensures Evaluate(entryTime, fiveMin, daily, cfg).NoDataAfterEntry? <==>
              Series(fiveMin, daily) != [] && forall c :: c in Series(fiveMin, daily) ==> c.t < entryTime
    ensures Evaluate(entryTime, fiveMin, daily, cfg).NoDataAfterEntry? ==>
              ReportedPnl(Evaluate(entryTime, fiveMin, daily, cfg)) == Some(0.0)
  {
    var hist := Series(fiveMin, daily);
    if hist != [] && AtOrAfter(hist, entryTime) != [] {
      assert AtOrAfter(hist, entryTime)[0] in AtOrAfter(hist, entryTime);
    }
  }

  /** The entry price is the open of the first bar at or after the entry time, and
      such a trade always ends COMPLETED or OPEN. */
  lemma EntryAtFirstBarAtOrAfter(entryTime: int, fiveMin: seq<Candle>, daily: seq<Candle>, cfg: Config, i: nat)
    requires i < |Series(fiveMin, daily)| && Series(fiveMin, daily)[i].t >= entryTime
    requires forall j :: 0 <= j < i ==> Series(fiveMin, daily)[j].t < entryTime
    ensures Evaluate(entryTime, fiveMin, daily, cfg).Completed? || Evaluate(entryTime, fiveMin, daily, cfg).StillOpen?
    ensures Evaluate(entryTime, fiveMin, daily, cfg).entryPrice == Series(fiveMin, daily)[i].open
  {
    AtOrAfterHead(Series(fiveMin, daily), entryTime, i);
  }

  /** The first breaching bar after the entry bar decides the exit: stop-loss if
      its low reaches the stop-loss price, otherwise take-profit; the exit price is
      the threshold and the P&L is exactly the configured percentage. */
  lemma ExitAtFirstBreach(resolution: Resolution, after: seq<Candle>, cfg: Config, k: nat)
    requires 1 <= k < |after|
    requires Breaches(after[k], SlOf(after, cfg), TpOf(after, cfg))
    requires forall j :: 1 <= j < k ==> !Breaches(after[j], SlOf(after, cfg), TpOf(after, cfg))
    ensures Exit(resolution, after, cfg) ==
              if HitsStopLoss(after[k], SlOf(after, cfg)) then
                Completed(resolution, after[0].open, after[0].open * (1.0 - cfg.stopLossPct / 100.0),
                          after[k].t, StopLoss, -cfg.stopLossPct)
              else
                Completed(resolution, after[0].open, after[0].open * (1.0 + cfg.takeProfitPct / 100.0),
                          after[k].t, TakeProfit, cfg.takeProfitPct)
  {
    assert FirstBreach(after, 1, SlOf(after, cfg), TpOf(after, cfg)) == k;
  }

  /** A trade completes exactly when some bar after the entry bar breaches; the
      exit bar is then the first such bar, and the entry bar is never the exit. */
  lemma CompletedIffBreach(resolution: Resolution, after: seq<Candle>, cfg: Config)
    requires after != []
    ensures Exit(resolution, after, cfg).Completed? || Exit(resolution, after, cfg).StillOpen?
    ensures Exit(resolution, after, cfg).Completed? <==>
              exists k :: 1 <= k < |after| && Breaches(after[k], SlOf(after, cfg), TpOf(after, cfg))
    ensures Exit(resolution, after, cfg).Completed? ==>
              exists k :: 1 <= k < |after| && Breaches(after[k], SlOf(after, cfg), TpOf(after, cfg))
                          && (forall j :: 1 <= j < k ==> !Breaches(after[j], SlOf(after, cfg), TpOf(after, cfg)))
                          && Exit(resolution, after, cfg).exitTime == after[k].t
  {
    var f := FirstBreach(after, 1, SlOf(after, cfg), TpOf(after, cfg));
    if f < |after| {
      ExitAtFirstBreach(resolution, after, cfg, f);
    }
  }

  /** With no breach after the entry bar the trade is OPEN / STILL_OPEN at the close
      of the last bar, with P&L (last close - entry) / entry * 100. */
  lemma StillOpenAtLastClose(resolution: Resolution, after: seq<Candle>, cfg: Config)
    requires after != []
    requires forall j :: 1 <= j < |after| ==> !Breaches(after[j], SlOf(after, cfg), TpOf(after, cfg))
    ensures var last := after[|after| - 1];
            Exit(resolution, after, cfg) ==
              StillOpen(resolution, after[0].open, last.close, last.t, ReturnPct(after[0].open, last.close))
    ensures after[0].open != 0.0 ==>
              Exit(resolution, after, cfg).openPnlPct ==
                Some((after[|after| - 1].close - after[0].open) / after[0].open * 100.0)
  {
  }

  /** A lone entry bar yields OPEN / STILL_OPEN at that bar's own close, not
      NO_DATA_AFTER_ENTRY. */
  lemma SingleBarStillOpen(resolution: Resolution, c: Candle, cfg: Config)
    ensures Exit(resolution, [c], cfg) == StillOpen(resolution, c.open, c.close, c.t, ReturnPct(c.open, c.close))
  {
  }

  /** A bar that breaches both thresholds is a stop-loss exit. */
  lemma StopLossPriority(resolution: Resolution, after: seq<Candle>, cfg: Config, k: nat)
    requires 1 <= k < |after|
    requires HitsStopLoss(after[k], SlOf(after, cfg)) && HitsTakeProfit(after[k], TpOf(after, cfg))
    requires forall j :: 1 <= j < k ==> !Breaches(after[j], SlOf(after, cfg), TpOf(after, cfg))
    ensures Exit(resolution, after, cfg).Completed?
    ensures Exit(resolution, after, cfg).reason == StopLoss
  {
    ExitAtFirstBreach(resolution, after, cfg, k);
  }

  /** A stop-loss touch at bar `k` with no take-profit touch before it (and
      after the entry bar) ends the trade at the stop-loss with P&L -SL. */
  lemma StopLossBeforeTakeProfit(resolution: Resolution, after: seq<Candle>, cfg: Config, k: nat)
    requires 1 <= k < |after|
    requires HitsStopLoss(after[k], SlOf(after, cfg))
    requires forall j :: 1 <= j < k ==> !HitsTakeProfit(after[j], TpOf(after, cfg))
    ensures Exit(resolution, after, cfg).Completed?
    ensures Exit(resolution, after, cfg).reason == StopLoss
    ensures Exit(resolution, after, cfg).exitPrice == SlOf(after, cfg)
    ensures Exit(resolution, after, cfg).pnlPct == -cfg.stopLossPct
  {
    var f := FirstBreach(after, 1, SlOf(after, cfg), TpOf(after, cfg));
    assert f <= k;
    ExitAtFirstBreach(resolution, after, cfg, f);
  }

  /** A take-profit touch at bar `k` with no stop-loss touch up to and including
      it ends the trade at the take-profit with P&L +TP. */
  lemma TakeProfitBeforeStopLoss(resolution: Resolution, after: seq<Candle>, cfg: Config, k: nat)
    requires 1 <= k < |after|
    requires HitsTakeProfit(after[k], TpOf(after, cfg))
    requires forall j :: 1 <= j <= k ==> !HitsStopLoss(after[j], SlOf(after, cfg))
    ensures Exit(resolution, after, cfg).Completed?
    ensures Exit(resolution, after, cfg).reason == TakeProfit
    ensures Exit(resolution, after, cfg).exitPrice == TpOf(after, cfg)
    ensures Exit(resolution, after, cfg).pnlPct == cfg.takeProfitPct
  {
    var f := FirstBreach(after, 1, SlOf(after, cfg), TpOf(after, cfg));
    assert f <= k;
    ExitAtFirstBreach(resolution, after, cfg, f);
  }

  /** The reported P&L of a priced trade is the percent return from its entry
      price to its exit price (for a completed trade, whenever the entry price is
      not zero). */
  lemma PnlIsReturn(resolution: Resolution, after: seq<Candle>, cfg: Config)
    requires after != []
    ensures var o := Exit(resolution, after, cfg);
            o.StillOpen? ==> o.openPnlPct == ReturnPct(o.entryPrice, o.exitPrice)
    ensures var o := Exit(resolution, after, cfg);
            o.Completed? && o.entryPrice != 0.0 ==> ReturnPct(o.entryPrice, o.exitPrice) == Some(o.pnlPct)
  {
    var o := Exit(resolution, after, cfg);
    if o.Completed? && o.entryPrice != 0.0 {
      var e := o.entryPrice;
      if o.reason == StopLoss {
        assert o.exitPrice == e * (1.0 + (-cfg.stopLossPct) / 100.0);
        ThresholdReturn(e, -cfg.stopLossPct);
        assert (o.exitPrice - e) / e * 100.0 == o.pnlPct;
      } else {
        ThresholdReturn(e, cfg.takeProfitPct);
        assert (o.exitPrice - e) / e * 100.0 == o.pnlPct;
      }
    }
  }

  lemma ThresholdReturn(e: real, pct: real)
    requires e != 0.0
    ensures (e * (1.0 + pct / 100.0) - e) / e * 100.0 == pct
  {
    calc {
      (e * (1.0 + pct / 100.0) - e) / e * 100.0;
      (e * (pct / 100.0)) / e * 100.0;
      (pct / 100.0) * 100.0;
    }
  }

  /** Within the sidebar's bounds and at a positive entry price, a stop-loss exit
      is a loss below the entry price and a take-profit exit a gain above it. */
  lemma ExitSides(resolution: Resolution, after: seq<Candle>, cfg: Config)
    requires after != [] && after[0].open > 0.0 && ValidConfig(cfg)
    ensures var o := Exit(resolution, after, cfg);
            o.Completed? && o.reason == StopLoss ==> 0.0 < o.exitPrice < o.entryPrice && o.pnlPct < 0.0
    ensures var o := Exit(resolution, after, cfg);
            o.Completed? && o.reason == TakeProfit ==> o.exitPrice > o.entryPrice && o.pnlPct > 0.0
  {
  }

  /** Every completed trade exits at its threshold price with the fixed P&L. */
  /** The pnl_pct column of a trade's row: 0 for both no-data states, -SL or +TP
      for a completed trade, and the percent return to the last close for an OPEN
      trade (absent when the entry price is 0). */
  lemma ReportedPnlColumn(entryTime: int, fiveMin: seq<Candle>, daily: seq<Candle>, cfg: Config)
    ensures var o := Evaluate(entryTime, fiveMin, daily, cfg);
            ReportedPnl(o) ==
              if o.NoData? || o.NoDataAfterEntry? then Some(0.0)
              else if o.Completed? then Some(if o.reason == StopLoss then -cfg.stopLossPct else cfg.takeProfitPct)
              else ReturnPct(o.entryPrice, o.exitPrice)
  {
    CompletedAtThreshold(entryTime, fiveMin, daily, cfg);
  }

  lemma CompletedAtThreshold(entryTime: int, fiveMin: seq<Candle>, daily: seq<Candle>, cfg: Config)
    ensures var o := Evaluate(entryTime, fiveMin, daily, cfg);
            o.Completed? && o.reason == StopLoss ==>
              o.exitPrice == o.entryPrice * (1.0 - cfg.stopLossPct / 100.0) && o.pnlPct == -cfg.stopLossPct
    ensures var o := Evaluate(entryTime, fiveMin, daily, cfg);
            o.Completed? && o.reason == TakeProfit ==>
              o.exitPrice == o.entryPrice * (1.0 + cfg.takeProfitPct / 100.0) && o.pnlPct == cfg.takeProfitPct
  {
  }
}
