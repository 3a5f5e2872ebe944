// The per-trade exit scanner: pick a bar series (5-minute, else daily), take the
// entry at the open of the first bar at or after the entry time, and walk the
// later bars for the first stop-loss or take-profit breach.

module ExitScan {
  import opened Market

  /** The bars at or after time `t`, in their original order. */
  function AtOrAfter(cs: seq<Candle>, t: int): (r: seq<Candle>)
    ensures |r| <= |cs|
    ensures forall c :: c in r <==> c in cs && c.t >= t
  {
    if cs == [] then []
    else if cs[0].t >= t then [cs[0]] + AtOrAfter(cs[1..], t)
    else AtOrAfter(cs[1..], t)
  }

  /** Bars in non-decreasing time order, as the price provider delivers them. */
  predicate Chronological(cs: seq<Candle>)
  {
    forall i, j :: 0 <= i < j < |cs| ==> cs[i].t <= cs[j].t
  }

  lemma {:induction false} AtOrAfterKeepsAll(cs: seq<Candle>, t: int)
    requires forall j :: 0 <= j < |cs| ==> cs[j].t >= t
    ensures AtOrAfter(cs, t) == cs
  {
    if cs != [] {
      AtOrAfterKeepsAll(cs[1..], t);
    }
  }

  /** On a chronological series the filter drops exactly the bars before `t`:
      what is left is a suffix. */
  lemma {:induction false} AtOrAfterIsSuffix(cs: seq<Candle>, t: int)
    requires Chronological(cs)
    ensures exists k :: 0 <= k <= |cs| && AtOrAfter(cs, t) == cs[k..]
                        && forall j :: 0 <= j < k ==> cs[j].t < t
  {
    if cs == [] {
      assert AtOrAfter(cs, t) == cs[0..];
    } else if cs[0].t >= t {
      AtOrAfterKeepsAll(cs, t);
      assert AtOrAfter(cs, t) == cs[0..];
    } else {
      AtOrAfterIsSuffix(cs[1..], t);
      var k :| 0 <= k <= |cs| - 1 && AtOrAfter(cs[1..], t) == cs[1..][k..]
               && forall j :: 0 <= j < k ==> cs[1..][j].t < t;
      assert AtOrAfter(cs, t) == cs[k + 1..];
      forall j | 0 <= j < k + 1
        ensures cs[j].t < t
      {
        if j > 0 {
          assert cs[j] == cs[1..][j - 1];
        }
      }
    }
  }

  /** The first bar at or after `t` is the head of the filtered series. */
  lemma {:induction false} AtOrAfterHead(cs: seq<Candle>, t: int, i: nat)
    requires i < |cs| && cs[i].t >= t
    requires forall j :: 0 <= j < i ==> cs[j].t < t
    ensures AtOrAfter(cs, t) != [] && AtOrAfter(cs, t)[0] == cs[i]
  {
    if i > 0 {
      AtOrAfterHead(cs[1..], t, i - 1);
    }
  }

  /** The stop-loss price, `pct` percent below the entry price. */
  function StopLossPrice(entry: real, pct: real): (p: real)
    ensures entry > 0.0 && 0.0 < pct < 100.0 ==> 0.0 < p < entry
  {
    entry * (1.0 - pct / 100.0)
  }

  /** The take-profit price, `pct` percent above the entry price. */
  function TakeProfitPrice(entry: real, pct: real): (p: real)
    ensures entry > 0.0 && pct > 0.0 ==> p > entry
  {
    entry * (1.0 + pct / 100.0)
  }

  /** Percent return from `entry` to `exit`; None when the entry price is zero. */
  function ReturnPct(entry: real, exit: real): Option<real>
  {
    if entry == 0.0 then None else Some((exit - entry) / entry * 100.0)
  }

  predicate HitsStopLoss(c: Candle, sl: real)
  {
    c.low <= sl
  }

  predicate HitsTakeProfit(c: Candle, tp: real)
  {
    c.high >= tp
  }

  predicate Breaches(c: Candle, sl: real, tp: real)
  {
    HitsStopLoss(c, sl) || HitsTakeProfit(c, tp)
  }

  /** The index of the first breaching bar at or after `from`, or `|after|` if none. */
  function FirstBreach(after: seq<Candle>, from: nat, sl: real, tp: real): (k: nat)
    requires from <= |after|
    ensures from <= k <= |after|
    ensures k < |after| ==> Breaches(after[k], sl, tp)
    ensures forall j :: from <= j < k ==> !Breaches(after[j], sl, tp)
    decreases |after| - from
  {
    if from == |after| || Breaches(after[from], sl, tp) then from
    else FirstBreach(after, from + 1, sl, tp)
  }

  /** The outcome of a trade whose post-entry bars are `after` (the first of them
      is the entry bar, which is never an exit bar). */
  function Exit(resolution: Resolution, after: seq<Candle>, cfg: Config): (o: Outcome)
    requires after != []
    ensures o.Completed? || o.StillOpen?
    ensures o.resolution == resolution && o.entryPrice == after[0].open
    ensures o.Completed? ==> (exists k :: 1 <= k < |after| && o.exitTime == after[k].t
                                && Breaches(after[k], StopLossPrice(after[0].open, cfg.stopLossPct),
                                            TakeProfitPrice(after[0].open, cfg.takeProfitPct)))
    ensures o.StillOpen? ==> o.exitTime == after[|after| - 1].t && o.exitPrice == after[|after| - 1].close
  {
    var entry := after[0].open;
    var sl := StopLossPrice(entry, cfg.stopLossPct);
    var tp := TakeProfitPrice(entry, cfg.takeProfitPct);
    var k := FirstBreach(after, 1, sl, tp);
    if k < |after| then
      if HitsStopLoss(after[k], sl) then
        Completed(resolution, entry, sl, after[k].t, StopLoss, -cfg.stopLossPct)
      else
        Completed(resolution, entry, tp, after[k].t, TakeProfit, cfg.takeProfitPct)
    else
      var last := after[|after| - 1];
      StillOpen(resolution, entry, last.close, last.t, ReturnPct(entry, last.close))
  }

  /** The series a trade is evaluated on: the 5-minute bars, else the daily ones. */
  function Series(fiveMin: seq<Candle>, daily: seq<Candle>): seq<Candle>
  {
    if fiveMin != [] then fiveMin else daily
  }

  function SeriesResolution(fiveMin: seq<Candle>): Resolution
  {
    if fiveMin != [] then FiveMin else Daily
  }

  /** The outcome of a trade entered at `entryTime`, given what the provider
      returned at each resolution. */
  function Evaluate(entryTime: int, fiveMin: seq<Candle>, daily: seq<Candle>, cfg: Config): (o: Outcome)
    ensures o.Completed? || o.StillOpen? ==>
              exists c :: c in Series(fiveMin, daily) && entryTime <= c.t && c.open == o.entryPrice
    ensures o.Completed? || o.StillOpen? ==> entryTime <= o.exitTime
  {
    var hist := Series(fiveMin, daily);
    if hist == [] then NoData
    else
      var after := AtOrAfter(hist, entryTime);
      if after == [] then NoDataAfterEntry(SeriesResolution(fiveMin))
      else
        var o := Exit(SeriesResolution(fiveMin), after, cfg);
        assert after[0] in after;
        assert o.StillOpen? ==> after[|after| - 1] in after;
        assert o.Completed? ==> exists k :: 1 <= k < |after| && o.exitTime == after[k].t && after[k] in after;
        o
  }

  /** The scan as the application runs it: one pass over the post-entry bars that
      skips the entry bar and stops at the first breach, stop-loss tested first. */
  method ScanTrade(entryTime: int, fiveMin: seq<Candle>, daily: seq<Candle>, cfg: Config)
    returns (outcome: Outcome)
    ensures outcome == Evaluate(entryTime, fiveMin, daily, cfg)
  {
    var hist := fiveMin;
    var resolution := FiveMin;
    if |hist| == 0 {
      hist := daily;
      resolution := Daily;
    }
    if |hist| == 0 {
      return NoData;
    }
    var after := AtOrAfter(hist, entryTime);
    if |after| == 0 {
      return NoDataAfterEntry(resolution);
    }
    var entryPrice := after[0].open;
    var sl := StopLossPrice(entryPrice, cfg.stopLossPct);
    var tp := TakeProfitPrice(entryPrice, cfg.takeProfitPct);
    var exitFound := false;
    for i := 0 to |after|
      invariant !exitFound
      invariant forall j :: 1 <= j < i ==> !Breaches(after[j], sl, tp)
    {
      if i == 0 {
        continue;
      }
      var candle := after[i];
      if candle.low <= sl {
        outcome := Completed(resolution, entryPrice, sl, candle.t, StopLoss, -cfg.stopLossPct);
        exitFound := true;
        break;
      } else if candle.high >= tp {
        outcome := Completed(resolution, entryPrice, tp, candle.t, TakeProfit, cfg.takeProfitPct);
        exitFound := true;
        break;
      }
    }
    if !exitFound {
      var last := after[|after| - 1];
      outcome := StillOpen(resolution, entryPrice, last.close, last.t, ReturnPct(entryPrice, last.close));
    }
  }
}
