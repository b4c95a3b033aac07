/**
 What a run's admissions and trades are in terms of prices, bars and days: which bar opened a position and
 why, which bar left it, and what it earned.
 */
module BacktestTrades {
  import opened Numerics
  import opened Indicators
  import opened Backtest
  import opened BacktestRun
  import opened BacktestCausality
  import opened BacktestBooks
  import Sorting

  // ---------- what a bar shows ----------

  /** How far the fast average is above the slow one, once both are there. */
  function Spread(cfg: Config, candles: seq<Candle>, i: nat): Option<real>
    requires ValidConfig(cfg) && i < |candles|
  {
    var fast, slow := EmaAt(Closes(candles), cfg.fastPeriod, i), EmaAt(Closes(candles), cfg.slowPeriod, i);
    if fast.Some? && slow.Some? then Some(fast.value - slow.value) else None
  }

  ghost predicate TurnsUp(cfg: Config, candles: seq<Candle>, i: nat)
    requires ValidConfig(cfg) && i < |candles|
  {
    && i >= 1 && Spread(cfg, candles, i - 1).Some? && Spread(cfg, candles, i).Some?
    && Spread(cfg, candles, i - 1).value <= 0.0 < Spread(cfg, candles, i).value
  }

  ghost predicate TurnsDown(cfg: Config, candles: seq<Candle>, i: nat)
    requires ValidConfig(cfg) && i < |candles|
  {
    && i >= 1 && Spread(cfg, candles, i - 1).Some? && Spread(cfg, candles, i).Some?
    && Spread(cfg, candles, i).value < 0.0 <= Spread(cfg, candles, i - 1).value
  }

  /** A bar signals a long exactly when the fast average gets above the slow one, a short when it gets below. */
  lemma SignalIsTurn(cfg: Config, candles: seq<Candle>, i: nat)
    requires ValidConfig(cfg) && i < |candles|
    ensures EntrySignal(cfg, candles, i) == Some(Long) <==> TurnsUp(cfg, candles, i)
    ensures EntrySignal(cfg, candles, i) == Some(Short) <==> TurnsDown(cfg, candles, i)
  {
  }

  /** Entry j is the last of the series whose day has begun at an instant. */
  ghost predicate LatestAt(series: seq<Signal>, ts: int, j: nat) {
    && j < |series| && series[j].date * 86400000 <= ts
    && forall k :: j < k < |series| ==> series[k].date * 86400000 > ts
  }

  lemma DayBegun(ts: int, date: int)
    ensures date <= DateOf(ts) <==> date * 86400000 <= ts
  {
  }

  lemma {:induction false} LookupIsLatest(series: seq<Signal>, ts: int)
    ensures forall j: nat :: LatestAt(series, ts, j) ==> LastAtOrBefore(series, DateOf(ts)) == Some(series[j].value)
    ensures LastAtOrBefore(series, DateOf(ts)).Some? ==> exists j: nat :: LatestAt(series, ts, j)
  {
    if series != [] {
      var n := |series| - 1;
      DayBegun(ts, series[n].date);
      if series[n].date <= DateOf(ts) {
        assert LatestAt(series, ts, n);
      } else {
        LookupIsLatest(series[..n], ts);
        forall j: nat ensures LatestAt(series[..n], ts, j) <==> LatestAt(series, ts, j) {
          LatestShrinks(series, ts, j);
        }
      }
    }
  }

  lemma LatestShrinks(series: seq<Signal>, ts: int, j: nat)
    requires series != [] && series[|series| - 1].date * 86400000 > ts
    ensures LatestAt(series[..|series| - 1], ts, j) <==> LatestAt(series, ts, j)
  {
    var init := series[..|series| - 1];
    assert forall k :: 0 <= k < |init| ==> init[k] == series[k];
  }

  predicate Meets(f: Filter, value: real) {
    && (f.op.Lt? ==> value < f.value) && (f.op.Gt? ==> value > f.value)
    && (f.op.Le? ==> value <= f.value) && (f.op.Ge? ==> value >= f.value)
  }

  ghost predicate FilterMet(f: Filter, ts: int, data: MacroData) {
    forall j: nat :: f.signal in data && LatestAt(data[f.signal], ts, j) ==> Meets(f, data[f.signal][j].value)
  }

  /** The filters pass exactly when the latest value of each signal that has one meets its comparison. */
  lemma FiltersPassExactlyWhen(filters: seq<Filter>, ts: int, data: MacroData)
    ensures MacroAllows(filters, DateOf(ts), data)
       <==> forall i :: 0 <= i < |filters| ==> FilterMet(filters[i], ts, data)
  {
    forall i | 0 <= i < |filters|
      ensures FilterAllows(filters[i], LastAtOrBefore(Series(data, filters[i].signal), DateOf(ts)))
         <==> FilterMet(filters[i], ts, data)
    {
      FilterMetExactlyWhen(filters[i], ts, data);
    }
  }

  lemma FilterMetExactlyWhen(f: Filter, ts: int, data: MacroData)
    ensures FilterAllows(f, LastAtOrBefore(Series(data, f.signal), DateOf(ts))) <==> FilterMet(f, ts, data)
  {
    var value := LastAtOrBefore(Series(data, f.signal), DateOf(ts));
    LookupIsLatest(Series(data, f.signal), ts);
    if value.Some? {
      var j: nat :| LatestAt(Series(data, f.signal), ts, j);
      assert value == Some(data[f.signal][j].value);
    }
  }

  /** The value of a signal at an instant, if its series has begun. */
  ghost predicate ValueAt(data: MacroData, name: string, ts: int, value: real) {
    name in data && exists j: nat :: LatestAt(data[name], ts, j) && data[name][j].value == value
  }

  lemma LookupIsValue(data: MacroData, name: string, ts: int, value: real)
    ensures ValueAt(data, name, ts, value) <==> name in data && LastAtOrBefore(data[name], DateOf(ts)) == Some(value)
  {
    if name in data { LookupIsLatest(data[name], ts); }
  }

  /** The values known at an instant, each the latest of its signal. */
  ghost predicate KnownAt(known: map<string, real>, data: MacroData, ts: int) {
    forall name, value :: name != "btc_dominance_prev" ==>
      (name in known && known[name] == value <==> ValueAt(data, name, ts, value))
  }

  /** Among them, as the previous dominance, is what dominance was at an instant. */
  ghost predicate DominanceAt(known: map<string, real>, data: MacroData, ts: int) {
    forall value :: ValueAt(data, "btc_dominance", ts, value) ==>
      "btc_dominance_prev" in known && known["btc_dominance_prev"] == value
  }

  lemma KnownIsLatest(ts: int, data: MacroData)
    ensures KnownAt(KnownSignals(ts, data), data, ts)
  {
    forall name, value ensures ValueAt(data, name, ts, value)
      <==> name in data && LastAtOrBefore(data[name], DateOf(ts)) == Some(value)
    {
      LookupIsValue(data, name, ts, value);
    }
  }

  lemma DominanceIsWeekOld(ts: int, data: MacroData, week: int)
    requires week == ts - 7 * 86400000
    ensures DominanceAt(KnownSignals(ts, data), data, week)
  {
    WeekBefore(ts);
    var known := KnownSignals(ts, data);
    forall value | ValueAt(data, "btc_dominance", week, value)
      ensures "btc_dominance_prev" in known && known["btc_dominance_prev"] == value
    {
      LookupIsValue(data, "btc_dominance", week, value);
    }
  }

  lemma WeekBefore(ts: int)
    ensures DateOf(ts - 7 * 86400000) == DateOf(ts) - 7
  {
  }

  /** A bar's label is the classifier's answer to the values known at its time and to dominance a week before; the full
      mode is asked for exactly when open interest or funding is among them. Without multipliers there is no label. */
  ghost predicate LabelFits(cfg: Config, ts: int, data: MacroData, regime: string) {
    if cfg.regimeMults == map[] then regime == ""
    else exists known ::
      && KnownAt(known, data, ts) && DominanceAt(known, data, ts - 7 * 86400000)
      && regime == cfg.classify(known, !(known.Keys !! {"agg_oi_change", "avg_funding"}))
  }

  lemma LabelIsOfKnown(cfg: Config, ts: int, data: MacroData)
    ensures LabelFits(cfg, ts, data, LabelAt(cfg, ts, data))
  {
    KnownIsLatest(ts, data);
    DominanceIsWeekOld(ts, data, ts - 7 * 86400000);
    var known := KnownSignals(ts, data);
    assert (!(known.Keys !! {"agg_oi_change", "avg_funding"}))
      <==> "agg_oi_change" in known || "avg_funding" in known;
  }

  // ---------- what an admission is ----------

  /** Stop and target lie the configured multiples of the average true range on the two sides of the entry. */
  predicate Levels(cfg: Config, p: Position, atr: real) {
    match p.side
    case Long => p.sl == p.entryPrice - cfg.slMult * atr && p.tp == p.entryPrice + cfg.tpMult * atr
    case Short => p.sl == p.entryPrice + cfg.slMult * atr && p.tp == p.entryPrice - cfg.tpMult * atr
  }

  /** The size before slippage: the way to the stop costs the part c of the risk. */
  predicate Unslipped(p: Position, c: real, base: real) {
    base * Abs(p.sl - p.entryPrice) == c * p.risk * p.entryPrice
  }

  /** A thousandth of the size in average turnover is lost to slippage, at most half a percent. */
  predicate Slips(base: real, avgVolume: real, slip: real) { slip * avgVolume == Min(base / 1000.0, 0.005 * avgVolume) }

  /** The part of the risk taken: the long range over the short one, at most all of it. */
  predicate Coefficient(c: real, atr14: real, atr100: real) { c * atr14 == Min(atr100, atr14) }

  datatype Sized = Sized(c: real, base: real, slip: real)

  predicate SizedBy(cfg: Config, a: Admission, o: Observation, z: Sized) {
    && o.atr14.Some? && o.atr100.Some? && Coefficient(z.c, o.atr14.value, o.atr100.value) && z.c >= cfg.minAtrC
    && a.pos.risk == cfg.riskPct * a.equity * a.mult && Unslipped(a.pos, z.c, z.base)
    && Slips(z.base, o.avgVol, z.slip) && a.pos.size == z.base * (1.0 - z.slip)
  }

  /** A bar opens a position. */
  predicate OpenedBy(cfg: Config, a: Admission, o: Observation) {
    && o.warm && a.pos.sym == o.sym && a.pos.entryTs == o.ts && a.pos.entryPrice == o.bar.close > 0.0 && a.pos.sl > 0.0
    && a.pos.size > 0.0 && o.signal == Some(a.pos.side)
    && (if a.pos.side == Long then cfg.allowLong else cfg.allowShort)
    && o.macroOk && o.atr14.Some? && o.atr14.value > 0.0 && o.atr100.Some? && o.avgVol > 0.0
    && Levels(cfg, a.pos, o.atr14.value)
    && a.pos.regime == o.regime && a.mult == (if o.regime in cfg.regimeMults then cfg.regimeMults[o.regime] else 1.0)
    && a.equity > 0.0 && a.exposure + a.pos.size <= cfg.maxExposure * a.equity
  }

  ghost predicate Justified(cfg: Config, a: Admission, obs: seq<Observation>) {
    exists k, z :: 0 <= k < |obs| && OpenedBy(cfg, a, obs[k]) && SizedBy(cfg, a, obs[k], z)
  }

  lemma CoefficientIs(atr14: real, atr100: real)
    requires atr14 > 0.0
    ensures Coefficient(AtrCoefficient(atr14, atr100).0, atr14, atr100)
  {
    DivideBack(atr100, atr14);
    DivideIs(atr14, atr14, 1.0);
    if atr100 <= atr14 { DivideMonotone(atr100, atr14, atr14); } else { DivideMonotone(atr14, atr100, atr14); }
  }

  /** The categories of a bar's ranges: the long range below a fifth of the short one, below three fifths, not below it,
      and between; nothing is known without a short range. */
  lemma CategoriesAre(atr14: real, atr100: real)
    requires atr14 >= 0.0
    ensures var category := AtrCoefficient(atr14, atr100).1;
      && (category == Unknown <==> atr14 == 0.0)
      && (atr14 > 0.0 ==>
            && (category == TooVolatile <==> 5.0 * atr100 < atr14)
            && (category == Volatile <==> atr14 <= 5.0 * atr100 < 3.0 * atr14)
            && (category == NotVolatile <==> atr100 >= atr14))
    ensures AtrCoefficient(0.0, atr100).0 == 0.0
  {
    if atr14 > 0.0 {
      RatioBelow(atr100, atr14, 0.2);
      RatioBelow(atr100, atr14, 0.6);
      RatioBelow(atr100, atr14, 1.0);
    }
  }

  lemma RatioBelow(a: real, b: real, x: real)
    requires b > 0.0
    ensures a / b < x <==> a < x * b
  {
    DivideBack(a, b);
    RatioTimes(a / b, b, x);
  }

  lemma RatioTimes(q: real, b: real, x: real)
    requires b > 0.0
    ensures q < x <==> q * b < x * b
  {
    if q < x { StrictProduct(q, x, b); } else { ProductMonotone(x, q, b); }
  }

  lemma SlippageIs(base: real, avgVolume: real, feeRate: real)
    requires avgVolume > 0.0
    ensures Slips(base, avgVolume, Slippage(base, avgVolume, feeRate))
  {
    var share := base / avgVolume;
    DivideBack(base, avgVolume);
    assert share * 0.001 * avgVolume == base / 1000.0;
    if share * 0.001 <= 0.005 {
      ProductMonotone(share * 0.001, 0.005, avgVolume);
    } else {
      ProductMonotone(0.005, share * 0.001, avgVolume);
    }
  }

  lemma BaseIs(entry: real, sl: real, risk: real, c: real)
    requires entry > 0.0 && sl != entry
    ensures Abs(sl - entry) / entry != 0.0
    ensures BaseSize(c, risk, Abs(sl - entry) / entry) * Abs(sl - entry) == c * risk * entry
  {
    var d, part := Abs(sl - entry), Abs(sl - entry) / entry;
    DivideBack(d, entry);
    DivideBack(c * risk, part);
    Thrice(BaseSize(c, risk, part), part, entry);
  }

  lemma Thrice(a: real, b: real, c: real)
    ensures a * (b * c) == a * b * c
  {
  }

  lemma StopApart(entry: real, sl: real)
    requires entry > 0.0 && sl == entry
    ensures Abs(sl - entry) / entry == 0.0
  {
  }

  /** What the sizing returns when it returns a size. */
  lemma SizingIs(p: Position, equity: real, c: real, riskPct: real, avgVolume: real, feeRate: real, mult: real)
    returns (base: real, slip: real)
    requires avgVolume > 0.0 && p.size > 0.0
    requires var s := SizePosition(p.entryPrice, p.sl, equity, c, riskPct, avgVolume, feeRate, mult);
      p.size == s.size && p.risk == s.risk
    ensures p.entryPrice > 0.0 && p.risk == riskPct * equity * mult
    ensures Unslipped(p, c, base) && Slips(base, avgVolume, slip) && p.size == base * (1.0 - slip)
  {
    if p.sl == p.entryPrice && p.entryPrice > 0.0 { StopApart(p.entryPrice, p.sl); }
    BaseIs(p.entryPrice, p.sl, p.risk, c);
    base := BaseSize(c, p.risk, Abs(p.sl - p.entryPrice) / p.entryPrice);
    slip := Slippage(base, avgVolume, feeRate);
    SlippageIs(base, avgVolume, feeRate);
  }

  /** The sizing gives nothing without a positive entry, stop and equity or with the stop at the entry; otherwise the
      risk and the size that costs its part on the way to the stop, less slippage, which is the fee without turnover. */
  lemma SizingOutcome(entry: real, sl: real, equity: real, c: real, riskPct: real, avgVolume: real, feeRate: real,
                      mult: real)
    returns (base: real)
    ensures var s := SizePosition(entry, sl, equity, c, riskPct, avgVolume, feeRate, mult);
      if entry <= 0.0 || sl <= 0.0 || equity <= 0.0 || sl == entry then s == Sizing(0.0, 0.0, 0.0)
      else
        && s.risk == riskPct * equity * mult && base * Abs(sl - entry) == c * s.risk * entry
        && s.size == base * (1.0 - s.slippage)
        && (if avgVolume > 0.0 then Slips(base, avgVolume, s.slippage) else s.slippage == feeRate)
  {
    base := 0.0;
    if entry > 0.0 && sl > 0.0 && equity > 0.0 {
      if sl == entry {
        StopApart(entry, sl);
      } else {
        BaseIs(entry, sl, riskPct * equity * mult, c);
        base := BaseSize(c, riskPct * equity * mult, Abs(sl - entry) / entry);
        if avgVolume > 0.0 { SlippageIs(base, avgVolume, feeRate); }
      }
    }
  }

  lemma ProposalSized(cfg: Config, a: Admission, o: Observation) returns (z: Sized)
    requires SoundRanges(o) && Candidate(cfg, o).Some? && a.pos == Proposal(cfg, o, a.equity) && a.pos.size > 0.0
    requires a.mult == RegimeMult(cfg, o.regime)
    ensures SizedBy(cfg, a, o, z) && a.pos.entryPrice > 0.0
  {
    var c := AtrCoefficient(o.atr14.value, o.atr100.value).0;
    var base, slip := SizingIs(a.pos, a.equity, c, cfg.riskPct, o.avgVol, cfg.takerFee, a.mult);
    CoefficientIs(o.atr14.value, o.atr100.value);
    z := Sized(c, base, slip);
  }

  lemma EquityShare(exposure: real, equity: real, most: real)
    requires equity > 0.0
    ensures exposure / equity <= most <==> exposure <= most * equity
  {
    DivideBack(exposure, equity);
    ShareWithin(exposure / equity, equity, most);
  }

  lemma ShareWithin(share: real, equity: real, most: real)
    requires equity > 0.0
    ensures share <= most <==> share * equity <= most * equity
  {
    if share <= most { ProductMonotone(share, most, equity); } else { StrictProduct(most, share, equity); }
  }

  /** What a step admits is opened by its bar. */
  lemma StepJustified(cfg: Config, b: Book, o: Observation) returns (z: Sized)
    requires SoundRanges(o) && |Step(cfg, b, o).admitted| > |b.admitted|
    ensures var r := Step(cfg, b, o);
      && r.admitted == b.admitted + [r.admitted[|b.admitted|]]
      && OpenedBy(cfg, r.admitted[|b.admitted|], o) && SizedBy(cfg, r.admitted[|b.admitted|], o, z)
  {
    var a := Step(cfg, b, o).admitted[|b.admitted|];
    EquityShare(a.exposure + a.pos.size, a.equity, cfg.maxExposure);
    z := ProposalSized(cfg, a, o);
  }

  /** Every position a scan admits is opened by one of its bars. */
  lemma {:induction false} AdmissionsJustified(cfg: Config, obs: seq<Observation>)
    requires forall i :: 0 <= i < |obs| ==> SoundRanges(obs[i])
    ensures forall a :: a in Scan(cfg, EmptyBook(cfg.initialEquity), obs).admitted ==> Justified(cfg, a, obs)
  {
    if obs != [] {
      var n := |obs| - 1;
      var b := Scan(cfg, EmptyBook(cfg.initialEquity), obs[..n]);
      AdmissionsJustified(cfg, obs[..n]);
      forall a | a in Step(cfg, b, obs[n]).admitted ensures Justified(cfg, a, obs) {
        if a in b.admitted {
          JustifiedStays(cfg, a, obs);
        } else {
          var z := StepJustified(cfg, b, obs[n]);
          assert a == Step(cfg, b, obs[n]).admitted[|b.admitted|];
        }
      }
    }
  }

  lemma JustifiedStays(cfg: Config, a: Admission, obs: seq<Observation>)
    requires obs != [] && Justified(cfg, a, obs[..|obs| - 1])
    ensures Justified(cfg, a, obs)
  {
    var init := obs[..|obs| - 1];
    var k, z :| 0 <= k < |init| && OpenedBy(cfg, a, init[k]) && SizedBy(cfg, a, init[k], z);
    assert obs[k] == init[k];
  }

  // ---------- over whole runs ----------

  /** What the scan is shown at a bar, in the bar's own terms. */
  ghost predicate Shown(cfg: Config, hist: History, data: MacroData, e: Event, o: Observation)
    requires ValidConfig(cfg) && ValidEvent(hist, e)
  {
    var candles := hist[e.sym];
    && o.sym == e.sym && o.ts == e.ts == candles[e.bar].ts && o.bar == candles[e.bar]
    && (o.warm <==> e.bar >= 101 && e.bar >= cfg.slowPeriod + 2)
    && (o.signal == Some(Long) <==> TurnsUp(cfg, candles, e.bar))
    && (o.signal == Some(Short) <==> TurnsDown(cfg, candles, e.bar))
    && o.atr14 == AtrAt(candles, 14, e.bar) && o.atr100 == AtrAt(candles, 100, e.bar)
    && o.avgVol == AvgVolAt(candles, 20, e.bar)
    && (o.macroOk <==> forall i :: 0 <= i < |cfg.filters| ==> FilterMet(cfg.filters[i], e.ts, data))
    && LabelFits(cfg, e.ts, data, o.regime)
  }

  lemma ObservationShows(cfg: Config, hist: History, data: MacroData, e: Event)
    requires ValidConfig(cfg) && ValidEvent(hist, e)
    ensures Shown(cfg, hist, data, e, Observe(cfg, hist, data, e))
  {
    SignalIsTurn(cfg, hist[e.sym], e.bar);
    FiltersPassExactlyWhen(cfg.filters, e.ts, data);
    LabelIsOfKnown(cfg, e.ts, data);
  }

  /** A bar of the history opens an admitted position, for the reasons it shows. */
  ghost predicate OpenedAt(cfg: Config, hist: History, data: MacroData, a: Admission, e: Event, o: Observation,
                           z: Sized)
    requires ValidConfig(cfg)
  {
    ValidEvent(hist, e) && Shown(cfg, hist, data, e, o) && OpenedBy(cfg, a, o) && SizedBy(cfg, a, o, z)
  }

  /** Every position a run admits is opened at a warm bar of its symbol where the averages cross its way, all filters
      are met, and stop, target and size are what the bar's ranges and turnover and the book's equity make them. */
  lemma RunAdmissionsJustified(cfg: Config, hist: History, data: MacroData, a: Admission)
    returns (e: Event, o: Observation, z: Sized)
    requires ValidConfig(cfg) && a in Scanned(cfg, hist, data).admitted
    ensures OpenedAt(cfg, hist, data, a, e, o, z)
  {
    TimelineValid(hist);
    var events := Timeline(hist);
    var obs := Observed(cfg, hist, data, events);
    forall k | 0 <= k < |obs| ensures SoundRanges(obs[k]) { ObserveSound(cfg, hist, data, events[k]); }
    AdmissionsJustified(cfg, obs);
    assert Justified(cfg, a, obs);
    var k, y :| 0 <= k < |obs| && OpenedBy(cfg, a, obs[k]) && SizedBy(cfg, a, obs[k], y);
    e, o, z := events[k], obs[k], y;
    ObservationShows(cfg, hist, data, e);
  }

  /** With positive multiples the entry of every admission lies strictly between its stop and its target, the stop on
      the losing side. */
  lemma EntryBetweenLevels(cfg: Config, hist: History, data: MacroData, a: Admission)
    requires ValidConfig(cfg) && a in Scanned(cfg, hist, data).admitted && cfg.slMult > 0.0 && cfg.tpMult > 0.0
    ensures a.pos.entryPrice > 0.0 && a.pos.size > 0.0
    ensures a.pos.side == Long ==> a.pos.sl < a.pos.entryPrice < a.pos.tp
    ensures a.pos.side == Short ==> a.pos.tp < a.pos.entryPrice < a.pos.sl
  {
    var e, o, z := RunAdmissionsJustified(cfg, hist, data, a);
    StrictProduct(0.0, cfg.slMult, o.atr14.value);
    StrictProduct(0.0, cfg.tpMult, o.atr14.value);
  }

  // ---------- what a trade earns ----------

  /** A trade's exact result: with both fees added back and scaled by the entry price it is the size times the way of
      the price, upwards for a long and downwards for a short. */
  predicate Earns(cfg: Config, t: Trade, net: real) {
    (net + 2.0 * cfg.takerFee * t.size) * t.entryPrice
      == t.size * (if t.side == Long then t.exitPrice - t.entryPrice else t.entryPrice - t.exitPrice)
  }

  lemma NetEarns(cfg: Config, t: Trade)
    requires t.entryPrice > 0.0
    ensures Earns(cfg, t, TradeNet(cfg, t))
  {
    var way := if t.side == Long then t.exitPrice - t.entryPrice else t.entryPrice - t.exitPrice;
    DivideBack(way, t.entryPrice);
    Thirds(way / t.entryPrice, t.size, t.entryPrice);
    FeesAre(cfg.takerFee, t.size);
  }

  /** A trade without an entry price costs its fees; without a risk its R is 0, else R times the risk is the result. */
  lemma UnpricedAndUnrisked(cfg: Config, t: Trade, net: real, risk: real)
    ensures t.entryPrice <= 0.0 ==> TradeNet(cfg, t) == -(2.0 * cfg.takerFee * t.size)
    ensures risk == 0.0 ==> RMultiple(net, risk) == 0.0
    ensures RMultiple(net, risk) * Abs(risk) == if risk == 0.0 then 0.0 else net
  {
    if risk != 0.0 { DivideBack(net, Abs(risk)); }
  }

  lemma Thirds(a: real, b: real, c: real)
    ensures a * b * c == b * (a * c)
  {
  }

  lemma FeesAre(rate: real, size: real)
    ensures 2.0 * rate * size == 2.0 * (rate * size)
  {
  }

  /** Every reported trade shows its exact result to four decimals, and as many times the risk taken. */
  lemma TradeResults(cfg: Config, hist: History, data: MacroData, i: nat) returns (net: real, risk: real)
    requires ValidConfig(cfg) && i < |FinalTrades(cfg, hist, data)|
    ensures risk > 0.0 && exists a :: a in Scanned(cfg, hist, data).admitted && a.pos.risk == risk
    ensures var t := FinalTrades(cfg, hist, data)[i];
      && t.entryPrice > 0.0 && Earns(cfg, t, net) && net == TradeNet(cfg, t)
      && Abs(t.pnl - net) <= 0.00005 && Abs(t.rMultiple - net / risk) <= 0.00005
  {
    EveryAdmissionOneTrade(cfg, hist, data);
    RunRiskBounded(cfg, hist, data);
    var t, p := FinalTrades(cfg, hist, data)[i], FinalPositions(cfg, hist, data)[i];
    var a := AdmissionOf(Scanned(cfg, hist, data).admitted, FinalPositions(cfg, hist, data), i);
    assert RiskBounded(cfg, a) && Settles(cfg, p, t);
    net, risk := TradeNet(cfg, t), p.risk;
    NetEarns(cfg, t);
    RoundClose(net, FOUR_DIGITS);
    RoundClose(net / risk, FOUR_DIGITS);
  }

  /** With positive multiples every trade that takes its profit gains before fees and every one stopped out loses. */
  lemma TargetsGainStopsLose(cfg: Config, hist: History, data: MacroData, i: nat)
    requires ValidConfig(cfg) && i < |FinalTrades(cfg, hist, data)| && cfg.slMult > 0.0 && cfg.tpMult > 0.0
    ensures var t := FinalTrades(cfg, hist, data)[i];
      && (t.reason == TakeProfit ==> TradeNet(cfg, t) + 2.0 * cfg.takerFee * t.size > 0.0)
      && (t.reason == StopLoss ==> TradeNet(cfg, t) + 2.0 * cfg.takerFee * t.size < 0.0)
  {
    EveryAdmissionOneTrade(cfg, hist, data);
    var t, p := FinalTrades(cfg, hist, data)[i], FinalPositions(cfg, hist, data)[i];
    var a := AdmissionOf(Scanned(cfg, hist, data).admitted, FinalPositions(cfg, hist, data), i);
    EntryBetweenLevels(cfg, hist, data, a);
    assert Settles(cfg, p, t) && p == a.pos;
    SettledSign(cfg, p, t);
  }

  lemma SettledSign(cfg: Config, p: Position, t: Trade)
    requires Settles(cfg, p, t) && p.entryPrice > 0.0 && p.size > 0.0
    requires if p.side == Long then p.sl < p.entryPrice < p.tp else p.tp < p.entryPrice < p.sl
    ensures t.reason == TakeProfit ==> TradeNet(cfg, t) + 2.0 * cfg.takerFee * t.size > 0.0
    ensures t.reason == StopLoss ==> TradeNet(cfg, t) + 2.0 * cfg.takerFee * t.size < 0.0
  {
    NetEarns(cfg, t);
    EarnsSign(cfg, t, TradeNet(cfg, t));
  }

  lemma EarnsSign(cfg: Config, t: Trade, net: real)
    requires t.entryPrice > 0.0 && t.size > 0.0 && Earns(cfg, t, net)
    ensures var way := if t.side == Long then t.exitPrice - t.entryPrice else t.entryPrice - t.exitPrice;
      && (way > 0.0 ==> net + 2.0 * cfg.takerFee * t.size > 0.0)
      && (way < 0.0 ==> net + 2.0 * cfg.takerFee * t.size < 0.0)
  {
    var gross := net + 2.0 * cfg.takerFee * t.size;
    SignOf(gross, t.entryPrice, t.size,
           if t.side == Long then t.exitPrice - t.entryPrice else t.entryPrice - t.exitPrice);
  }

  lemma SignOf(gross: real, entry: real, size: real, way: real)
    requires entry > 0.0 && size > 0.0 && gross * entry == size * way
    ensures (way > 0.0 ==> gross > 0.0) && (way < 0.0 ==> gross < 0.0)
  {
    if way > 0.0 && gross <= 0.0 {
      StrictProduct(0.0, way, size);
      ProductMonotone(gross, 0.0, entry);
    }
    if way < 0.0 && gross >= 0.0 {
      StrictProduct(way, 0.0, size);
      ProductMonotone(0.0, gross, entry);
    }
  }

  // ---------- the bar that leaves a position ----------

  predicate HitsStop(p: Position, bar: Candle) { if p.side == Long then bar.low <= p.sl else bar.high >= p.sl }

  predicate HitsTarget(p: Position, bar: Candle) { if p.side == Long then bar.high >= p.tp else bar.low <= p.tp }

  /** A bar that hits one level leaves there; one that hits both leaves at the target only for a long on a bar that does
      not close below its open. */
  predicate LeavesAt(p: Position, bar: Candle, price: real) {
    if HitsStop(p, bar) && HitsTarget(p, bar)
    then price == if p.side == Long && bar.close >= bar.open then p.tp else p.sl
    else (HitsTarget(p, bar) && price == p.tp) || (HitsStop(p, bar) && price == p.sl)
  }

  lemma ExitIsHit(p: Position, bar: Candle)
    ensures ExitLevel(p, bar).Some? <==> HitsStop(p, bar) || HitsTarget(p, bar)
    ensures ExitLevel(p, bar).Some? ==> LeavesAt(p, bar, ExitLevel(p, bar).value.0)
  {
  }

  /** No warm bar of the position's symbol between two places of the timeline hits one of its levels. */
  ghost predicate Untouched(obs: seq<Observation>, p: Position, from: int, to: int) {
    forall j :: from < j < to && 0 <= j < |obs| && obs[j].sym == p.sym && obs[j].warm ==>
      !HitsStop(p, obs[j].bar) && !HitsTarget(p, obs[j].bar)
  }

  ghost predicate EnteredIn(obs: seq<Observation>, p: Position, k: int) {
    && 0 <= k < |obs| && obs[k].sym == p.sym && obs[k].ts == p.entryTs
    && obs[k].warm && obs[k].bar.close == p.entryPrice
  }

  /** Entered at a bar, and no bar since has hit a level. */
  ghost predicate StillOpen(obs: seq<Observation>, p: Position) {
    exists k :: EnteredIn(obs, p, k) && Untouched(obs, p, k, |obs|)
  }

  ghost predicate LeftIn(obs: seq<Observation>, p: Position, t: Trade, m: int) {
    && 0 <= m < |obs| && obs[m].sym == p.sym && obs[m].ts == t.exitTs && obs[m].warm
    && LeavesAt(p, obs[m].bar, t.exitPrice)
  }

  /** Left by the first bar after its entry that hit a level. */
  ghost predicate LeftAtFirstTouch(obs: seq<Observation>, p: Position, t: Trade) {
    exists k, m :: EnteredIn(obs, p, k) && k < m && LeftIn(obs, p, t, m) && Untouched(obs, p, k, m)
  }

  ghost predicate TouchesKept(b: Book, obs: seq<Observation>) {
    && |b.closed| == |b.trades| && OnePerSymbol(b.open)
    && (forall i :: 0 <= i < |b.open| ==> StillOpen(obs, b.open[i]))
    && (forall i :: 0 <= i < |b.trades| ==> LeftAtFirstTouch(obs, b.closed[i], b.trades[i]))
  }

  lemma OpenOneMore(obs: seq<Observation>, o: Observation, p: Position)
    requires StillOpen(obs, p) && (o.sym == p.sym && o.warm ==> !HitsStop(p, o.bar) && !HitsTarget(p, o.bar))
    ensures StillOpen(obs + [o], p)
  {
    var k :| EnteredIn(obs, p, k) && Untouched(obs, p, k, |obs|);
    var more := obs + [o];
    forall j | k < j < |more| && more[j].sym == p.sym && more[j].warm
      ensures !HitsStop(p, more[j].bar) && !HitsTarget(p, more[j].bar)
    {
      if j < |obs| { assert more[j] == obs[j]; }
    }
    assert EnteredIn(more, p, k) && Untouched(more, p, k, |more|);
  }

  lemma LeftOneMore(obs: seq<Observation>, o: Observation, p: Position, t: Trade)
    requires LeftAtFirstTouch(obs, p, t)
    ensures LeftAtFirstTouch(obs + [o], p, t)
  {
    var k, m :| EnteredIn(obs, p, k) && k < m && LeftIn(obs, p, t, m) && Untouched(obs, p, k, m);
    UntouchedWithin(obs, o, p, k, m);
    assert EnteredIn(obs + [o], p, k) && LeftIn(obs + [o], p, t, m);
  }

  lemma UntouchedWithin(obs: seq<Observation>, o: Observation, p: Position, from: int, to: int)
    requires Untouched(obs, p, from, to) && to <= |obs|
    ensures Untouched(obs + [o], p, from, to)
  {
    var more := obs + [o];
    forall j | from < j < to && 0 <= j < |more| && more[j].sym == p.sym && more[j].warm
      ensures !HitsStop(p, more[j].bar) && !HitsTarget(p, more[j].bar)
    {
      assert more[j] == obs[j];
    }
  }

  lemma LeftNow(cfg: Config, obs: seq<Observation>, o: Observation, p: Position, t: Trade)
    requires StillOpen(obs, p) && o.sym == p.sym && o.warm
    requires t.exitTs == o.ts && LeavesAt(p, o.bar, t.exitPrice)
    ensures LeftAtFirstTouch(obs + [o], p, t)
  {
    var k :| EnteredIn(obs, p, k) && Untouched(obs, p, k, |obs|);
    UntouchedWithin(obs, o, p, k, |obs|);
    assert EnteredIn(obs + [o], p, k) && LeftIn(obs + [o], p, t, |obs|);
  }

  lemma ColdTouches(b: Book, obs: seq<Observation>, o: Observation)
    requires TouchesKept(b, obs) && !o.warm
    ensures TouchesKept(b, obs + [o])
  {
    forall i | 0 <= i < |b.open| ensures StillOpen(obs + [o], b.open[i]) { OpenOneMore(obs, o, b.open[i]); }
    forall i | 0 <= i < |b.trades| ensures LeftAtFirstTouch(obs + [o], b.closed[i], b.trades[i]) {
      LeftOneMore(obs, o, b.closed[i], b.trades[i]);
    }
  }

  lemma ExitTouches(cfg: Config, b: Book, obs: seq<Observation>, o: Observation)
    requires TouchesKept(b, obs) && o.warm
    ensures TouchesKept(ExitStep(cfg, b, o), obs + [o])
  {
    var r, k := ExitStep(cfg, b, o), Find(b.open, o.sym);
    forall i | 0 <= i < |r.open| ensures StillOpen(obs + [o], r.open[i]) { ExitKeepsOpen(cfg, b, obs, o, i); }
    forall i | 0 <= i < |b.trades| ensures LeftAtFirstTouch(obs + [o], b.closed[i], b.trades[i]) {
      LeftOneMore(obs, o, b.closed[i], b.trades[i]);
    }
    if |r.trades| > |b.trades| {
      ExitIsHit(b.open[k], o.bar);
      LeftNow(cfg, obs, o, b.open[k], r.trades[|b.trades|]);
    }
  }

  lemma ExitKeepsOpen(cfg: Config, b: Book, obs: seq<Observation>, o: Observation, i: nat)
    requires TouchesKept(b, obs) && o.warm && i < |ExitStep(cfg, b, o).open|
    ensures StillOpen(obs + [o], ExitStep(cfg, b, o).open[i])
  {
    var r, k := ExitStep(cfg, b, o), Find(b.open, o.sym);
    var j := if |r.open| == |b.open| || i < k then i else i + 1;
    assert r.open[i] == b.open[j];
    if b.open[j].sym == o.sym {
      assert j == k;
      ExitIsHit(b.open[k], o.bar);
    }
    OpenOneMore(obs, o, b.open[j]);
  }

  lemma EntryTouches(cfg: Config, b: Book, obs: seq<Observation>, o: Observation)
    requires TouchesKept(b, obs + [o]) && o.warm
    ensures TouchesKept(EntryStep(cfg, b, o), obs + [o])
  {
    var r, more := EntryStep(cfg, b, o), obs + [o];
    if |r.open| > |b.open| {
      var p := r.open[|b.open|];
      assert EnteredIn(more, p, |obs|) && Untouched(more, p, |obs|, |more|);
    }
  }

  lemma {:induction false} ScanTouches(cfg: Config, obs: seq<Observation>)
    ensures TouchesKept(Scan(cfg, EmptyBook(cfg.initialEquity), obs), obs)
  {
    if obs != [] {
      var n := |obs| - 1;
      var b := Scan(cfg, EmptyBook(cfg.initialEquity), obs[..n]);
      ScanTouches(cfg, obs[..n]);
      assert obs == obs[..n] + [obs[n]];
      if obs[n].warm {
        ExitTouches(cfg, b, obs[..n], obs[n]);
        EntryTouches(cfg, ExitStep(cfg, b, obs[n]), obs[..n], obs[n]);
      } else {
        ColdTouches(b, obs[..n], obs[n]);
      }
    }
  }

  predicate ClosedAtEnd(candles: seq<Candle>, t: Trade) {
    candles != [] && t.exitPrice == candles[|candles| - 1].close && t.exitTs == candles[|candles| - 1].ts
  }

  ghost predicate NoneForced(trades: seq<Trade>) { forall i :: 0 <= i < |trades| ==> trades[i].reason != EndOfData }

  lemma StepReasons(cfg: Config, b: Book, o: Observation)
    requires NoneForced(b.trades)
    ensures NoneForced(Step(cfg, b, o).trades)
  {
    var r := ExitStep(cfg, b, o);
    forall i | 0 <= i < |r.trades| ensures r.trades[i].reason != EndOfData {
      if i < |b.trades| { assert r.trades[i] == b.trades[i]; }
    }
  }

  lemma {:induction false} ScanReasons(cfg: Config, obs: seq<Observation>)
    ensures NoneForced(Scan(cfg, EmptyBook(cfg.initialEquity), obs).trades)
  {
    if obs != [] {
      var n := |obs| - 1;
      ScanReasons(cfg, obs[..n]);
      StepReasons(cfg, Scan(cfg, EmptyBook(cfg.initialEquity), obs[..n]), obs[n]);
    }
  }

  /** How a position ended, in a timeline of bars. */
  ghost predicate Ended(hist: History, obs: seq<Observation>, p: Position, t: Trade) {
    if t.reason == EndOfData then StillOpen(obs, p) && p.sym < |hist| && ClosedAtEnd(hist[p.sym], t)
    else LeftAtFirstTouch(obs, p, t)
  }

  lemma ForcedEnd(cfg: Config, hist: History, obs: seq<Observation>, b: Book, i: nat)
    requires TouchesKept(b, obs) && Priced(hist, b.open) && i < |b.open|
    ensures Ended(hist, obs, b.open[i], ForceTrades(cfg, hist, b.open)[i])
  {
    assert StillOpen(obs, b.open[i]) && ForceTrades(cfg, hist, b.open)[i] == ForceTrade(cfg, hist, b.open[i]);
  }

  /** Every trade of a run leaves at the first warm bar of its symbol after its entry that hits its stop or its target;
      those closed by force are at the last close of their symbol and no bar has hit either. */
  lemma TradesLeaveAtFirstTouch(cfg: Config, hist: History, data: MacroData, i: nat)
    requires ValidConfig(cfg) && i < |FinalTrades(cfg, hist, data)|
    ensures ValidEvents(hist, Timeline(hist)) && |FinalPositions(cfg, hist, data)| == |FinalTrades(cfg, hist, data)|
    ensures Ended(hist, Observed(cfg, hist, data, Timeline(hist)),
                  FinalPositions(cfg, hist, data)[i], FinalTrades(cfg, hist, data)[i])
  {
    ScannedTouches(cfg, hist, data);
    FinalParts(cfg, hist, data);
    EndedInBook(cfg, hist, Observed(cfg, hist, data, Timeline(hist)), Scanned(cfg, hist, data), i);
  }

  lemma ScannedTouches(cfg: Config, hist: History, data: MacroData)
    requires ValidConfig(cfg)
    ensures ValidEvents(hist, Timeline(hist)) && NoneForced(Scanned(cfg, hist, data).trades)
    ensures TouchesKept(Scanned(cfg, hist, data), Observed(cfg, hist, data, Timeline(hist)))
  {
    TimelineValid(hist);
    ScanTouches(cfg, Observed(cfg, hist, data, Timeline(hist)));
    ScanReasons(cfg, Observed(cfg, hist, data, Timeline(hist)));
  }

  lemma FinalParts(cfg: Config, hist: History, data: MacroData)
    requires ValidConfig(cfg)
    ensures var b := Scanned(cfg, hist, data);
      && Priced(hist, b.open) && FinalPositions(cfg, hist, data) == b.closed + b.open
      && FinalTrades(cfg, hist, data) == b.trades + ForceTrades(cfg, hist, b.open)
  {
    ScannedPriced(cfg, hist, data);
  }

  lemma EndedInBook(cfg: Config, hist: History, obs: seq<Observation>, b: Book, i: nat)
    requires TouchesKept(b, obs) && Priced(hist, b.open) && i < |b.trades + ForceTrades(cfg, hist, b.open)|
    requires NoneForced(b.trades)
    ensures |b.closed + b.open| == |b.trades + ForceTrades(cfg, hist, b.open)|
    ensures Ended(hist, obs, (b.closed + b.open)[i], (b.trades + ForceTrades(cfg, hist, b.open))[i])
  {
    if i < |b.trades| {
      assert LeftAtFirstTouch(obs, b.closed[i], b.trades[i]);
    } else {
      ForcedEnd(cfg, hist, obs, b, i - |b.trades|);
    }
  }

  // ---------- when a bar opens a position ----------

  /** The bar asks for a position of a side. */
  predicate Asks(cfg: Config, o: Observation, side: Side) {
    && o.warm && o.signal == Some(side) && (if side == Long then cfg.allowLong else cfg.allowShort) && o.macroOk
    && o.atr14.Some? && o.atr14.value > 0.0 && o.atr100.Some? && o.avgVol > 0.0
    && Min(o.atr100.value, o.atr14.value) >= cfg.minAtrC * o.atr14.value
  }

  lemma CoefficientAtLeast(c: real, atr14: real, atr100: real, least: real)
    requires atr14 > 0.0 && Coefficient(c, atr14, atr100)
    ensures c >= least <==> Min(atr100, atr14) >= least * atr14
  {
    if c >= least { ProductMonotone(least, c, atr14); } else { StrictProduct(c, least, atr14); }
  }

  lemma CandidateExactlyWhen(cfg: Config, o: Observation, side: Side)
    requires SoundRanges(o) && o.warm
    ensures Candidate(cfg, o) == Some(side) <==> Asks(cfg, o, side)
  {
    if o.atr14.Some? && o.atr14.value > 0.0 && o.atr100.Some? {
      CoefficientIs(o.atr14.value, o.atr100.value);
      CoefficientAtLeast(AtrCoefficient(o.atr14.value, o.atr100.value).0, o.atr14.value, o.atr100.value, cfg.minAtrC);
    }
  }

  /** A bar opens a position if and only if, once it has left what it hits, its symbol holds none, a place is free, it
      asks for a side, equity is positive and the sized position fits the exposure allowed. */
  lemma AdmitsExactlyWhen(cfg: Config, b: Book, o: Observation)
    requires SoundRanges(o) && o.warm
    ensures |Step(cfg, b, o).admitted| > |b.admitted|
       <==> Free(cfg, ExitStep(cfg, b, o), o.sym)
            && exists side :: Asks(cfg, o, side) && Fits(cfg, ExitStep(cfg, b, o), o, side)
  {
    CandidateExactlyWhen(cfg, o, Long);
    CandidateExactlyWhen(cfg, o, Short);
    var after := ExitStep(cfg, b, o);
    if Candidate(cfg, o).Some? && after.equity > 0.0 {
      EquityShare(Exposure(after.open) + Proposal(cfg, o, after.equity).size, after.equity, cfg.maxExposure);
    }
  }

  /** The symbol has no position, a place is free and equity is left. */
  ghost predicate Free(cfg: Config, b: Book, sym: nat) {
    (forall i :: 0 <= i < |b.open| ==> b.open[i].sym != sym) && |b.open| < cfg.maxPositions && b.equity > 0.0
  }

  /** The position the bar asks for has a size, and all sizes together stay within the exposure allowed. */
  predicate Fits(cfg: Config, b: Book, o: Observation, side: Side) {
    && Candidate(cfg, o) == Some(side) && Proposal(cfg, o, b.equity).size > 0.0
    && Exposure(b.open) + Proposal(cfg, o, b.equity).size <= cfg.maxExposure * b.equity
  }
}
