/**
 `BacktestRunner.run`: indicators first, then one pass over the merged timeline, then
 forced closes. The loops are proved to compute the fold that the other modules reason about.
 */
module BacktestRun {
  import opened Numerics
  import opened Indicators
  import opened Backtest
  import Sorting

  datatype IndicatorSet = IndicatorSet(
    emaFast: seq<Option<real>>, emaSlow: seq<Option<real>>,
    atr14: seq<Option<real>>, atr100: seq<Option<real>>, avgVol: seq<real>)

  ghost predicate Precomputed(cfg: Config, candles: seq<Candle>, ind: IndicatorSet)
    requires ValidConfig(cfg)
  {
    && |ind.emaFast| == |ind.emaSlow| == |ind.atr14| == |ind.atr100| == |ind.avgVol| == |candles|
    && (forall i :: 0 <= i < |candles| ==> ind.emaFast[i] == EmaAt(Closes(candles), cfg.fastPeriod, i))
    && (forall i :: 0 <= i < |candles| ==> ind.emaSlow[i] == EmaAt(Closes(candles), cfg.slowPeriod, i))
    && (forall i :: 0 <= i < |candles| ==> ind.atr14[i] == AtrAt(candles, 14, i))
    && (forall i :: 0 <= i < |candles| ==> ind.atr100[i] == AtrAt(candles, 100, i))
    && (forall i :: 0 <= i < |candles| ==> ind.avgVol[i] == AvgVolAt(candles, VOLUME_WINDOW, i))
  }

  method Precompute(cfg: Config, candles: seq<Candle>) returns (ind: IndicatorSet)
    requires ValidConfig(cfg)
    ensures Precomputed(cfg, candles, ind)
  {
    var closes := Closes(candles);
    var fast := Ema(closes, cfg.fastPeriod);
    var slow := Ema(closes, cfg.slowPeriod);
    var atr14 := WilderAtr(candles, 14);
    var atr100 := WilderAtr(candles, 100);
    var vol := RollingAvgVol(candles, VOLUME_WINDOW);
    ind := IndicatorSet(fast, slow, atr14, atr100, vol);
  }

  /** The crossing test on the precomputed arrays reads the same signal as the recurrence. */
  method CheckEntrySignalFast(cfg: Config, candles: seq<Candle>, ind: IndicatorSet, bar: nat)
    returns (signal: Option<Side>)
    requires ValidConfig(cfg) && bar < |candles| && Precomputed(cfg, candles, ind)
    ensures signal == EntrySignal(cfg, candles, bar)
  {
    if bar < 1 || bar >= |ind.emaFast| {
      return None;
    }
    signal := Crossing(ind.emaFast[bar], ind.emaFast[bar - 1], ind.emaSlow[bar], ind.emaSlow[bar - 1]);
  }

  method BuildTimeline(hist: History) returns (events: seq<Event>)
    ensures events == Timeline(hist)
  {
    events := [];
    for sym := 0 to |hist|
      invariant events + EventsFrom(hist, sym) == EventsFrom(hist, 0)
    {
      events := events + BarEvents(sym, hist[sym]);
    }
    assert events + [] == events;
    events := Sorting.SortBy(events, EventTime);
  }

  /** One pass of the loop body; an early return is the source's `continue`. */
  method ScanEvent(cfg: Config, hist: History, ind: seq<IndicatorSet>, data: MacroData, e: Event, b: Book)
    returns (r: Book)
    requires ValidConfig(cfg) && ValidEvent(hist, e)
    requires |ind| == |hist| && Precomputed(cfg, hist[e.sym], ind[e.sym])
    requires forall name :: name in data ==> ByDate(data[name])
    ensures r == Step(cfg, b, Observe(cfg, hist, data, e))
  {
    if e.bar < Warmup(cfg) {
      return b;
    }
    r := CheckExit(cfg, b, e, hist[e.sym][e.bar], Observe(cfg, hist, data, e));
    if Find(r.open, e.sym) < |r.open| {
      return;
    }
    if |r.open| >= cfg.maxPositions {
      return;
    }
    r := TryEntry(cfg, hist, ind[e.sym], data, e, r);
  }

  method CheckExit(cfg: Config, b: Book, e: Event, bar: Candle, ghost o: Observation) returns (r: Book)
    requires o.sym == e.sym && o.ts == e.ts && o.bar == bar
    ensures r == ExitStep(cfg, b, o)
  {
    r := b;
    var k := Find(r.open, e.sym);
    if k < |r.open| {
      var p := r.open[k];
      var exit := ExitLevel(p, bar);
      if exit.Some? {
        var net := NetPnl(cfg, p, exit.value.0);
        var t := Trade(p.sym, p.side, p.entryTs, e.ts, p.entryPrice, exit.value.0, p.size,
                       RoundTo(RMultiple(net, p.risk), FOUR_DIGITS), RoundTo(net, FOUR_DIGITS),
                       p.regime, exit.value.1);
        r := r.(trades := r.trades + [t], equity := r.equity + net,
                open := r.open[..k] + r.open[k + 1..], closed := r.closed + [p]);
      }
    }
  }

  method TryEntry(cfg: Config, hist: History, cells: IndicatorSet, data: MacroData, e: Event, b: Book)
    returns (r: Book)
    requires ValidConfig(cfg) && ValidEvent(hist, e)
    requires Precomputed(cfg, hist[e.sym], cells)
    requires forall name :: name in data ==> ByDate(data[name])
    requires Find(b.open, e.sym) == |b.open| < cfg.maxPositions
    ensures r == EntryStep(cfg, b, Observe(cfg, hist, data, e))
  {
    ghost var o := Observe(cfg, hist, data, e);
    var bar := hist[e.sym][e.bar];
    var signal := CheckEntrySignalFast(cfg, hist[e.sym], cells, e.bar);
    assert o.signal == signal;
    if signal.None? || (signal.value.Long? && !cfg.allowLong) || (signal.value.Short? && !cfg.allowShort) {
      return b;
    }
    var allowed := CheckMacroFilters(cfg.filters, e.ts, data);
    if !allowed {
      return b;
    }
    var atr14, atr100 := cells.atr14[e.bar], cells.atr100[e.bar];
    if atr14.None? || atr100.None? || atr14.value == 0.0 {
      return b;
    }
    var (atrC, category) := AtrCoefficient(atr14.value, atr100.value);
    var avgVol := cells.avgVol[e.bar];
    if atrC < cfg.minAtrC || avgVol <= 0.0 {
      return b;
    }
    var regime := LabelAt(cfg, e.ts, data);
    assert Candidate(cfg, o) == Some(signal.value);
    r := Admit(cfg, b, e, bar, signal.value, atr14.value, atrC, avgVol, regime, o);
  }

  method Admit(cfg: Config, b: Book, e: Event, bar: Candle, side: Side, atr: real, atrC: real, avgVol: real,
               regime: string, ghost o: Observation)
    returns (r: Book)
    requires Find(b.open, e.sym) == |b.open| < cfg.maxPositions
    requires o.sym == e.sym && o.ts == e.ts && o.bar == bar && o.avgVol == avgVol && o.regime == regime
    requires Candidate(cfg, o) == Some(side) && o.atr14 == Some(atr)
    requires AtrCoefficient(atr, o.atr100.value).0 == atrC
    ensures r == EntryStep(cfg, b, o)
  {
    var sl, tp := StopPrice(cfg, side, bar.close, atr), TargetPrice(cfg, side, bar.close, atr);
    var mult := RegimeMult(cfg, regime);
    var s := SizePosition(bar.close, sl, b.equity, atrC, cfg.riskPct, avgVol, cfg.takerFee, mult);
    var p := Position(e.sym, side, bar.close, sl, tp, s.size, s.risk, e.ts, regime);
    assert p == Proposal(cfg, o, b.equity);
    if s.size <= 0.0 || b.equity <= 0.0 {
      return b;
    }
    var exposure := Exposure(b.open);
    if (exposure + s.size) / b.equity > cfg.maxExposure {
      return b;
    }
    r := b.(open := b.open + [p], admitted := b.admitted + [Admission(p, b.equity, exposure, mult)]);
  }

  /** A step keeps, drops or adds positions; a new one belongs to the event's symbol. */
  lemma StepOpen(cfg: Config, b: Book, o: Observation)
    ensures forall p :: p in Step(cfg, b, o).open ==> p in b.open || p.sym == o.sym
  {
    var b1 := ExitStep(cfg, b, o);
    assert forall p :: p in b1.open ==> p in b.open;
  }

  /** Every position in the book belongs to a symbol that has bars, so a forced close has a price. */
  lemma {:induction false} ScanPriced(cfg: Config, hist: History, obs: seq<Observation>, b: Book)
    requires Priced(hist, b.open)
    requires forall i :: 0 <= i < |obs| ==> obs[i].sym < |hist| && hist[obs[i].sym] != []
    ensures Priced(hist, Scan(cfg, b, obs).open)
  {
    if obs != [] {
      var n := |obs| - 1;
      ScanPriced(cfg, hist, obs[..n], b);
      StepOpen(cfg, Scan(cfg, b, obs[..n]), obs[n]);
      assert obs[n].sym < |hist|;
    }
  }

  lemma ScannedPriced(cfg: Config, hist: History, data: MacroData)
    requires ValidConfig(cfg)
    ensures Priced(hist, Scanned(cfg, hist, data).open)
  {
    TimelineValid(hist);
    ScanPriced(cfg, hist, Observed(cfg, hist, data, Timeline(hist)), EmptyBook(cfg.initialEquity));
  }

  /** The trades a run reports: those the scan closed, then one per position still open. */
  ghost function FinalTrades(cfg: Config, hist: History, data: MacroData): seq<Trade>
    requires ValidConfig(cfg)
  {
    ScannedPriced(cfg, hist, data);
    var b := Scanned(cfg, hist, data);
    b.trades + ForceTrades(cfg, hist, b.open)
  }

  method Run(cfg: Config, raw: History, data: MacroData) returns (ok: bool, b: Book, trades: seq<Trade>)
    requires ValidConfig(cfg)
    requires forall name :: name in data ==> ByDate(data[name])
    ensures ok <==> exists s :: 0 <= s < |raw| && |raw[s]| >= 110
    ensures ok ==> b == Scanned(cfg, Load(raw), data) && trades == FinalTrades(cfg, Load(raw), data)
    ensures !ok ==> trades == []
  {
    var hist := Load(raw);
    b, trades := EmptyBook(cfg.initialEquity), [];
    ok := exists s :: 0 <= s < |raw| && |raw[s]| >= MIN_CANDLES;
    if !ok {
      return;
    }
    b := ScanTimeline(cfg, hist, data);
    trades := CloseRemaining(cfg, hist, data, b);
  }

  method PrecomputeAll(cfg: Config, hist: History) returns (ind: seq<IndicatorSet>)
    requires ValidConfig(cfg)
    ensures |ind| == |hist|
    ensures forall s :: 0 <= s < |hist| ==> Precomputed(cfg, hist[s], ind[s])
  {
    ind := [];
    for sym := 0 to |hist|
      invariant |ind| == sym
      invariant forall s :: 0 <= s < sym ==> Precomputed(cfg, hist[s], ind[s])
    {
      var cells := Precompute(cfg, hist[sym]);
      ind := ind + [cells];
    }
  }

  lemma ScanNext(cfg: Config, b: Book, obs: seq<Observation>, i: nat)
    requires i < |obs|
    ensures Scan(cfg, b, obs[..i + 1]) == Step(cfg, Scan(cfg, b, obs[..i]), obs[i])
  {
    assert obs[..i + 1][..i] == obs[..i];
  }

  method ScanTimeline(cfg: Config, hist: History, data: MacroData) returns (b: Book)
    requires ValidConfig(cfg)
    requires forall name :: name in data ==> ByDate(data[name])
    ensures b == Scanned(cfg, hist, data)
  {
    var ind := PrecomputeAll(cfg, hist);
    var events := BuildTimeline(hist);
    TimelineValid(hist);
    ghost var obs := Observed(cfg, hist, data, events);
    b := EmptyBook(cfg.initialEquity);
    assert obs[..0] == [];
    for i := 0 to |events|
      invariant b == Scan(cfg, EmptyBook(cfg.initialEquity), obs[..i])
    {
      ScanNext(cfg, EmptyBook(cfg.initialEquity), obs, i);
      b := ScanEvent(cfg, hist, ind, data, events[i], b);
    }
    assert obs[..|events|] == obs;
  }

  method CloseRemaining(cfg: Config, hist: History, ghost data: MacroData, b: Book) returns (trades: seq<Trade>)
    requires ValidConfig(cfg) && b == Scanned(cfg, hist, data)
    ensures trades == FinalTrades(cfg, hist, data)
  {
    ScannedPriced(cfg, hist, data);
    trades := b.trades;
    for i := 0 to |b.open|
      invariant trades == b.trades + ForceTrades(cfg, hist, b.open)[..i]
    {
      trades := trades + [ForceTrade(cfg, hist, b.open[i])];
    }
  }
}
