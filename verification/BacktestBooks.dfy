/**
 What every state of a scan keeps: positions are conserved, risk limits hold at each admission,
 a stop-loss costs at most the risked amount, and trades of one symbol never overlap.
 */
module BacktestBooks {
  import opened Numerics
  import opened Indicators
  import opened Backtest
  import opened BacktestRun
  import opened BacktestCausality
  import Sorting

  /** The exact result of a trade, before its four-decimal rounding. */
  function TradeNet(cfg: Config, t: Trade): real {
    GrossPnl(t.side, t.entryPrice, t.exitPrice, t.size) - Fees(cfg, t.size)
  }

  function Nets(cfg: Config, trades: seq<Trade>): (nets: seq<real>)
    ensures |nets| == |trades|
    ensures forall i :: 0 <= i < |nets| ==> nets[i] == TradeNet(cfg, trades[i])
  {
    seq(|trades|, i requires 0 <= i < |trades| => TradeNet(cfg, trades[i]))
  }

  function Positions(admitted: seq<Admission>): (ps: seq<Position>)
    ensures |ps| == |admitted|
    ensures forall i :: 0 <= i < |ps| ==> ps[i] == admitted[i].pos
  {
    seq(|admitted|, i requires 0 <= i < |admitted| => admitted[i].pos)
  }

  /** t is the closing of p: same opening data, the rounded exact result, and the level its reason names. */
  predicate Settles(cfg: Config, p: Position, t: Trade) {
    && t == CloseTrade(cfg, p, t.exitPrice, t.exitTs, t.reason)
    && (t.reason.StopLoss? ==> t.exitPrice == p.sl)
    && (t.reason.TakeProfit? ==> t.exitPrice == p.tp)
  }

  ghost predicate AllSettled(cfg: Config, closed: seq<Position>, trades: seq<Trade>) {
    |closed| == |trades| && forall i :: 0 <= i < |trades| ==> Settles(cfg, closed[i], trades[i])
  }

  // ---------- conservation of positions and of equity ----------

  ghost predicate Conserved(cfg: Config, b: Book) {
    && AllSettled(cfg, b.closed, b.trades)
    && multiset(Positions(b.admitted)) == multiset(b.closed) + multiset(b.open)
    && b.equity == cfg.initialEquity + Sum(Nets(cfg, b.trades))
  }

  lemma NetsAppend(cfg: Config, trades: seq<Trade>, t: Trade)
    ensures Sum(Nets(cfg, trades + [t])) == Sum(Nets(cfg, trades)) + TradeNet(cfg, t)
  {
    var all := Nets(cfg, trades + [t]);
    assert all[..|all| - 1] == Nets(cfg, trades);
  }

  lemma SettledAppend(cfg: Config, closed: seq<Position>, trades: seq<Trade>, p: Position, t: Trade)
    requires AllSettled(cfg, closed, trades) && Settles(cfg, p, t)
    ensures AllSettled(cfg, closed + [p], trades + [t])
  {
  }

  lemma BagMove(a: seq<Position>, closed: seq<Position>, k: nat)
    requires k < |a|
    ensures multiset(closed + [a[k]]) + multiset(a[..k] + a[k + 1..]) == multiset(closed) + multiset(a)
  {
    TakeApart(a, k);
    BagInsert(a[..k], a[k], a[k + 1..]);
    assert a[k] in multiset(a);
  }

  lemma ExitConserves(cfg: Config, b: Book, o: Observation)
    requires Conserved(cfg, b)
    ensures Conserved(cfg, ExitStep(cfg, b, o))
  {
    var k := Find(b.open, o.sym);
    if k < |b.open| && ExitLevel(b.open[k], o.bar).Some? {
      var p, t := b.open[k], ExitStep(cfg, b, o).trades[|b.trades|];
      NetsAppend(cfg, b.trades, t);
      SettledAppend(cfg, b.closed, b.trades, p, t);
      BagMove(b.open, b.closed, k);
    }
  }

  lemma EntryConserves(cfg: Config, b: Book, o: Observation)
    requires Conserved(cfg, b)
    ensures Conserved(cfg, EntryStep(cfg, b, o))
  {
    var b1 := EntryStep(cfg, b, o);
    if b1 != b {
      assert Positions(b1.admitted) == Positions(b.admitted) + [b1.open[|b.open|]];
    }
  }

  lemma {:induction false} ScanConserves(cfg: Config, obs: seq<Observation>)
    ensures Conserved(cfg, Scan(cfg, EmptyBook(cfg.initialEquity), obs))
  {
    if obs == [] {
      assert Nets(cfg, []) == [];
    } else {
      var n := |obs| - 1;
      ScanConserves(cfg, obs[..n]);
      var b := Scan(cfg, EmptyBook(cfg.initialEquity), obs[..n]);
      ExitConserves(cfg, b, obs[n]);
      EntryConserves(cfg, ExitStep(cfg, b, obs[n]), obs[n]);
    }
  }

  /** The positions behind a run's reported trades, in the trades' order. */
  ghost function FinalPositions(cfg: Config, hist: History, data: MacroData): seq<Position>
    requires ValidConfig(cfg)
  {
    Scanned(cfg, hist, data).closed + Scanned(cfg, hist, data).open
  }

  lemma ForcedSettle(cfg: Config, hist: History, b: Book)
    requires Priced(hist, b.open) && AllSettled(cfg, b.closed, b.trades)
    ensures AllSettled(cfg, b.closed + b.open, b.trades + ForceTrades(cfg, hist, b.open))
  {
    var ps, ts := b.closed + b.open, b.trades + ForceTrades(cfg, hist, b.open);
    forall i | 0 <= i < |ts| ensures Settles(cfg, ps[i], ts[i]) {
      if i < |b.trades| {
        assert Settles(cfg, b.closed[i], b.trades[i]);
      } else {
        assert ts[i] == ForceTrade(cfg, hist, b.open[i - |b.trades|]);
      }
    }
  }

  lemma SameCount<T>(s: seq<T>, t: seq<T>)
    requires multiset(s) == multiset(t)
    ensures |s| == |t|
  {
    assert |multiset(s)| == |s| && |multiset(t)| == |t|;
  }

  /** Every admitted position is reported as exactly one trade, and the loop's equity is exact. */
  lemma EveryAdmissionOneTrade(cfg: Config, hist: History, data: MacroData)
    requires ValidConfig(cfg)
    ensures multiset(FinalPositions(cfg, hist, data)) == multiset(Positions(Scanned(cfg, hist, data).admitted))
    ensures AllSettled(cfg, FinalPositions(cfg, hist, data), FinalTrades(cfg, hist, data))
    ensures |FinalTrades(cfg, hist, data)| == |Scanned(cfg, hist, data).admitted|
    ensures Scanned(cfg, hist, data).equity == cfg.initialEquity + Sum(Nets(cfg, Scanned(cfg, hist, data).trades))
  {
    TimelineValid(hist);
    ScanConserves(cfg, Observed(cfg, hist, data, Timeline(hist)));
    ScannedPriced(cfg, hist, data);
    var b := Scanned(cfg, hist, data);
    assert Conserved(cfg, b);
    ForcedSettle(cfg, hist, b);
    SameCount(b.closed + b.open, Positions(b.admitted));
  }

  // ---------- limits ----------

  ghost predicate OnePerSymbol(open: seq<Position>) {
    forall i, j :: 0 <= i < j < |open| ==> open[i].sym != open[j].sym
  }

  lemma StepLimits(cfg: Config, b: Book, o: Observation)
    requires OnePerSymbol(b.open) && |b.open| <= MaxInt(0, cfg.maxPositions)
    ensures OnePerSymbol(Step(cfg, b, o).open) && |Step(cfg, b, o).open| <= MaxInt(0, cfg.maxPositions)
  {
    var b1 := if o.warm then ExitStep(cfg, b, o) else b;
    assert OnePerSymbol(b1.open) && |b1.open| <= |b.open|;
  }

  /** In every state of a run at most max_position_count positions are open, one per symbol at most. */
  lemma {:induction false} PositionLimits(cfg: Config, obs: seq<Observation>)
    ensures OnePerSymbol(Scan(cfg, EmptyBook(cfg.initialEquity), obs).open)
    ensures |Scan(cfg, EmptyBook(cfg.initialEquity), obs).open| <= MaxInt(0, cfg.maxPositions)
  {
    if obs != [] {
      PositionLimits(cfg, obs[..|obs| - 1]);
      StepLimits(cfg, Scan(cfg, EmptyBook(cfg.initialEquity), obs[..|obs| - 1]), obs[|obs| - 1]);
    }
  }

  lemma ExposureAppend(open: seq<Position>, p: Position)
    ensures Exposure(open + [p]) == Exposure(open) + p.size
  {
    var all := Sizes(open + [p]);
    assert all[..|all| - 1] == Sizes(open);
  }

  lemma QuotientAtMost(a: real, b: real, c: real)
    requires b > 0.0 && a / b <= c
    ensures a <= c * b
  {
    ProductMonotone(a / b, c, b);
    assert a / b * b == a;
  }

  /** A step that admits a position leaves the whole exposure within max_exposure of positive equity. */
  lemma AdmissionWithinExposure(cfg: Config, b: Book, o: Observation)
    requires |Step(cfg, b, o).admitted| > |b.admitted|
    ensures var r := Step(cfg, b, o);
      r.equity > 0.0 && Exposure(r.open) <= cfg.maxExposure * r.equity && r.open[|r.open| - 1].size > 0.0
  {
    var b1 := ExitStep(cfg, b, o);
    var p := Proposal(cfg, o, b1.equity);
    ExposureAppend(b1.open, p);
    QuotientAtMost(Exposure(b1.open) + p.size, b1.equity, cfg.maxExposure);
  }

  // ---------- the risked amount ----------

  predicate SoundRanges(o: Observation) {
    (o.atr14.Some? ==> o.atr14.value >= 0.0) && (o.atr100.Some? ==> o.atr100.value >= 0.0)
  }

  lemma ObserveSound(cfg: Config, hist: History, data: MacroData, e: Event)
    requires ValidConfig(cfg) && ValidEvent(hist, e)
    ensures SoundRanges(Observe(cfg, hist, data, e))
  {
    if e.bar >= 14 { AtrNonNegative(hist[e.sym], 14, e.bar); }
    if e.bar >= 100 { AtrNonNegative(hist[e.sym], 100, e.bar); }
  }

  /** The sizing rule: moving from entry to stop costs at most the risked amount. */
  ghost predicate RiskBounded(cfg: Config, a: Admission) {
    && a.pos.risk == cfg.riskPct * a.equity * a.mult
    && a.pos.risk > 0.0 && a.pos.size > 0.0 && a.pos.entryPrice > 0.0
    && GrossPnl(a.pos.side, a.pos.entryPrice, a.pos.sl, a.pos.size) >= -a.pos.risk
  }

  lemma QuotientNonNegative(a: real, b: real)
    requires a >= 0.0 && b > 0.0
    ensures a / b >= 0.0
  {
    DivideMonotone(0.0, a, b);
  }

  lemma PositiveFactor(a: real, b: real)
    requires a * b > 0.0 && b > 0.0
    ensures a > 0.0
  {
    if a <= 0.0 { ProductMonotone(a, 0.0, b); }
  }

  lemma PositiveProduct(a: real, b: real)
    requires a * b > 0.0 && a >= 0.0
    ensures a > 0.0 && b > 0.0
  {
    if b <= 0.0 { ProductNonNegative(a, -b); }
  }

  lemma BaseWithinRisk(atrC: real, risk: real, slPct: real, slip: real)
    requires 0.0 <= atrC <= 1.0 && slPct > 0.0 && slip <= 0.005
    requires Slipped(BaseSize(atrC, risk, slPct), slip) > 0.0
    ensures BaseSize(atrC, risk, slPct) > 0.0 && risk > 0.0
    ensures slPct * BaseSize(atrC, risk, slPct) <= risk
  {
    var base := BaseSize(atrC, risk, slPct);
    PositiveFactor(base, 1.0 - slip);
    Strict(base, slPct);
    assert base * slPct == atrC * risk;
    PositiveProduct(atrC, risk);
    ProductMonotone(atrC, 1.0, risk);
  }

  lemma SlippedSize(base: real, slip: real, slPct: real)
    requires base > 0.0 && slip >= 0.0 && slPct >= 0.0
    ensures slPct * Slipped(base, slip) <= slPct * base
  {
    ProductMonotone(1.0 - slip, 1.0, base);
    ProductMonotone(Slipped(base, slip), base, slPct);
  }

  lemma SlippedWithinRisk(atrC: real, risk: real, slPct: real, avgVolume: real, feeRate: real)
    requires 0.0 <= atrC <= 1.0 && avgVolume > 0.0 && slPct > 0.0
    requires var base := BaseSize(atrC, risk, slPct); Slipped(base, Slippage(base, avgVolume, feeRate)) > 0.0
    ensures risk > 0.0
    ensures var base := BaseSize(atrC, risk, slPct); slPct * Slipped(base, Slippage(base, avgVolume, feeRate)) <= risk
  {
    var base := BaseSize(atrC, risk, slPct);
    var slip := Slippage(base, avgVolume, feeRate);
    BaseWithinRisk(atrC, risk, slPct, slip);
    QuotientNonNegative(base, avgVolume);
    SlippedSize(base, slip, slPct);
  }

  /** A positive size is at most the unslipped size, and the stop distance times it at most the risk. */
  lemma SizeWithinRisk(entry: real, sl: real, equity: real, atrC: real, riskPct: real, avgVolume: real,
                       feeRate: real, mult: real)
    requires 0.0 <= atrC <= 1.0 && avgVolume > 0.0
    requires SizePosition(entry, sl, equity, atrC, riskPct, avgVolume, feeRate, mult).size > 0.0
    ensures entry > 0.0
    ensures var s := SizePosition(entry, sl, equity, atrC, riskPct, avgVolume, feeRate, mult);
      s.risk == riskPct * equity * mult && s.risk > 0.0 && Abs(sl - entry) / entry * s.size <= s.risk
  {
    QuotientNonNegative(Abs(sl - entry), entry);
    SlippedWithinRisk(atrC, riskPct * equity * mult, Abs(sl - entry) / entry, avgVolume, feeRate);
  }

  lemma Strict(a: real, b: real)
    requires a > 0.0 && b > 0.0
    ensures a * b > 0.0
  {
  }

  lemma StopLoss(side: Side, entry: real, sl: real, size: real)
    requires entry > 0.0 && size > 0.0
    ensures GrossPnl(side, entry, sl, size) >= -(Abs(sl - entry) / entry * size)
  {
    var d := Abs(sl - entry);
    DivideMonotone(-d, sl - entry, entry);
    DivideMonotone(sl - entry, d, entry);
    assert -d / entry == -(d / entry) && (entry - sl) / entry == -((sl - entry) / entry);
    ProductMonotone(-(d / entry), (sl - entry) / entry, size);
    ProductMonotone(-(d / entry), (entry - sl) / entry, size);
    assert -(d / entry) * size == -(d / entry * size);
  }

  lemma ProposalRiskBounded(cfg: Config, o: Observation, equity: real, exposure: real)
    requires SoundRanges(o) && Candidate(cfg, o).Some?
    requires Admissible(cfg, Proposal(cfg, o, equity), equity, exposure)
    ensures RiskBounded(cfg, Admission(Proposal(cfg, o, equity), equity, exposure, RegimeMult(cfg, o.regime)))
  {
    var p := Proposal(cfg, o, equity);
    var c, mult := AtrCoefficient(o.atr14.value, o.atr100.value).0, RegimeMult(cfg, o.regime);
    CoefficientInRange(o.atr14.value, o.atr100.value);
    CandidateHasVolume(cfg, o);
    SizedRiskBounded(cfg, Admission(p, equity, exposure, mult), c, o.avgVol);
  }

  lemma CoefficientInRange(atr14: real, atr100: real)
    requires atr14 >= 0.0 && atr100 >= 0.0
    ensures 0.0 <= AtrCoefficient(atr14, atr100).0 <= 1.0
  {
    if atr14 > 0.0 { QuotientNonNegative(atr100, atr14); }
  }

  lemma CandidateHasVolume(cfg: Config, o: Observation)
    requires Candidate(cfg, o).Some?
    ensures o.avgVol > 0.0
  {
  }

  lemma SizedRiskBounded(cfg: Config, a: Admission, c: real, avgVolume: real)
    requires 0.0 <= c <= 1.0 && avgVolume > 0.0 && a.pos.size > 0.0
    requires var p := a.pos;
      var s := SizePosition(p.entryPrice, p.sl, a.equity, c, cfg.riskPct, avgVolume, cfg.takerFee, a.mult);
      p.size == s.size && p.risk == s.risk
    ensures RiskBounded(cfg, a)
  {
    var p := a.pos;
    SizeWithinRisk(p.entryPrice, p.sl, a.equity, c, cfg.riskPct, avgVolume, cfg.takerFee, a.mult);
    StopLoss(p.side, p.entryPrice, p.sl, p.size);
  }

  lemma {:induction false} AdmissionsRiskBounded(cfg: Config, obs: seq<Observation>)
    requires forall i :: 0 <= i < |obs| ==> SoundRanges(obs[i])
    ensures forall a :: a in Scan(cfg, EmptyBook(cfg.initialEquity), obs).admitted ==> RiskBounded(cfg, a)
  {
    if obs != [] {
      var n := |obs| - 1;
      AdmissionsRiskBounded(cfg, obs[..n]);
      StepRiskBounded(cfg, Scan(cfg, EmptyBook(cfg.initialEquity), obs[..n]), obs[n]);
    }
  }

  lemma StepRiskBounded(cfg: Config, b: Book, o: Observation)
    requires SoundRanges(o) && forall a :: a in b.admitted ==> RiskBounded(cfg, a)
    ensures forall a :: a in Step(cfg, b, o).admitted ==> RiskBounded(cfg, a)
  {
    var b1 := ExitStep(cfg, b, o);
    var r := Step(cfg, b, o);
    if r.admitted != b.admitted {
      ProposalRiskBounded(cfg, o, b1.equity, Exposure(b1.open));
      forall a | a in r.admitted ensures RiskBounded(cfg, a) {
        assert a in b.admitted || a == r.admitted[|b.admitted|];
      }
    }
  }

  lemma RunRiskBounded(cfg: Config, hist: History, data: MacroData)
    requires ValidConfig(cfg)
    ensures forall a :: a in Scanned(cfg, hist, data).admitted ==> RiskBounded(cfg, a)
  {
    TimelineValid(hist);
    var obs := Observed(cfg, hist, data, Timeline(hist));
    forall k | 0 <= k < |obs| ensures SoundRanges(obs[k]) { ObserveSound(cfg, hist, data, Timeline(hist)[k]); }
    AdmissionsRiskBounded(cfg, obs);
  }

  lemma AdmissionOf(admitted: seq<Admission>, ps: seq<Position>, i: nat) returns (a: Admission)
    requires multiset(ps) == multiset(Positions(admitted)) && i < |ps|
    ensures a in admitted && a.pos == ps[i]
  {
    assert ps[i] in multiset(ps);
    assert ps[i] in Positions(admitted);
    var k :| 0 <= k < |admitted| && Positions(admitted)[k] == ps[i];
    a := admitted[k];
  }

  lemma RAtLeast(gross: real, fees: real, risk: real)
    requires risk > 0.0 && gross >= -risk
    ensures RMultiple(gross - fees, risk) >= -1.0 - fees / risk
  {
    DivideMonotone(-risk, gross, risk);
    DivideIs(-risk, risk, -1.0);
    DivideMinus(gross, fees, risk);
  }

  /** Every stop-loss trade loses at most what its admission risked, so R is at least -1 less the fees' share. */
  lemma StopLossBounded(cfg: Config, hist: History, data: MacroData, i: nat) returns (a: Admission)
    requires ValidConfig(cfg) && i < |FinalTrades(cfg, hist, data)|
    requires FinalTrades(cfg, hist, data)[i].reason.StopLoss?
    ensures a in Scanned(cfg, hist, data).admitted && Settles(cfg, a.pos, FinalTrades(cfg, hist, data)[i])
    ensures a.pos.risk == cfg.riskPct * a.equity * a.mult && a.pos.risk > 0.0
    ensures var t := FinalTrades(cfg, hist, data)[i];
      && GrossPnl(t.side, t.entryPrice, t.exitPrice, t.size) >= -a.pos.risk
      && RMultiple(TradeNet(cfg, t), a.pos.risk) >= -1.0 - Fees(cfg, t.size) / a.pos.risk
  {
    EveryAdmissionOneTrade(cfg, hist, data);
    RunRiskBounded(cfg, hist, data);
    var ps, t := FinalPositions(cfg, hist, data), FinalTrades(cfg, hist, data)[i];
    a := AdmissionOf(Scanned(cfg, hist, data).admitted, ps, i);
    SettledLoss(cfg, a, t);
  }

  lemma SettledLoss(cfg: Config, a: Admission, t: Trade)
    requires RiskBounded(cfg, a) && Settles(cfg, a.pos, t) && t.reason.StopLoss?
    ensures GrossPnl(t.side, t.entryPrice, t.exitPrice, t.size) >= -a.pos.risk
    ensures RMultiple(TradeNet(cfg, t), a.pos.risk) >= -1.0 - Fees(cfg, t.size) / a.pos.risk
  {
    RAtLeast(GrossPnl(t.side, t.entryPrice, t.exitPrice, t.size), Fees(cfg, t.size), a.pos.risk);
  }

  // ---------- trades of one symbol do not overlap ----------

  ghost predicate TimeOrdered(obs: seq<Observation>) {
    forall i, j :: 0 <= i < j < |obs| ==>
      obs[i].ts <= obs[j].ts && (obs[i].sym == obs[j].sym ==> obs[i].ts < obs[j].ts)
  }

  ghost predicate NoOverlap(trades: seq<Trade>) {
    && (forall i :: 0 <= i < |trades| ==> trades[i].entryTs <= trades[i].exitTs)
    && forall i, j :: 0 <= i < j < |trades| && trades[i].sym == trades[j].sym ==> trades[i].exitTs <= trades[j].entryTs
  }

  ghost predicate Seen(seen: seq<Observation>, sym: nat, ts: int) {
    exists k :: 0 <= k < |seen| && seen[k].sym == sym && seen[k].ts == ts
  }

  ghost predicate TimesHold(b: Book, seen: seq<Observation>) {
    && NoOverlap(b.trades)
    && OnePerSymbol(b.open)
    && (forall p :: p in b.open ==> Seen(seen, p.sym, p.entryTs))
    && (forall i :: 0 <= i < |b.trades| ==> Seen(seen, b.trades[i].sym, b.trades[i].exitTs))
    && forall i, p :: 0 <= i < |b.trades| && p in b.open && b.trades[i].sym == p.sym ==> b.trades[i].exitTs <= p.entryTs
  }

  lemma SeenGrows(seen: seq<Observation>, o: Observation, sym: nat, ts: int)
    requires Seen(seen, sym, ts)
    ensures Seen(seen + [o], sym, ts)
    ensures TimeOrdered(seen + [o]) ==> ts <= o.ts && (sym == o.sym ==> ts < o.ts)
  {
    var all := seen + [o];
    var k :| 0 <= k < |seen| && seen[k].sym == sym && seen[k].ts == ts;
    assert all[k] == seen[k] && all[|seen|] == o;
  }

  lemma SeenLast(seen: seq<Observation>, o: Observation)
    ensures Seen(seen + [o], o.sym, o.ts)
  {
    assert (seen + [o])[|seen|] == o;
  }

  lemma WeakenTimes(b: Book, seen: seq<Observation>, o: Observation)
    requires TimesHold(b, seen)
    ensures TimesHold(b, seen + [o])
  {
    forall p | p in b.open ensures Seen(seen + [o], p.sym, p.entryTs) { SeenGrows(seen, o, p.sym, p.entryTs); }
    forall i | 0 <= i < |b.trades| ensures Seen(seen + [o], b.trades[i].sym, b.trades[i].exitTs) {
      SeenGrows(seen, o, b.trades[i].sym, b.trades[i].exitTs);
    }
  }

  lemma ExitTimes(cfg: Config, b: Book, seen: seq<Observation>, o: Observation)
    requires TimesHold(b, seen) && TimeOrdered(seen + [o])
    ensures TimesHold(ExitStep(cfg, b, o), seen + [o])
  {
    WeakenTimes(b, seen, o);
    var k := Find(b.open, o.sym);
    if k < |b.open| && ExitLevel(b.open[k], o.bar).Some? {
      var p, r := b.open[k], ExitStep(cfg, b, o);
      assert p in b.open;
      SeenGrows(seen, o, p.sym, p.entryTs);
      SeenLast(seen, o);
      var t := r.trades[|b.trades|];
      assert r.trades == b.trades + [t] && t.sym == p.sym && t.entryTs == p.entryTs && t.exitTs == o.ts;
      assert r.open == b.open[..k] + b.open[k + 1..];
      LeftOpen(b.open, k);
    }
  }

  lemma LeftOpen(open: seq<Position>, k: nat)
    requires k < |open| && OnePerSymbol(open)
    ensures OnePerSymbol(open[..k] + open[k + 1..])
    ensures forall q :: q in open[..k] + open[k + 1..] ==> q in open && q.sym != open[k].sym
  {
  }

  lemma EntryTimes(cfg: Config, b: Book, seen: seq<Observation>, o: Observation)
    requires TimesHold(b, seen + [o]) && TimeOrdered(seen + [o])
    ensures TimesHold(EntryStep(cfg, b, o), seen + [o])
  {
    var r := EntryStep(cfg, b, o);
    if r != b {
      var p := r.open[|b.open|];
      SeenLast(seen, o);
      assert r.open == b.open + [p] && p.sym == o.sym && p.entryTs == o.ts && r.trades == b.trades;
      forall i | 0 <= i < |b.trades| ensures b.trades[i].exitTs <= o.ts {
        SeenBefore(seen, o, b.trades[i].sym, b.trades[i].exitTs);
      }
      assert forall q :: q in r.open ==> q in b.open || q == p;
    }
  }

  lemma SeenBefore(seen: seq<Observation>, o: Observation, sym: nat, ts: int)
    requires Seen(seen + [o], sym, ts) && TimeOrdered(seen + [o])
    ensures ts <= o.ts
  {
    var all := seen + [o];
    var k :| 0 <= k < |all| && all[k].sym == sym && all[k].ts == ts;
    assert all[|seen|] == o;
  }

  lemma {:induction false} ScanTimes(cfg: Config, obs: seq<Observation>)
    requires TimeOrdered(obs)
    ensures TimesHold(Scan(cfg, EmptyBook(cfg.initialEquity), obs), obs)
  {
    if obs != [] {
      var n := |obs| - 1;
      ScanTimes(cfg, obs[..n]);
      var b := Scan(cfg, EmptyBook(cfg.initialEquity), obs[..n]);
      assert obs == obs[..n] + [obs[n]];
      ExitTimes(cfg, b, obs[..n], obs[n]);
      if obs[n].warm {
        EntryTimes(cfg, ExitStep(cfg, b, obs[n]), obs[..n], obs[n]);
      } else {
        WeakenTimes(b, obs[..n], obs[n]);
      }
    }
  }

  /** The stored candles: each series strictly ascending in time, as the table's key and ordering give. */
  ghost predicate Ascending(hist: History) {
    forall s, i, j :: 0 <= s < |hist| && 0 <= i < j < |hist[s]| ==> hist[s][i].ts < hist[s][j].ts
  }

  lemma {:induction false} EventsDistinct(hist: History, sym: nat)
    requires sym <= |hist|
    ensures forall e :: multiset(EventsFrom(hist, sym))[e] <= 1 && (e in EventsFrom(hist, sym) ==> e.sym >= sym)
    decreases |hist| - sym
  {
    if sym < |hist| {
      EventsDistinct(hist, sym + 1);
      var bars, rest := BarEvents(sym, hist[sym]), EventsFrom(hist, sym + 1);
      forall e: Event ensures multiset(bars)[e] <= 1 { CountDistinct(bars, e); }
      forall e: Event ensures multiset(bars + rest)[e] <= 1 && (e in bars + rest ==> e.sym >= sym) {
        assert multiset(bars + rest)[e] == multiset(bars)[e] + multiset(rest)[e];
        assert e in multiset(bars) <==> e in bars;
        assert e in multiset(rest) <==> e in rest;
      }
    }
  }

  lemma {:induction false} CountDistinct(s: seq<Event>, e: Event)
    requires forall i, j :: 0 <= i < j < |s| ==> s[i] != s[j]
    ensures multiset(s)[e] <= 1
  {
    if s != [] {
      var n := |s| - 1;
      CountDistinct(s[..n], e);
      assert s == s[..n] + [s[n]];
      if e == s[n] {
        assert e !in s[..n];
        assert multiset(s[..n])[e] == 0;
      }
    }
  }

  lemma TimelineOrdered(cfg: Config, hist: History, data: MacroData)
    requires ValidConfig(cfg) && Ascending(hist)
    ensures ValidEvents(hist, Timeline(hist))
    ensures TimeOrdered(Observed(cfg, hist, data, Timeline(hist)))
  {
    TimelineValid(hist);
    TimelineSorted(hist);
    EventsDistinct(hist, 0);
    Sorting.SortByIsSort(EventsFrom(hist, 0), EventTime);
    EventsOrdered(hist, Timeline(hist));
  }

  lemma EventsOrdered(hist: History, t: seq<Event>)
    requires Ascending(hist) && ValidEvents(hist, t) && Sorting.Sorted(t, EventTime)
    requires forall e: Event :: multiset(t)[e] <= 1
    ensures forall i, j :: 0 <= i < j < |t| ==> t[i].ts <= t[j].ts && (t[i].sym == t[j].sym ==> t[i].ts < t[j].ts)
  {
    forall i, j | 0 <= i < j < |t| ensures t[i].ts <= t[j].ts && (t[i].sym == t[j].sym ==> t[i].ts < t[j].ts) {
      assert EventTime(t[i]) <= EventTime(t[j]);
      if t[i].sym == t[j].sym && t[i].ts == t[j].ts {
        assert ValidEvent(hist, t[i]) && ValidEvent(hist, t[j]);
        Sorting.TwiceCounted(t, i, j);
      }
    }
  }

  lemma ForcedTimes(cfg: Config, hist: History, b: Book)
    requires Priced(hist, b.open) && NoOverlap(b.trades) && OnePerSymbol(b.open)
    requires forall p :: p in b.open ==> p.entryTs <= hist[p.sym][|hist[p.sym]| - 1].ts
    requires forall i, p :: 0 <= i < |b.trades| && p in b.open && b.trades[i].sym == p.sym ==>
      b.trades[i].exitTs <= p.entryTs
    ensures NoOverlap(b.trades + ForceTrades(cfg, hist, b.open))
  {
    var n, ts := |b.trades|, b.trades + ForceTrades(cfg, hist, b.open);
    forall k | n <= k < |ts|
      ensures ts[k] == ForceTrade(cfg, hist, b.open[k - n]) && b.open[k - n] in b.open && ts[k].entryTs <= ts[k].exitTs
    {
    }
    forall i, j | 0 <= i < j < |ts| && ts[i].sym == ts[j].sym ensures ts[i].exitTs <= ts[j].entryTs {
      if j >= n {
        assert ts[j].sym == b.open[j - n].sym;
      }
    }
  }

  /** On any one symbol a trade is entered no earlier than the previous one was left. */
  lemma TradesNeverOverlap(cfg: Config, hist: History, data: MacroData)
    requires ValidConfig(cfg) && Ascending(hist)
    ensures NoOverlap(FinalTrades(cfg, hist, data))
  {
    TimelineOrdered(cfg, hist, data);
    var t := Timeline(hist);
    var obs := Observed(cfg, hist, data, t);
    ScanTimes(cfg, obs);
    ScannedPriced(cfg, hist, data);
    var b := Scanned(cfg, hist, data);
    forall p | p in b.open
      ensures p.sym < |hist| && hist[p.sym] != [] && p.entryTs <= hist[p.sym][|hist[p.sym]| - 1].ts
    {
      SeenInHistory(cfg, hist, data, t, p.sym, p.entryTs);
    }
    ForcedTimes(cfg, hist, b);
  }

  lemma SeenInHistory(cfg: Config, hist: History, data: MacroData, events: seq<Event>, sym: nat, ts: int)
    requires ValidConfig(cfg) && Ascending(hist) && ValidEvents(hist, events)
    requires Seen(Observed(cfg, hist, data, events), sym, ts)
    ensures sym < |hist| && hist[sym] != [] && ts <= hist[sym][|hist[sym]| - 1].ts
  {
    var obs := Observed(cfg, hist, data, events);
    var k :| 0 <= k < |obs| && obs[k].sym == sym && obs[k].ts == ts;
    assert ValidEvent(hist, events[k]);
  }
}
