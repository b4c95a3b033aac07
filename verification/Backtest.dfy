/**
 The signal-scan backtester. Symbols are their positions in the configured list; a symbol
 skipped for lack of bars has an empty history and so raises no event. Times are epoch
 milliseconds, dates are day numbers, and the regime classifier is a parameter.
 */
module Backtest {
  import opened Numerics
  import opened Indicators
  import Sorting

  datatype Side = Long | Short

  datatype Reason = TakeProfit | StopLoss | EndOfData

  datatype Op = Lt | Gt | Le | Ge | UnknownOp

  datatype Filter = Filter(signal: string, op: Op, value: real)

  datatype Signal = Signal(date: int, value: real)

  type MacroData = map<string, seq<Signal>>

  type History = seq<seq<Candle>>

  datatype Config = Config(
    initialEquity: real, fastPeriod: int, slowPeriod: int,
    slMult: real, tpMult: real, minAtrC: real, allowLong: bool, allowShort: bool,
    riskPct: real, maxPositions: int, maxExposure: real, takerFee: real,
    filters: seq<Filter>, regimeMults: map<string, real>,
    classify: (map<string, real>, bool) -> string)

  datatype Position = Position(
    sym: nat, side: Side, entryPrice: real, sl: real, tp: real,
    size: real, risk: real, entryTs: int, regime: string)

  datatype Trade = Trade(
    sym: nat, side: Side, entryTs: int, exitTs: int, entryPrice: real, exitPrice: real,
    size: real, rMultiple: real, pnl: real, regime: string, reason: Reason)

  const MIN_CANDLES := 110
  const VOLUME_WINDOW := 20
  const MS_PER_DAY := 86400000

  /** A period of 0 or -1 makes the moving average divide by zero, which ends the run; below that the source
      fills cells from the end by negative indices, which is not modelled. */
  predicate ValidConfig(cfg: Config) { cfg.fastPeriod >= 1 && cfg.slowPeriod >= 1 }

  // ---------- loading ----------

  function Load(raw: History): (hist: History)
    ensures |hist| == |raw|
    ensures forall s :: 0 <= s < |raw| ==> hist[s] == if |raw[s]| < MIN_CANDLES then [] else raw[s]
  {
    seq(|raw|, s requires 0 <= s < |raw| => if |raw[s]| < MIN_CANDLES then [] else raw[s])
  }

  // ---------- macro signals ----------

  /** The value of the last entry dated at or before the given day. */
  function LastAtOrBefore(series: seq<Signal>, date: int): Option<real> {
    if series == [] then None
    else if series[|series| - 1].date <= date then Some(series[|series| - 1].value)
    else LastAtOrBefore(series[..|series| - 1], date)
  }

  ghost predicate ByDate(series: seq<Signal>) {
    forall i, j :: 0 <= i < j < |series| ==> series[i].date <= series[j].date
  }

  lemma {:induction false} LastAtOrBeforeCut(series: seq<Signal>, date: int, cut: nat)
    requires cut <= |series|
    requires forall i :: cut <= i < |series| ==> series[i].date > date
    ensures LastAtOrBefore(series, date) == LastAtOrBefore(series[..cut], date)
    decreases |series|
  {
    if cut == |series| {
      assert series[..cut] == series;
    } else {
      var init := series[..|series| - 1];
      LastAtOrBeforeCut(init, date, cut);
      assert init[..cut] == series[..cut];
    }
  }

  /** The binary search finds exactly that entry in a series ordered by date. */
  method LookupSignal(series: seq<Signal>, date: int) returns (result: Option<real>)
    requires ByDate(series)
    ensures result == LastAtOrBefore(series, date)
  {
    result := None;
    var lo, hi := 0, |series| - 1;
    while lo <= hi
      invariant 0 <= lo <= hi + 1 <= |series|
      invariant forall i :: 0 <= i < lo ==> series[i].date <= date
      invariant forall i :: hi < i < |series| ==> series[i].date > date
      invariant result == if lo == 0 then None else Some(series[lo - 1].value)
    {
      var mid := (lo + hi) / 2;
      if series[mid].date <= date {
        result := Some(series[mid].value);
        lo := mid + 1;
      } else {
        hi := mid - 1;
      }
    }
    LastAtOrBeforeCut(series, date, lo);
  }

  function DateOf(ts: int): int { ts / MS_PER_DAY }

  function Series(data: MacroData, name: string): seq<Signal> {
    if name in data then data[name] else []
  }

  predicate Compare(op: Op, a: real, b: real) {
    match op
    case Lt => a < b
    case Gt => a > b
    case Le => a <= b
    case Ge => a >= b
    case UnknownOp => true
  }

  /** Missing data passes; otherwise the comparison must hold. */
  predicate FilterAllows(f: Filter, value: Option<real>) {
    value.Some? ==> Compare(f.op, value.value, f.value)
  }

  predicate MacroAllows(filters: seq<Filter>, date: int, data: MacroData) {
    forall i :: 0 <= i < |filters| ==>
      FilterAllows(filters[i], LastAtOrBefore(Series(data, filters[i].signal), date))
  }

  method CheckMacroFilters(filters: seq<Filter>, ts: int, data: MacroData) returns (ok: bool)
    requires forall name :: name in data ==> ByDate(data[name])
    ensures ok == MacroAllows(filters, DateOf(ts), data)
  {
    var date := DateOf(ts);
    for i := 0 to |filters|
      invariant MacroAllows(filters[..i], date, data)
    {
      var value := LookupSignal(Series(data, filters[i].signal), date);
      if !FilterAllows(filters[i], value) {
        return false;
      }
      assert filters[..i + 1] == filters[..i] + [filters[i]];
    }
    assert filters[..|filters|] == filters;
    return true;
  }

  /** What the classifier is shown for a bar: every known signal, and dominance one week earlier. */
  function LatestSignals(date: int, data: MacroData): map<string, real> {
    map name | name in data && LastAtOrBefore(data[name], date).Some? :: LastAtOrBefore(data[name], date).value
  }

  function KnownSignals(ts: int, data: MacroData): map<string, real> {
    var now := LatestSignals(DateOf(ts), data);
    var prev := LastAtOrBefore(Series(data, "btc_dominance"), DateOf(ts) - 7);
    if prev.Some? then now["btc_dominance_prev" := prev.value] else now
  }

  function RegimeLabel(cfg: Config, ts: int, data: MacroData): string {
    var signals := KnownSignals(ts, data);
    cfg.classify(signals, "agg_oi_change" in signals || "avg_funding" in signals)
  }

  // ---------- what one event lets the scan see ----------

  datatype Event = Event(ts: int, sym: nat, bar: nat)

  function EventTime(e: Event): real { e.ts as real }

  function BarEvents(sym: nat, candles: seq<Candle>): (events: seq<Event>)
    ensures |events| == |candles|
    ensures forall i :: 0 <= i < |events| ==> events[i] == Event(candles[i].ts, sym, i)
  {
    seq(|candles|, i requires 0 <= i < |candles| => Event(candles[i].ts, sym, i))
  }

  function EventsFrom(hist: History, sym: nat): seq<Event>
    requires sym <= |hist|
    decreases |hist| - sym
  {
    if sym == |hist| then [] else BarEvents(sym, hist[sym]) + EventsFrom(hist, sym + 1)
  }

  /** All bars of all symbols in one time order; equal times keep the symbols' order. */
  function Timeline(hist: History): seq<Event> {
    Sorting.SortBy(EventsFrom(hist, 0), EventTime)
  }

  predicate ValidEvent(hist: History, e: Event) {
    e.sym < |hist| && e.bar < |hist[e.sym]| && e.ts == hist[e.sym][e.bar].ts
  }

  datatype Observation = Observation(
    ts: int, sym: nat, warm: bool, bar: Candle, signal: Option<Side>,
    atr14: Option<real>, atr100: Option<real>, avgVol: real, macroOk: bool, regime: string)

  function Crossing(fNow: Option<real>, fPrev: Option<real>, sNow: Option<real>, sPrev: Option<real>): Option<Side> {
    if fNow.None? || fPrev.None? || sNow.None? || sPrev.None? then None
    else if fPrev.value <= sPrev.value && fNow.value > sNow.value then Some(Long)
    else if fPrev.value >= sPrev.value && fNow.value < sNow.value then Some(Short)
    else None
  }

  function Closes(candles: seq<Candle>): (c: seq<real>)
    ensures |c| == |candles|
    ensures forall i :: 0 <= i < |c| ==> c[i] == candles[i].close
  {
    seq(|candles|, i requires 0 <= i < |candles| => candles[i].close)
  }

  function EntrySignal(cfg: Config, candles: seq<Candle>, i: nat): Option<Side>
    requires ValidConfig(cfg) && i < |candles|
  {
    if i < 1 then None
    else
      var c := Closes(candles);
      Crossing(EmaAt(c, cfg.fastPeriod, i), EmaAt(c, cfg.fastPeriod, i - 1),
               EmaAt(c, cfg.slowPeriod, i), EmaAt(c, cfg.slowPeriod, i - 1))
  }

  function Warmup(cfg: Config): int { MaxInt(cfg.slowPeriod + 2, 101) }

  function LabelAt(cfg: Config, ts: int, data: MacroData): string {
    if cfg.regimeMults == map[] then "" else RegimeLabel(cfg, ts, data)
  }

  function Observe(cfg: Config, hist: History, data: MacroData, e: Event): Observation
    requires ValidConfig(cfg) && ValidEvent(hist, e)
  {
    var candles := hist[e.sym];
    Observation(e.ts, e.sym, e.bar >= Warmup(cfg), candles[e.bar],
                EntrySignal(cfg, candles, e.bar),
                AtrAt(candles, 14, e.bar), AtrAt(candles, 100, e.bar),
                AvgVolAt(candles, VOLUME_WINDOW, e.bar),
                MacroAllows(cfg.filters, DateOf(e.ts), data),
                LabelAt(cfg, e.ts, data))
  }

  // ---------- sizing ----------

  datatype AtrCategory = Unknown | TooVolatile | Volatile | NotVolatile | Normal

  function AtrCoefficient(atr14: real, atr100: real): (real, AtrCategory) {
    if atr14 == 0.0 then (0.0, Unknown)
    else
      var raw := atr100 / atr14;
      var c := Min(raw, 1.0);
      (c, if c < 0.2 then TooVolatile else if c < 0.6 then Volatile
          else if raw >= 1.0 then NotVolatile else Normal)
  }

  function Slippage(notional: real, avgVolume: real, feeRate: real): real {
    if avgVolume <= 0.0 then feeRate else Min(notional / avgVolume * 0.001, 0.005)
  }

  datatype Sizing = Sizing(size: real, slippage: real, risk: real)

  function SizePosition(entry: real, sl: real, equity: real, atrC: real, riskPct: real,
                        avgVolume: real, feeRate: real, mult: real): Sizing {
    if entry <= 0.0 || sl <= 0.0 || equity <= 0.0 then Sizing(0.0, 0.0, 0.0)
    else
      var slPct := Abs(sl - entry) / entry;
      if slPct == 0.0 then Sizing(0.0, 0.0, 0.0)
      else
        var risk := riskPct * equity * mult;
        var base := BaseSize(atrC, risk, slPct);
        var slip := Slippage(base, avgVolume, feeRate);
        Sizing(Slipped(base, slip), slip, risk)
  }

  function BaseSize(atrC: real, risk: real, slPct: real): real
    requires slPct != 0.0
  {
    atrC * risk / slPct
  }

  function Slipped(size: real, slippage: real): real { size * (1.0 - slippage) }

  // ---------- the scan ----------

  /** The admission of a position, with the equity and the exposure it was admitted against. */
  datatype Admission = Admission(pos: Position, equity: real, exposure: real, mult: real)

  /**
   The scan's variables, and its audit trail: `closed[i]` is the position behind
   `trades[i]`, and `admitted` lists every entry in order.
   */
  datatype Book = Book(equity: real, open: seq<Position>, trades: seq<Trade>,
                       closed: seq<Position>, admitted: seq<Admission>)

  function EmptyBook(equity: real): Book { Book(equity, [], [], [], []) }

  /** Where the symbol's open position is, or the number of open positions when it has none. */
  function Find(open: seq<Position>, sym: nat): (k: nat)
    ensures k <= |open|
    ensures k < |open| ==> open[k].sym == sym
    ensures forall i :: 0 <= i < k ==> open[i].sym != sym
  {
    if open == [] then 0 else if open[0].sym == sym then 0 else 1 + Find(open[1..], sym)
  }

  function Sizes(open: seq<Position>): (s: seq<real>)
    ensures |s| == |open|
    ensures forall i :: 0 <= i < |s| ==> s[i] == open[i].size
  {
    seq(|open|, i requires 0 <= i < |open| => open[i].size)
  }

  function Exposure(open: seq<Position>): real { Sum(Sizes(open)) }

  function ExitLevel(p: Position, bar: Candle): Option<(real, Reason)> {
    var hitSl := if p.side.Long? then bar.low <= p.sl else bar.high >= p.sl;
    var hitTp := if p.side.Long? then bar.high >= p.tp else bar.low <= p.tp;
    if hitSl && hitTp then
      var exit := if p.side.Long? && bar.close >= bar.open then p.tp else p.sl;
      Some((exit, if exit == p.tp then TakeProfit else StopLoss))
    else if hitTp then Some((p.tp, TakeProfit))
    else if hitSl then Some((p.sl, StopLoss))
    else None
  }

  function GrossPnl(side: Side, entry: real, exit: real, size: real): real {
    if entry <= 0.0 then 0.0
    else if side.Long? then (exit - entry) / entry * size
    else (entry - exit) / entry * size
  }

  function Fees(cfg: Config, size: real): real { 2.0 * cfg.takerFee * size }

  function NetPnl(cfg: Config, p: Position, exit: real): real {
    GrossPnl(p.side, p.entryPrice, exit, p.size) - Fees(cfg, p.size)
  }

  function RMultiple(net: real, risk: real): real {
    if risk != 0.0 then net / Abs(risk) else 0.0
  }

  function CloseTrade(cfg: Config, p: Position, exit: real, exitTs: int, reason: Reason): Trade {
    var net := NetPnl(cfg, p, exit);
    Trade(p.sym, p.side, p.entryTs, exitTs, p.entryPrice, exit, p.size,
          RoundTo(RMultiple(net, p.risk), FOUR_DIGITS), RoundTo(net, FOUR_DIGITS), p.regime, reason)
  }

  function ExitStep(cfg: Config, b: Book, o: Observation): Book {
    var k := Find(b.open, o.sym);
    if k == |b.open| then b
    else
      var p := b.open[k];
      var exit := ExitLevel(p, o.bar);
      if exit.None? then b
      else
        b.(equity := b.equity + NetPnl(cfg, p, exit.value.0),
           open := b.open[..k] + b.open[k + 1..],
           trades := b.trades + [CloseTrade(cfg, p, exit.value.0, o.ts, exit.value.1)],
           closed := b.closed + [p])
  }

  function RegimeMult(cfg: Config, regime: string): real {
    if regime in cfg.regimeMults then cfg.regimeMults[regime] else 1.0
  }

  function StopPrice(cfg: Config, side: Side, close: real, atr: real): real {
    if side.Long? then close - cfg.slMult * atr else close + cfg.slMult * atr
  }

  function TargetPrice(cfg: Config, side: Side, close: real, atr: real): real {
    if side.Long? then close + cfg.tpMult * atr else close - cfg.tpMult * atr
  }

  /** The signal, when every filter lets this bar open a position. */
  function Candidate(cfg: Config, o: Observation): Option<Side> {
    if o.signal.None? then None
    else if o.signal.value.Long? && !cfg.allowLong then None
    else if o.signal.value.Short? && !cfg.allowShort then None
    else if !o.macroOk then None
    else if o.atr14.None? || o.atr100.None? || o.atr14.value == 0.0 then None
    else if AtrCoefficient(o.atr14.value, o.atr100.value).0 < cfg.minAtrC then None
    else if o.avgVol <= 0.0 then None
    else o.signal
  }

  /** The position a candidate bar would open at the given equity. */
  function Proposal(cfg: Config, o: Observation, equity: real): Position
    requires Candidate(cfg, o).Some?
  {
    var side := o.signal.value;
    var sl := StopPrice(cfg, side, o.bar.close, o.atr14.value);
    var s := SizePosition(o.bar.close, sl, equity, AtrCoefficient(o.atr14.value, o.atr100.value).0,
                          cfg.riskPct, o.avgVol, cfg.takerFee, RegimeMult(cfg, o.regime));
    Position(o.sym, side, o.bar.close, sl, TargetPrice(cfg, side, o.bar.close, o.atr14.value),
             s.size, s.risk, o.ts, o.regime)
  }

  predicate Admissible(cfg: Config, p: Position, equity: real, exposure: real) {
    p.size > 0.0 && equity > 0.0 && (exposure + p.size) / equity <= cfg.maxExposure
  }

  function EntryStep(cfg: Config, b: Book, o: Observation): Book {
    if Find(b.open, o.sym) < |b.open| then b
    else if |b.open| >= cfg.maxPositions then b
    else if Candidate(cfg, o).None? then b
    else
      var p := Proposal(cfg, o, b.equity);
      var exposure := Exposure(b.open);
      if !Admissible(cfg, p, b.equity, exposure) then b
      else b.(open := b.open + [p],
              admitted := b.admitted + [Admission(p, b.equity, exposure, RegimeMult(cfg, o.regime))])
  }

  function Step(cfg: Config, b: Book, o: Observation): Book {
    if !o.warm then b else EntryStep(cfg, ExitStep(cfg, b, o), o)
  }

  function Scan(cfg: Config, b: Book, obs: seq<Observation>): Book {
    if obs == [] then b else Step(cfg, Scan(cfg, b, obs[..|obs| - 1]), obs[|obs| - 1])
  }

  ghost predicate ValidEvents(hist: History, events: seq<Event>) {
    forall i :: 0 <= i < |events| ==> ValidEvent(hist, events[i])
  }

  ghost function Observed(cfg: Config, hist: History, data: MacroData, events: seq<Event>): (obs: seq<Observation>)
    requires ValidConfig(cfg) && ValidEvents(hist, events)
    ensures |obs| == |events|
    ensures forall i :: 0 <= i < |obs| ==> obs[i] == Observe(cfg, hist, data, events[i])
  {
    seq(|events|, i requires 0 <= i < |events| => Observe(cfg, hist, data, events[i]))
  }

  lemma {:induction false} EventsFromValid(hist: History, sym: nat)
    requires sym <= |hist|
    ensures ValidEvents(hist, EventsFrom(hist, sym))
    decreases |hist| - sym
  {
    if sym < |hist| {
      EventsFromValid(hist, sym + 1);
    }
  }

  lemma TimelineValid(hist: History)
    ensures ValidEvents(hist, Timeline(hist))
  {
    EventsFromValid(hist, 0);
    Sorting.SortElements(EventsFrom(hist, 0), EventTime);
    forall i | 0 <= i < |Timeline(hist)| ensures ValidEvent(hist, Timeline(hist)[i]) {
      assert Timeline(hist)[i] in Timeline(hist);
    }
  }

  /** The book after the whole timeline, before open positions are closed by force. */
  ghost function Scanned(cfg: Config, hist: History, data: MacroData): Book
    requires ValidConfig(cfg)
  {
    TimelineValid(hist);
    Scan(cfg, EmptyBook(cfg.initialEquity), Observed(cfg, hist, data, Timeline(hist)))
  }

  function ForceTrade(cfg: Config, hist: History, p: Position): Trade
    requires p.sym < |hist| && hist[p.sym] != []
  {
    var last := hist[p.sym][|hist[p.sym]| - 1];
    CloseTrade(cfg, p, last.close, last.ts, EndOfData)
  }

  ghost predicate Priced(hist: History, open: seq<Position>) {
    forall i :: 0 <= i < |open| ==> open[i].sym < |hist| && hist[open[i].sym] != []
  }

  ghost function ForceTrades(cfg: Config, hist: History, open: seq<Position>): (t: seq<Trade>)
    requires Priced(hist, open)
    ensures |t| == |open|
    ensures forall i :: 0 <= i < |t| ==> t[i] == ForceTrade(cfg, hist, open[i])
  {
    seq(|open|, i requires 0 <= i < |open| => ForceTrade(cfg, hist, open[i]))
  }
}
