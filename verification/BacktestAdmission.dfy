/**
 Where look-ahead can enter: a symbol with fewer than 110 candles is skipped, so appending
 bars can admit it and let its old bars trade. For one fixed strategy, the lengths of the
 histories decide exactly whether some data shows the effect.
 */
module BacktestAdmission {
  import opened Numerics
  import opened Indicators
  import opened Backtest
  import opened BacktestCausality
  import Sorting

  const PROBE := Config(10000.0, 1, 2, 1.5, 3.0, 0.0, true, true, 0.01, 5, 3.0, 0.0005, [], map[],
                        (signals: map<string, real>, full: bool) => "")

  /** Every pair of data sets with these lengths agrees at the end of the shorter one. */
  ghost predicate NeverLooksAhead(cfg: Config, lens: seq<nat>, lens': seq<nat>)
    requires ValidConfig(cfg)
  {
    forall raw: History, raw': History, data: MacroData, data': MacroData, end: int ::
      Lengths(raw) == lens && Lengths(raw') == lens'
      && Continues(raw, raw', end) && ContinuesMacro(data, data', DateOf(end))
      ==> BookAt(cfg, Load(raw'), data', end) == Scanned(cfg, Load(raw), data)
  }

  // ---------- the data that shows the effect: flat prices, and one jump on the last old bar ----------

  function Bar(cut: nat, jumps: bool, i: nat): Candle {
    var ts := if i < cut then i - cut else i - cut + 1;
    if jumps && i == cut - 1 then Candle(ts, 100.0, 101.5, 99.5, 101.0, 1000000.0)
    else Candle(ts, 100.0, 100.5, 99.5, 100.0, 1000000.0)
  }

  function Bars(cut: nat, jumps: bool, n: nat): (bars: seq<Candle>)
    ensures |bars| == n
    ensures forall i :: 0 <= i < n ==> bars[i] == Bar(cut, jumps, i)
  {
    seq(n, i requires 0 <= i < n => Bar(cut, jumps, i))
  }

  function Data(cut: seq<nat>, lens: seq<nat>, at: nat): (raw: History)
    requires |cut| == |lens|
    ensures |raw| == |lens|
    ensures forall s :: 0 <= s < |lens| ==> raw[s] == Bars(cut[s], s == at, lens[s])
  {
    seq(|lens|, s requires 0 <= s < |lens| => Bars(cut[s], s == at, lens[s]))
  }

  lemma DataContinues(lens: seq<nat>, lens': seq<nat>, at: nat)
    requires |lens| == |lens'| && forall s :: 0 <= s < |lens| ==> lens[s] <= lens'[s]
    ensures Lengths(Data(lens, lens, at)) == lens && Lengths(Data(lens, lens', at)) == lens'
    ensures Continues(Data(lens, lens, at), Data(lens, lens', at), 0)
  {
    var raw, raw' := Data(lens, lens, at), Data(lens, lens', at);
    forall s | 0 <= s < |lens| ensures raw[s] <= raw'[s] && |raw[s]| == lens[s] && |raw'[s]| == lens'[s] {
      assert raw'[s][..lens[s]] == raw[s];
    }
  }

  lemma FlatEma(bars: seq<Candle>, period: int, i: nat)
    requires 1 <= period && i < |bars| && forall j :: 0 <= j <= i ==> bars[j].close == 100.0
    ensures EmaAt(Closes(bars), period, i) == if i < period - 1 then None else Some(100.0)
  {
    if i >= period - 1 {
      EmaWithinRange(Closes(bars), period, i, 100.0, 100.0);
    }
  }

  lemma FlatNoSignal(bars: seq<Candle>, i: nat)
    requires i < |bars| && forall j :: 0 <= j <= i ==> bars[j].close == 100.0
    ensures EntrySignal(PROBE, bars, i).None?
  {
    if i >= 1 {
      FlatEma(bars, 1, i);
      FlatEma(bars, 1, i - 1);
      FlatEma(bars, 2, i);
      FlatEma(bars, 2, i - 1);
    }
  }

  lemma JumpSignal(bars: seq<Candle>, j: nat)
    requires 2 <= j < |bars| && bars[j].close == 101.0 && forall i :: 0 <= i < j ==> bars[i].close == 100.0
    ensures EntrySignal(PROBE, bars, j) == Some(Long)
  {
    FlatEma(bars, 1, j - 1);
    FlatEma(bars, 2, j - 1);
    var c := Closes(bars);
    assert EmaValue(c, 1, j) == Smooth(100.0, 101.0, 2.0 / 2.0);
    assert EmaValue(c, 2, j) == Smooth(100.0, 101.0, 2.0 / 3.0);
  }

  lemma JumpRanges(n: nat, j: nat)
    requires 101 <= j < n
    ensures AtrAt(Bars(j + 1, true, n), 14, j).Some? && 1.0 <= AtrAt(Bars(j + 1, true, n), 14, j).value <= 2.0
    ensures AtrAt(Bars(j + 1, true, n), 100, j).Some? && 1.0 <= AtrAt(Bars(j + 1, true, n), 100, j).value <= 2.0
    ensures AvgVolAt(Bars(j + 1, true, n), VOLUME_WINDOW, j) == 100000000.0
  {
    var bars := Bars(j + 1, true, n);
    forall i | 1 <= i <= j ensures 1.0 <= TrueRangeAt(bars, i) <= 2.0 {
      assert bars[i] == Bar(j + 1, true, i) && bars[i - 1] == Bar(j + 1, true, i - 1);
    }
    AtrWithinRange(bars, 14, j, 1.0, 2.0);
    AtrWithinRange(bars, 100, j, 1.0, 2.0);
    var window := Turnover(bars)[j - 20..j];
    forall i | 0 <= i < 20 ensures window[i] == 100000000.0 {
      assert bars[j - 20 + i] == Bar(j + 1, true, j - 20 + i);
    }
    MeanOf(window, 20, 100000000.0, 100000000.0);
  }

  /** With the average true ranges between 1 and 2, the jump bar opens a position of affordable size. */
  lemma JumpAdmissible(o: Observation)
    requires Candidate(PROBE, o) == Some(Long)
    requires 1.0 <= o.atr14.value <= 2.0 && 1.0 <= o.atr100.value <= 2.0
    requires o.bar.close == 101.0 && o.avgVol == 100000000.0 && o.regime == ""
    ensures Admissible(PROBE, Proposal(PROBE, o, 10000.0), 10000.0, 0.0)
  {
    var atr := o.atr14.value;
    var c := AtrCoefficient(atr, o.atr100.value).0;
    CoefficientBounds(atr, o.atr100.value);
    var sl := 101.0 - 1.5 * atr;
    var slPct := Abs(sl - 101.0) / 101.0;
    assert 1.5 / 101.0 <= slPct <= 3.0 / 101.0;
    var base := BaseSize(c, 100.0, slPct);
    QuotientBounds(c * 100.0, slPct);
    var slip := Slippage(base, 100000000.0, 0.0005);
    assert 0.0 <= slip <= 0.005;
    var size := Slipped(base, slip);
    SlippedBetween(base, slip);
    assert 0.01 * 10000.0 * 1.0 == 100.0;
    assert SizePosition(101.0, sl, 10000.0, c, 0.01, 100000000.0, 0.0005, 1.0).size == size;
  }

  lemma SlippedBetween(base: real, slip: real)
    requires base > 0.0 && 0.0 <= slip <= 0.005
    ensures 0.0 < Slipped(base, slip) <= base
  {
    ProductMonotone(0.0, slip, base);
    ProductMonotone(slip, 0.005, base);
    assert base * (1.0 - slip) == base - slip * base;
  }

  lemma CoefficientBounds(atr14: real, atr100: real)
    requires 1.0 <= atr14 <= 2.0 && 1.0 <= atr100 <= 2.0
    ensures 0.5 <= AtrCoefficient(atr14, atr100).0 <= 1.0
  {
    DivideMonotone(0.5 * atr14, atr100, atr14);
    assert 0.5 * atr14 / atr14 == 0.5;
  }

  lemma QuotientBounds(x: real, y: real)
    requires 50.0 <= x <= 100.0 && 1.5 / 101.0 <= y <= 3.0 / 101.0
    ensures 0.0 < x / y <= 6800.0
  {
    var q := x / y;
    assert q * y == x;
    if q > 6800.0 {
      ProductMonotone(6800.0, q, y);
      assert false;
    }
    if q <= 0.0 {
      ProductMonotone(q, 0.0, y);
      assert false;
    }
  }

  // ---------- books ----------

  lemma {:induction false} QuietScan(cfg: Config, obs: seq<Observation>)
    requires forall i :: 0 <= i < |obs| ==> obs[i].signal.None?
    ensures Scan(cfg, EmptyBook(cfg.initialEquity), obs) == EmptyBook(cfg.initialEquity)
  {
    if obs != [] {
      QuietScan(cfg, obs[..|obs| - 1]);
    }
  }

  /** A book that has admitted nothing is still the initial one; admissions are never forgotten. */
  lemma {:induction false} AdmissionsRemain(cfg: Config, obs: seq<Observation>, n: nat)
    requires n <= |obs|
    ensures |Scan(cfg, EmptyBook(cfg.initialEquity), obs[..n]).admitted|
      <= |Scan(cfg, EmptyBook(cfg.initialEquity), obs).admitted|
    ensures Scan(cfg, EmptyBook(cfg.initialEquity), obs).admitted == []
        ==> Scan(cfg, EmptyBook(cfg.initialEquity), obs) == EmptyBook(cfg.initialEquity)
    decreases |obs|
  {
    if n == |obs| {
      assert obs[..n] == obs;
      if obs != [] { AdmissionsRemain(cfg, obs[..n - 1], n - 1); }
    } else {
      var init := obs[..|obs| - 1];
      AdmissionsRemain(cfg, init, n);
      assert init[..n] == obs[..n];
    }
  }

  lemma AdmitsAt(cfg: Config, obs: seq<Observation>, k: nat)
    requires k < |obs| && obs[k].warm && Candidate(cfg, obs[k]).Some? && cfg.maxPositions >= 1
    requires Admissible(cfg, Proposal(cfg, obs[k], cfg.initialEquity), cfg.initialEquity, 0.0)
    ensures Scan(cfg, EmptyBook(cfg.initialEquity), obs).admitted != []
  {
    var empty := EmptyBook(cfg.initialEquity);
    AdmissionsRemain(cfg, obs, k + 1);
    AdmissionsRemain(cfg, obs[..k], k);
    assert obs[..k + 1][..k] == obs[..k];
    assert Exposure([]) == 0.0;
    var b := Scan(cfg, empty, obs[..k]);
    if b.admitted == [] {
      assert ExitStep(cfg, b, obs[k]) == b;
    }
  }

  // ---------- both directions ----------

  lemma ShortRunQuiet(lens: seq<nat>, at: nat)
    requires at < |lens| && lens[at] < MIN_CANDLES
    ensures Scanned(PROBE, Load(Data(lens, lens, at)), map[]) == EmptyBook(10000.0)
  {
    var hist := Load(Data(lens, lens, at));
    TimelineValid(hist);
    var events := Timeline(hist);
    var obs := Observed(PROBE, hist, map[], events);
    forall k | 0 <= k < |obs| ensures obs[k].signal.None? {
      var e := events[k];
      assert ValidEvent(hist, e);
      var bars := hist[e.sym];
      forall j | 0 <= j <= e.bar ensures bars[j].close == 100.0 {
        assert bars[j] == Bar(lens[e.sym], e.sym == at, j);
      }
      FlatNoSignal(bars, e.bar);
    }
    QuietScan(PROBE, obs);
  }

  lemma {:induction false} EventListed(hist: History, sym: nat, s: nat, i: nat)
    requires sym <= s < |hist| && i < |hist[s]|
    ensures Event(hist[s][i].ts, s, i) in EventsFrom(hist, sym)
    decreases |hist| - sym
  {
    if sym == s {
      assert BarEvents(s, hist[s])[i] == Event(hist[s][i].ts, s, i);
    } else {
      EventListed(hist, sym + 1, s, i);
    }
  }

  lemma JumpObservation(hist: History, at: nat, j: nat, n: nat)
    requires at < |hist| && 101 <= j < n && hist[at] == Bars(j + 1, true, n)
    ensures ValidEvent(hist, Event(-1, at, j))
    ensures var o := Observe(PROBE, hist, map[], Event(-1, at, j));
      o.warm && Candidate(PROBE, o) == Some(Long) && Admissible(PROBE, Proposal(PROBE, o, 10000.0), 10000.0, 0.0)
  {
    var bars := hist[at];
    assert bars[j] == Bar(j + 1, true, j);
    forall i | 0 <= i < j ensures bars[i].close == 100.0 { assert bars[i] == Bar(j + 1, true, i); }
    JumpSignal(bars, j);
    JumpRanges(n, j);
    var o := Observe(PROBE, hist, map[], Event(-1, at, j));
    CoefficientBounds(o.atr14.value, o.atr100.value);
    JumpAdmissible(o);
  }

  lemma LongRunAdmits(lens: seq<nat>, lens': seq<nat>, at: nat)
    requires |lens| == |lens'| && at < |lens|
    requires 102 <= lens[at] <= lens'[at] && lens'[at] >= MIN_CANDLES
    ensures BookAt(PROBE, Load(Data(lens, lens', at)), map[], 0).admitted != []
  {
    var hist := Load(Data(lens, lens', at));
    var j := lens[at] - 1;
    assert hist[at] == Bars(j + 1, true, lens'[at]);
    var e := Event(-1, at, j);
    JumpObservation(hist, at, j, lens'[at]);
    assert hist[at][j] == Bar(j + 1, true, j);
    EventListed(hist, 0, at, j);
    TimelineSorted(hist);
    Sorting.KeepElements(Timeline(hist), UpTo(0));
    TimelineValid(hist);
    KeepValid(hist, Timeline(hist), UpTo(0));
    var events := Sorting.Keep(Timeline(hist), UpTo(0));
    assert e in events;
    var k :| 0 <= k < |events| && events[k] == e;
    AdmitsAt(PROBE, Observed(PROBE, hist, map[], events), k);
  }

  /** For this strategy the run is causal on all data of these lengths if and only if no symbol is admitted late. */
  lemma CausalExactlyWhen(lens: seq<nat>, lens': seq<nat>)
    requires |lens| == |lens'| && forall s :: 0 <= s < |lens| ==> lens[s] <= lens'[s]
    ensures NeverLooksAhead(PROBE, lens, lens') <==> NoLateAdmission(PROBE, lens, lens')
  {
    if NoLateAdmission(PROBE, lens, lens') {
      forall raw: History, raw': History, data: MacroData, data': MacroData, end: int
        | Lengths(raw) == lens && Lengths(raw') == lens'
          && Continues(raw, raw', end) && ContinuesMacro(data, data', DateOf(end))
        ensures BookAt(PROBE, Load(raw'), data', end) == Scanned(PROBE, Load(raw), data)
      {
        RunIsCausal(PROBE, raw, raw', data, data', end);
      }
    } else {
      var at :| 0 <= at < |lens| && lens[at] < MIN_CANDLES && lens'[at] >= MIN_CANDLES && lens[at] > Warmup(PROBE);
      DataContinues(lens, lens', at);
      ShortRunQuiet(lens, at);
      LongRunAdmits(lens, lens', at);
      var raw, raw' := Data(lens, lens, at), Data(lens, lens', at);
      assert ContinuesMacro(map[], map[], DateOf(0));
      assert BookAt(PROBE, Load(raw'), map[], 0) != Scanned(PROBE, Load(raw), map[]);
    }
  }
}
