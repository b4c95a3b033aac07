/**
 No look-ahead. A longer data set is one with extra bars after `end` and extra macro entries
 dated after it. Scanning the longer data set up to `end` gives the book of the shorter run.
 The one way a later bar can reach back is the 110-candle gate; the last lemma says exactly when.
 */
module BacktestCausality {
  import opened Numerics
  import opened Indicators
  import opened Backtest
  import opened BacktestRun
  import Sorting

  ghost predicate Continues(raw: History, raw': History, end: int) {
    && |raw| == |raw'|
    && (forall s :: 0 <= s < |raw| ==> raw[s] <= raw'[s])
    && (forall s, i :: 0 <= s < |raw| && 0 <= i < |raw'[s]| ==> (raw'[s][i].ts <= end <==> i < |raw[s]|))
  }

  ghost predicate ContinuesMacro(data: MacroData, data': MacroData, date: int) {
    && data.Keys <= data'.Keys
    && forall name :: name in data' ==>
         && Series(data, name) <= data'[name]
         && forall i :: |Series(data, name)| <= i < |data'[name]| ==> data'[name][i].date > date
  }

  /** No symbol passes the candle gate only thanks to later bars while already having warm ones. */
  ghost predicate NoLateAdmission(cfg: Config, lens: seq<nat>, lens': seq<nat>)
    requires |lens| == |lens'|
  {
    forall s :: 0 <= s < |lens| ==> lens[s] >= 110 || lens'[s] < 110 || lens[s] <= Warmup(cfg)
  }

  ghost function Lengths(raw: History): (lens: seq<nat>)
    ensures |lens| == |raw|
    ensures forall s :: 0 <= s < |lens| ==> lens[s] == |raw[s]|
  {
    seq(|raw|, s requires 0 <= s < |raw| => |raw[s]|)
  }

  // ---------- one observation ----------

  lemma EmaAtCausal(values: seq<real>, period: int, i: nat, m: nat)
    requires 1 <= period && i < m <= |values|
    ensures EmaAt(values, period, i) == EmaAt(values[..m], period, i)
  {
    if i >= period - 1 {
      EmaCausal(values, period, i, m);
    }
  }

  lemma AtrAtCausal(candles: seq<Candle>, period: int, i: nat, m: nat)
    requires 1 <= period && i < m <= |candles|
    ensures AtrAt(candles, period, i) == AtrAt(candles[..m], period, i)
  {
    if i >= period {
      AtrCausal(candles, period, i, m);
    }
  }

  lemma SignalCausal(cfg: Config, candles: seq<Candle>, i: nat, m: nat)
    requires ValidConfig(cfg) && i < m <= |candles|
    ensures EntrySignal(cfg, candles, i) == EntrySignal(cfg, candles[..m], i)
  {
    if i >= 1 {
      var c := Closes(candles);
      assert Closes(candles[..m]) == c[..m];
      EmaAtCausal(c, cfg.fastPeriod, i, m);
      EmaAtCausal(c, cfg.fastPeriod, i - 1, m);
      EmaAtCausal(c, cfg.slowPeriod, i, m);
      EmaAtCausal(c, cfg.slowPeriod, i - 1, m);
    }
  }

  lemma LookupCausal(data: MacroData, data': MacroData, name: string, date: int, end: int)
    requires ContinuesMacro(data, data', end) && date <= end
    ensures LastAtOrBefore(Series(data, name), date) == LastAtOrBefore(Series(data', name), date)
  {
    if name in data' {
      var past := Series(data, name);
      LastAtOrBeforeCut(data'[name], date, |past|);
      assert data'[name][..|past|] == past;
    }
  }

  lemma KnownSignalsCausal(data: MacroData, data': MacroData, ts: int, end: int)
    requires ContinuesMacro(data, data', DateOf(end)) && ts <= end
    ensures KnownSignals(ts, data) == KnownSignals(ts, data')
  {
    var date := DateOf(ts);
    forall name ensures LastAtOrBefore(Series(data, name), date) == LastAtOrBefore(Series(data', name), date) {
      LookupCausal(data, data', name, date, DateOf(end));
    }
    LookupCausal(data, data', "btc_dominance", date - 7, DateOf(end));
    SameLookups(data, data', date);
    assert LatestSignals(date, data) == LatestSignals(date, data');
  }

  lemma SameLookups(data: MacroData, data': MacroData, date: int)
    requires forall name :: LastAtOrBefore(Series(data, name), date) == LastAtOrBefore(Series(data', name), date)
    ensures LatestSignals(date, data) == LatestSignals(date, data')
  {
    var a, b := LatestSignals(date, data), LatestSignals(date, data');
    forall name ensures (name in a <==> name in b) && (name in a ==> a[name] == b[name]) {
      assert LastAtOrBefore(Series(data, name), date) == LastAtOrBefore(Series(data', name), date);
    }
  }

  lemma MacroCausal(cfg: Config, data: MacroData, data': MacroData, ts: int, end: int)
    requires ContinuesMacro(data, data', DateOf(end)) && ts <= end
    ensures MacroAllows(cfg.filters, DateOf(ts), data) == MacroAllows(cfg.filters, DateOf(ts), data')
    ensures LabelAt(cfg, ts, data) == LabelAt(cfg, ts, data')
  {
    forall i | 0 <= i < |cfg.filters|
      ensures LastAtOrBefore(Series(data, cfg.filters[i].signal), DateOf(ts))
           == LastAtOrBefore(Series(data', cfg.filters[i].signal), DateOf(ts))
    {
      LookupCausal(data, data', cfg.filters[i].signal, DateOf(ts), DateOf(end));
    }
    KnownSignalsCausal(data, data', ts, end);
  }

  /** What a bar shows the scan does not depend on later bars or later macro entries. */
  lemma ObserveCausal(cfg: Config, hist: History, hist': History, data: MacroData, data': MacroData, e: Event, end: int)
    requires ValidConfig(cfg) && ValidEvent(hist, e) && |hist| == |hist'| && e.ts <= end
    requires hist[e.sym] <= hist'[e.sym] && ContinuesMacro(data, data', DateOf(end))
    ensures ValidEvent(hist', e) && Observe(cfg, hist, data, e) == Observe(cfg, hist', data', e)
  {
    var h, h' := hist[e.sym], hist'[e.sym];
    assert h == h'[..|h|];
    SignalCausal(cfg, h', e.bar, |h|);
    AtrAtCausal(h', 14, e.bar, |h|);
    AtrAtCausal(h', 100, e.bar, |h|);
    AvgVolCausal(h', VOLUME_WINDOW, e.bar, |h|);
    MacroCausal(cfg, data, data', e.ts, end);
  }

  // ---------- the two timelines ----------

  /** The two histories agree on every warm bar up to `end`. */
  ghost predicate SameWarmPast(cfg: Config, hist: History, hist': History, end: int) {
    && |hist| == |hist'|
    && forall s :: 0 <= s < |hist| ==>
         && hist[s] <= hist'[s]
         && (forall i :: 0 <= i < |hist[s]| ==> hist[s][i].ts <= end)
         && forall i :: |hist[s]| <= i < |hist'[s]| && hist'[s][i].ts <= end ==> i < Warmup(cfg)
  }

  lemma LoadedSamePast(cfg: Config, raw: History, raw': History, end: int)
    requires Continues(raw, raw', end)
    requires NoLateAdmission(cfg, Lengths(raw), Lengths(raw'))
    ensures SameWarmPast(cfg, Load(raw), Load(raw'), end)
  {
    var lens, lens' := Lengths(raw), Lengths(raw');
    forall s | 0 <= s < |raw|
      ensures Load(raw)[s] <= Load(raw')[s]
      ensures forall i :: 0 <= i < |Load(raw)[s]| ==> Load(raw)[s][i].ts <= end
      ensures forall i :: |Load(raw)[s]| <= i < |Load(raw')[s]| && Load(raw')[s][i].ts <= end ==> i < Warmup(cfg)
    {
      assert lens[s] == |raw[s]| && lens'[s] == |raw'[s]|;
      assert |raw[s]| <= |raw'[s]|;
      forall i | 0 <= i < |raw[s]| ensures raw[s][i].ts <= end {
        assert raw[s][i] == raw'[s][i];
      }
    }
  }

  ghost function Relevant(cfg: Config, end: int): Event -> bool {
    (e: Event) => e.ts <= end && e.bar >= Warmup(cfg)
  }

  lemma BarsSamePast(cfg: Config, h: seq<Candle>, h': seq<Candle>, s: nat, end: int)
    requires h <= h'
    requires forall i :: |h| <= i < |h'| && h'[i].ts <= end ==> i < Warmup(cfg)
    ensures Sorting.Keep(BarEvents(s, h'), Relevant(cfg, end)) == Sorting.Keep(BarEvents(s, h), Relevant(cfg, end))
  {
    var p := Relevant(cfg, end);
    var rest := BarEvents(s, h')[|h|..];
    assert BarEvents(s, h') == BarEvents(s, h) + rest;
    Sorting.KeepAppend(BarEvents(s, h), rest, p);
    forall i | 0 <= i < |rest| ensures !p(rest[i]) {
      assert rest[i] == Event(h'[|h| + i].ts, s, |h| + i);
    }
    Sorting.KeepNone(rest, p);
  }

  lemma {:induction false} EventsSamePast(cfg: Config, hist: History, hist': History, end: int, sym: nat)
    requires SameWarmPast(cfg, hist, hist', end) && sym <= |hist|
    ensures Sorting.Keep(EventsFrom(hist', sym), Relevant(cfg, end))
      == Sorting.Keep(EventsFrom(hist, sym), Relevant(cfg, end))
    decreases |hist| - sym
  {
    if sym < |hist| {
      BarsSamePast(cfg, hist[sym], hist'[sym], sym, end);
      EventsSamePast(cfg, hist, hist', end, sym + 1);
      Sorting.KeepAppend(BarEvents(sym, hist[sym]), EventsFrom(hist, sym + 1), Relevant(cfg, end));
      Sorting.KeepAppend(BarEvents(sym, hist'[sym]), EventsFrom(hist', sym + 1), Relevant(cfg, end));
    }
  }

  /** Sorting, then cutting at `end` and dropping cold bars, gives the same events for both. */
  lemma TimelinesAgree(cfg: Config, hist: History, hist': History, end: int)
    requires SameWarmPast(cfg, hist, hist', end)
    ensures Sorting.Keep(Timeline(hist'), Relevant(cfg, end)) == Sorting.Keep(Timeline(hist), Relevant(cfg, end))
  {
    EventsSamePast(cfg, hist, hist', end, 0);
    Sorting.KeepSort(EventsFrom(hist, 0), EventTime, Relevant(cfg, end));
    Sorting.KeepSort(EventsFrom(hist', 0), EventTime, Relevant(cfg, end));
  }

  // ---------- cold events do nothing ----------

  ghost function ScanEvents(cfg: Config, hist: History, data: MacroData, events: seq<Event>): Book
    requires ValidConfig(cfg) && ValidEvents(hist, events)
  {
    Scan(cfg, EmptyBook(cfg.initialEquity), Observed(cfg, hist, data, events))
  }

  lemma ScanEventsStep(cfg: Config, hist: History, data: MacroData, events: seq<Event>, e: Event)
    requires ValidConfig(cfg) && ValidEvents(hist, events) && ValidEvent(hist, e)
    ensures ValidEvents(hist, events + [e])
    ensures ScanEvents(cfg, hist, data, events + [e])
         == Step(cfg, ScanEvents(cfg, hist, data, events), Observe(cfg, hist, data, e))
  {
    var all := Observed(cfg, hist, data, events + [e]);
    assert all[..|events|] == Observed(cfg, hist, data, events);
  }

  lemma KeepValid(hist: History, events: seq<Event>, p: Event -> bool)
    requires ValidEvents(hist, events)
    ensures ValidEvents(hist, Sorting.Keep(events, p))
  {
    Sorting.KeepElements(events, p);
    var kept := Sorting.Keep(events, p);
    forall i | 0 <= i < |kept| ensures ValidEvent(hist, kept[i]) {
      assert kept[i] in kept;
    }
  }

  ghost predicate ScansAlike(cfg: Config, hist: History, data: MacroData, a: seq<Event>, b: seq<Event>)
    requires ValidConfig(cfg)
  {
    && ValidEvents(hist, a) && ValidEvents(hist, b)
    && ScanEvents(cfg, hist, data, a) == ScanEvents(cfg, hist, data, b)
  }

  lemma {:induction false} ColdEventsIgnored(cfg: Config, hist: History, data: MacroData, events: seq<Event>, end: int)
    requires ValidConfig(cfg) && ValidEvents(hist, events)
    requires forall i :: 0 <= i < |events| ==> events[i].ts <= end
    ensures ScansAlike(cfg, hist, data, events, Sorting.Keep(events, Relevant(cfg, end)))
    decreases |events|
  {
    if events != [] {
      var n := |events| - 1;
      ColdEventsIgnored(cfg, hist, data, events[..n], end);
      NextColdEvent(cfg, hist, data, events[..n], events[n], end);
      assert events[..n] + [events[n]] == events;
    }
  }

  lemma NextColdEvent(cfg: Config, hist: History, data: MacroData, init: seq<Event>, e: Event, end: int)
    requires ValidConfig(cfg) && ValidEvent(hist, e) && e.ts <= end
    requires ScansAlike(cfg, hist, data, init, Sorting.Keep(init, Relevant(cfg, end)))
    ensures ScansAlike(cfg, hist, data, init + [e], Sorting.Keep(init + [e], Relevant(cfg, end)))
  {
    Sorting.KeepGrows(init, e, Relevant(cfg, end));
    ColdEventIgnored(cfg, hist, data, init, e, Sorting.Keep(init, Relevant(cfg, end)), end);
  }

  lemma ColdEventIgnored(cfg: Config, hist: History, data: MacroData, init: seq<Event>, e: Event, kept: seq<Event>,
                         end: int)
    requires ValidConfig(cfg) && ValidEvent(hist, e) && ValidEvents(hist, init) && ValidEvents(hist, kept)
    requires e.ts <= end && ScanEvents(cfg, hist, data, init) == ScanEvents(cfg, hist, data, kept)
    ensures ValidEvents(hist, init + [e]) && ValidEvents(hist, kept + [e])
    ensures ScanEvents(cfg, hist, data, init + [e])
         == ScanEvents(cfg, hist, data, if Relevant(cfg, end)(e) then kept + [e] else kept)
  {
    ScanEventsStep(cfg, hist, data, init, e);
    ScanEventsStep(cfg, hist, data, kept, e);
  }

  lemma ScanEventsCausal(cfg: Config, hist: History, hist': History, data: MacroData, data': MacroData,
                         events: seq<Event>, end: int)
    requires ValidConfig(cfg) && ValidEvents(hist, events) && |hist| == |hist'|
    requires forall s :: 0 <= s < |hist| ==> hist[s] <= hist'[s]
    requires forall i :: 0 <= i < |events| ==> events[i].ts <= end
    requires ContinuesMacro(data, data', DateOf(end))
    ensures ValidEvents(hist', events)
    ensures ScanEvents(cfg, hist, data, events) == ScanEvents(cfg, hist', data', events)
  {
    forall i | 0 <= i < |events|
      ensures ValidEvent(hist', events[i])
           && Observe(cfg, hist, data, events[i]) == Observe(cfg, hist', data', events[i])
    {
      ObserveCausal(cfg, hist, hist', data, data', events[i], end);
    }
    assert Observed(cfg, hist, data, events) == Observed(cfg, hist', data', events);
  }

  // ---------- the whole run ----------

  ghost function UpTo(end: int): Event -> bool { (e: Event) => e.ts <= end }

  /** The book of a run at the moment every event up to `end` has been scanned. */
  ghost function BookAt(cfg: Config, hist: History, data: MacroData, end: int): Book
    requires ValidConfig(cfg)
  {
    TimelineValid(hist);
    KeepValid(hist, Timeline(hist), UpTo(end));
    ScanEvents(cfg, hist, data, Sorting.Keep(Timeline(hist), UpTo(end)))
  }

  lemma TimelineSorted(hist: History)
    ensures Sorting.Sorted(Timeline(hist), EventTime)
    ensures forall e :: e in Timeline(hist) <==> e in EventsFrom(hist, 0)
  {
    Sorting.SortByIsSort(EventsFrom(hist, 0), EventTime);
    forall e ensures e in Timeline(hist) <==> e in EventsFrom(hist, 0) {
      assert e in Timeline(hist) <==> e in multiset(Timeline(hist));
      assert e in EventsFrom(hist, 0) <==> e in multiset(EventsFrom(hist, 0));
    }
  }

  /** `BookAt` is an intermediate state of the run: the book after a prefix of its timeline. */
  lemma BookAtIsPrefix(cfg: Config, hist: History, data: MacroData, end: int) returns (n: nat)
    requires ValidConfig(cfg)
    ensures n <= |Timeline(hist)| && ValidEvents(hist, Timeline(hist)[..n])
    ensures BookAt(cfg, hist, data, end) == ScanEvents(cfg, hist, data, Timeline(hist)[..n])
    ensures forall i :: 0 <= i < |Timeline(hist)| ==> (Timeline(hist)[i].ts <= end <==> i < n)
  {
    TimelineValid(hist);
    TimelineSorted(hist);
    var t := Timeline(hist);
    Sorting.KeepPrefix(t, EventTime, end as real, UpTo(end));
    n := |Sorting.Keep(t, UpTo(end))|;
    Sorting.KeepElements(t, UpTo(end));
    forall i | 0 <= i < |t| ensures t[i].ts <= end <==> i < n {
      if i < n {
        assert t[i] == t[..n][i];
        assert t[i] in Sorting.Keep(t, UpTo(end));
      } else {
        assert EventTime(t[i]) > end as real;
      }
    }
  }

  lemma BookAtRelevant(cfg: Config, hist: History, data: MacroData, end: int)
    requires ValidConfig(cfg)
    ensures ValidEvents(hist, Sorting.Keep(Timeline(hist), Relevant(cfg, end)))
    ensures BookAt(cfg, hist, data, end)
      == ScanEvents(cfg, hist, data, Sorting.Keep(Timeline(hist), Relevant(cfg, end)))
  {
    TimelineValid(hist);
    KeepValid(hist, Timeline(hist), UpTo(end));
    var early := Sorting.Keep(Timeline(hist), UpTo(end));
    Sorting.KeepElements(Timeline(hist), UpTo(end));
    forall i | 0 <= i < |early| ensures early[i].ts <= end { assert early[i] in early; }
    ColdEventsIgnored(cfg, hist, data, early, end);
    Sorting.KeepKeep(Timeline(hist), UpTo(end), Relevant(cfg, end));
  }

  lemma BookAtAgrees(cfg: Config, hist: History, hist': History, data: MacroData, data': MacroData, end: int)
    requires ValidConfig(cfg)
    requires SameWarmPast(cfg, hist, hist', end) && ContinuesMacro(data, data', DateOf(end))
    ensures BookAt(cfg, hist', data', end) == BookAt(cfg, hist, data, end)
  {
    BookAtRelevant(cfg, hist, data, end);
    BookAtRelevant(cfg, hist', data', end);
    TimelinesAgree(cfg, hist, hist', end);
    var kept := Sorting.Keep(Timeline(hist), Relevant(cfg, end));
    Sorting.KeepElements(Timeline(hist), Relevant(cfg, end));
    forall i | 0 <= i < |kept| ensures kept[i].ts <= end { assert kept[i] in kept; }
    ScanEventsCausal(cfg, hist, hist', data, data', kept, end);
  }

  lemma EventsEndInTime(hist: History, sym: nat, end: int)
    requires sym <= |hist|
    requires forall s, i :: 0 <= s < |hist| && 0 <= i < |hist[s]| ==> hist[s][i].ts <= end
    ensures forall e :: e in EventsFrom(hist, sym) ==> e.ts <= end
  {
    EventsFromValid(hist, sym);
    forall e | e in EventsFrom(hist, sym) ensures e.ts <= end {
      var i :| 0 <= i < |EventsFrom(hist, sym)| && EventsFrom(hist, sym)[i] == e;
      assert ValidEvent(hist, e);
    }
  }

  /** At the end of its own data a run has scanned everything. */
  lemma BookAtEnd(cfg: Config, hist: History, data: MacroData, end: int)
    requires ValidConfig(cfg)
    requires forall s, i :: 0 <= s < |hist| && 0 <= i < |hist[s]| ==> hist[s][i].ts <= end
    ensures BookAt(cfg, hist, data, end) == Scanned(cfg, hist, data)
  {
    TimelineValid(hist);
    TimelineSorted(hist);
    EventsEndInTime(hist, 0, end);
    var t := Timeline(hist);
    forall i | 0 <= i < |t| ensures t[i].ts <= end { assert t[i] in t; }
    Sorting.KeepAll(t, UpTo(end));
  }

  /**
   Whole-run causality: when the extended run reaches the end of the old data it holds the
   equity, open positions, trades and admissions the old run ended with.
   */
  lemma RunIsCausal(cfg: Config, raw: History, raw': History, data: MacroData, data': MacroData, end: int)
    requires ValidConfig(cfg)
    requires Continues(raw, raw', end) && ContinuesMacro(data, data', DateOf(end))
    requires NoLateAdmission(cfg, Lengths(raw), Lengths(raw'))
    ensures BookAt(cfg, Load(raw'), data', end) == Scanned(cfg, Load(raw), data)
  {
    LoadedSamePast(cfg, raw, raw', end);
    BookAtAgrees(cfg, Load(raw), Load(raw'), data, data', end);
    BookAtEnd(cfg, Load(raw), data, end);
  }
}
