/**
 The indicator arrays the backtester computes once per symbol before its event loop.
 `None` stands for NaN. Each array-filling loop is proved against the value of one
 cell, and each cell is proved to depend only on the bars at or before its index.
 */
module Indicators {
  import opened Numerics

  datatype Candle = Candle(ts: int, open: real, high: real, low: real, close: real, vol: real)

  // ---------- exponential moving average ----------

  /** One smoothing step: the new value weighs w, the running one the rest. */
  function Smooth(prev: real, x: real, w: real): real { x * w + prev * (1.0 - w) }

  function EmaValue(values: seq<real>, period: int, i: nat): real
    requires 1 <= period <= i + 1 <= |values|
  {
    if i == period - 1 then
      Sum(values[..period]) / period as real
    else
      Smooth(EmaValue(values, period, i - 1), values[i], 2.0 / (period + 1) as real)
  }

  function EmaAt(values: seq<real>, period: int, i: nat): Option<real>
    requires 1 <= period && i < |values|
  {
    if i < period - 1 then None else Some(EmaValue(values, period, i))
  }

  method Ema(values: seq<real>, period: int) returns (r: seq<Option<real>>)
    requires period >= 1
    ensures |r| == |values|
    ensures forall i :: 0 <= i < |r| ==> r[i] == EmaAt(values, period, i)
  {
    var n := |values|;
    var out := new Option<real>[n](_ => None);
    if n < period {
      return out[..];
    }
    var k := 2.0 / (period + 1) as real;
    var seed := period - 1;
    var prev := Sum(values[..period]) / period as real;
    out[seed] := Some(prev);
    for i := seed + 1 to n
      invariant prev == EmaValue(values, period, i - 1)
      invariant forall j :: 0 <= j < i ==> out[j] == EmaAt(values, period, j)
    {
      prev := Smooth(prev, values[i], k);
      out[i] := Some(prev);
    }
    r := out[..];
  }

  /** The value at bar i is the one the average of the bars up to i alone would have. */
  lemma {:induction false} EmaCausal(values: seq<real>, period: int, i: nat, m: nat)
    requires 1 <= period <= i + 1 <= m <= |values|
    ensures EmaValue(values, period, i) == EmaValue(values[..m], period, i)
  {
    if i == period - 1 {
      assert values[..m][..period] == values[..period];
    } else {
      EmaCausal(values, period, i - 1, m);
    }
  }

  lemma {:induction false} SumWithin(s: seq<real>, lo: real, hi: real)
    requires forall i :: 0 <= i < |s| ==> lo <= s[i] <= hi
    ensures |s| as real * lo <= Sum(s) <= |s| as real * hi
  {
    if s != [] {
      var n := |s| - 1;
      SumWithin(s[..n], lo, hi);
      TimesSucc(n, lo);
      TimesSucc(n, hi);
    }
  }

  lemma TimesSucc(n: nat, x: real)
    ensures (n + 1) as real * x == n as real * x + x
  {
    assert (n + 1) as real == n as real + 1.0;
  }

  lemma MeanWithin(total: real, n: nat, lo: real, hi: real)
    requires n >= 1 && n as real * lo <= total <= n as real * hi
    ensures lo <= total / n as real <= hi
  {
    var d := n as real;
    DivideMonotone(d * lo, total, d);
    DivideMonotone(total, d * hi, d);
    assert d * lo / d == lo && d * hi / d == hi;
  }

  lemma SmoothBetween(prev: real, x: real, w: real)
    requires 0.0 <= w <= 1.0
    ensures Min(prev, x) <= Smooth(prev, x, w) <= Max(prev, x)
  {
    assert Smooth(prev, x, w) == prev + (x - prev) * w;
    assert Smooth(prev, x, w) == x + (prev - x) * (1.0 - w);
    if x >= prev {
      ProductNonNegative(x - prev, w);
      ProductNonNegative(x - prev, 1.0 - w);
      assert (prev - x) * (1.0 - w) == -((x - prev) * (1.0 - w));
    } else {
      ProductNonNegative(prev - x, w);
      ProductNonNegative(prev - x, 1.0 - w);
      assert (x - prev) * w == -((prev - x) * w);
    }
  }

  lemma WeightWithin(n: real, d: real)
    requires 0.0 <= n <= d && d > 0.0
    ensures 0.0 <= n / d <= 1.0
  {
    DivideMonotone(0.0, n, d);
    DivideMonotone(n, d, d);
  }

  /** The average never leaves the range of the values it has seen. */
  lemma {:induction false} EmaWithinRange(values: seq<real>, period: int, i: nat, lo: real, hi: real)
    requires 1 <= period <= i + 1 <= |values|
    requires forall j :: 0 <= j <= i ==> lo <= values[j] <= hi
    ensures lo <= EmaValue(values, period, i) <= hi
  {
    if i == period - 1 {
      MeanOf(values[..period], period, lo, hi);
    } else {
      EmaWithinRange(values, period, i - 1, lo, hi);
      WeightWithin(2.0, (period + 1) as real);
      SmoothBetween(EmaValue(values, period, i - 1), values[i], 2.0 / (period + 1) as real);
    }
  }

  /** A value that has moved towards another by n parts in d of the distance. */
  predicate Moved(before: real, now: real, to: real, n: real, d: real) { (now - before) * d == n * (to - before) }

  /** The average is there from bar period - 1 on, as the mean of the first values; then each bar moves it towards its
      value by two parts in period + 1 of the distance. */
  lemma EmaMoves(values: seq<real>, period: int, i: nat)
    requires 1 <= period && i < |values|
    ensures EmaAt(values, period, i).Some? <==> period <= i + 1
    ensures period == i + 1 ==> EmaAt(values, period, i).value * period as real == Sum(values[..i + 1])
    ensures period <= i ==>
      Moved(EmaAt(values, period, i - 1).value, EmaAt(values, period, i).value, values[i], 2.0, (period + 1) as real)
  {
    if period == i + 1 { DivideBack(Sum(values[..period]), period as real); }
    if period <= i { SmoothMoves(EmaValue(values, period, i - 1), values[i], 2.0, (period + 1) as real); }
  }

  /** Smoothing with weight n / d moves the running value by n parts in d. */
  lemma SmoothMoves(prev: real, x: real, n: real, d: real)
    requires d > 0.0
    ensures Moved(prev, Smooth(prev, x, n / d), x, n, d)
  {
    var w := n / d;
    DivideBack(n, d);
    assert Smooth(prev, x, w) - prev == (x - prev) * w;
    Reorder(x - prev, w, d);
  }

  lemma Reorder(a: real, w: real, d: real)
    ensures a * w * d == w * d * a
  {
  }

  // ---------- Wilder's average true range ----------

  function TrueRange(bar: Candle, prevClose: real): real {
    Max(Max(bar.high - bar.low, Abs(bar.high - prevClose)), Abs(bar.low - prevClose))
  }

  /** Cell 0 stands for the missing true range of the first bar and is never read. */
  function TrueRanges(candles: seq<Candle>): (trs: seq<real>)
    ensures |trs| == |candles|
    ensures forall i :: 0 <= i < |trs| ==> trs[i] == TrueRangeAt(candles, i)
  {
    seq(|candles|, i requires 0 <= i < |candles| => TrueRangeAt(candles, i))
  }

  function TrueRangeAt(candles: seq<Candle>, i: nat): real
    requires i < |candles|
  {
    if i == 0 then 0.0 else TrueRange(candles[i], candles[i - 1].close)
  }

  function AtrValue(candles: seq<Candle>, period: int, i: nat): real
    requires 1 <= period <= i < |candles|
  {
    if i == period then
      Sum(TrueRanges(candles)[1..period + 1]) / period as real
    else
      Smooth(AtrValue(candles, period, i - 1), TrueRangeAt(candles, i), 1.0 / period as real)
  }

  function AtrAt(candles: seq<Candle>, period: int, i: nat): Option<real>
    requires 1 <= period && i < |candles|
  {
    if i < period then None else Some(AtrValue(candles, period, i))
  }

  lemma AtrStep(candles: seq<Candle>, period: int, i: nat)
    requires 1 <= period < i < |candles|
    ensures AtrValue(candles, period, i)
         == Smooth(AtrValue(candles, period, i - 1), TrueRanges(candles)[i], 1.0 / period as real)
  {
  }

  method WilderAtr(candles: seq<Candle>, period: int) returns (r: seq<Option<real>>)
    requires period >= 1
    ensures |r| == |candles|
    ensures forall i :: 0 <= i < |r| ==> r[i] == AtrAt(candles, period, i)
  {
    var n := |candles|;
    var out := new Option<real>[n](_ => None);
    if n < period + 1 {
      return out[..];
    }
    var trs := CollectTrueRanges(candles);
    var prev := Sum(trs[1..period + 1]) / period as real;
    out[period] := Some(prev);
    var alpha := 1.0 / period as real;
    for i := period + 1 to n
      invariant prev == AtrValue(candles, period, i - 1)
      invariant forall j :: 0 <= j < i ==> out[j] == AtrAt(candles, period, j)
    {
      AtrStep(candles, period, i);
      prev := Smooth(prev, trs[i], alpha);
      out[i] := Some(prev);
    }
    r := out[..];
  }

  method CollectTrueRanges(candles: seq<Candle>) returns (trs: seq<real>)
    requires candles != []
    ensures trs == TrueRanges(candles)
  {
    trs := [0.0];
    for i := 1 to |candles|
      invariant |trs| == i
      invariant forall j :: 0 <= j < i ==> trs[j] == TrueRangeAt(candles, j)
    {
      trs := trs + [TrueRange(candles[i], candles[i - 1].close)];
    }
  }

  lemma TrueRangesCausal(candles: seq<Candle>, m: nat)
    requires m <= |candles|
    ensures TrueRanges(candles[..m]) == TrueRanges(candles)[..m]
  {
    forall j | 0 <= j < m ensures TrueRangeAt(candles[..m], j) == TrueRangeAt(candles, j) {
    }
  }

  lemma {:induction false} AtrCausal(candles: seq<Candle>, period: int, i: nat, m: nat)
    requires 1 <= period <= i < m <= |candles|
    ensures AtrValue(candles, period, i) == AtrValue(candles[..m], period, i)
  {
    if i == period {
      TrueRangesCausal(candles, m);
      assert TrueRanges(candles[..m])[1..period + 1] == TrueRanges(candles)[1..period + 1];
    } else {
      AtrCausal(candles, period, i - 1, m);
      assert TrueRangeAt(candles[..m], i) == TrueRangeAt(candles, i);
    }
  }

  /** Each true range is an absolute difference at least, so the average true range is never negative. */
  lemma {:induction false} AtrNonNegative(candles: seq<Candle>, period: int, i: nat)
    requires 1 <= period <= i < |candles|
    ensures AtrValue(candles, period, i) >= 0.0
  {
    if i == period {
      var trs := TrueRanges(candles)[1..period + 1];
      forall j | 0 <= j < |trs| ensures trs[j] >= 0.0 {
        assert trs[j] == TrueRangeAt(candles, j + 1);
      }
      SumNonNegative(trs);
      DivideMonotone(0.0, Sum(trs), period as real);
    } else {
      AtrNonNegative(candles, period, i - 1);
      WeightWithin(1.0, period as real);
      SmoothBetween(AtrValue(candles, period, i - 1), TrueRangeAt(candles, i), 1.0 / period as real);
    }
  }

  lemma MeanOf(s: seq<real>, n: nat, lo: real, hi: real)
    requires |s| == n >= 1 && forall i :: 0 <= i < n ==> lo <= s[i] <= hi
    ensures lo <= Sum(s) / n as real <= hi
  {
    SumWithin(s, lo, hi);
    MeanWithin(Sum(s), n, lo, hi);
  }

  lemma SeedWithin(candles: seq<Candle>, period: int, lo: real, hi: real)
    requires 1 <= period < |candles|
    requires forall j :: 1 <= j <= period ==> lo <= TrueRangeAt(candles, j) <= hi
    ensures lo <= AtrValue(candles, period, period) <= hi
  {
    var trs := TrueRanges(candles)[1..period + 1];
    forall j | 0 <= j < |trs| ensures lo <= trs[j] <= hi {
      assert trs[j] == TrueRangeAt(candles, j + 1);
    }
    MeanOf(trs, period, lo, hi);
  }

  /** The average true range never leaves the range of the true ranges it has seen. */
  lemma {:induction false} AtrWithinRange(candles: seq<Candle>, period: int, i: nat, lo: real, hi: real)
    requires 1 <= period <= i < |candles|
    requires forall j :: 1 <= j <= i ==> lo <= TrueRangeAt(candles, j) <= hi
    ensures lo <= AtrValue(candles, period, i) <= hi
  {
    if i == period {
      SeedWithin(candles, period, lo, hi);
    } else {
      AtrWithinRange(candles, period, i - 1, lo, hi);
      WeightWithin(1.0, period as real);
      SmoothBetween(AtrValue(candles, period, i - 1), TrueRangeAt(candles, i), 1.0 / period as real);
    }
  }

  /** The true range of a bar is the span of its prices together with the close before it. */
  lemma TrueRangeIsSpan(candles: seq<Candle>, i: nat)
    requires 1 <= i < |candles| && candles[i].low <= candles[i].high
    ensures TrueRangeAt(candles, i)
         == Max(candles[i].high, candles[i - 1].close) - Min(candles[i].low, candles[i - 1].close)
  {
  }

  /** The true ranges of bars 1 to i. */
  function RangesTo(candles: seq<Candle>, i: nat): (trs: seq<real>)
    requires i < |candles|
    ensures |trs| == i && forall j :: 0 <= j < i ==> trs[j] == TrueRangeAt(candles, j + 1)
  {
    seq(i, j requires 0 <= j < i => TrueRangeAt(candles, j + 1))
  }

  /** The average true range is there from bar `period` on, as the mean of the true ranges up to it. */
  lemma AtrStarts(candles: seq<Candle>, period: int, i: nat)
    requires 1 <= period && i < |candles|
    ensures AtrAt(candles, period, i).Some? <==> period <= i
    ensures period == i ==> AtrAt(candles, period, i).value * period as real == Sum(RangesTo(candles, i))
  {
    if period == i { AtrSeed(candles, period); }
  }

  /** Then each bar moves it by one part in `period` of the distance to its true range. */
  lemma AtrMoves(candles: seq<Candle>, period: int, i: nat) returns (before: real, now: real)
    requires 1 <= period < i < |candles|
    ensures AtrAt(candles, period, i - 1) == Some(before) && AtrAt(candles, period, i) == Some(now)
    ensures Moved(before, now, TrueRangeAt(candles, i), 1.0, period as real)
  {
    before, now := AtrValue(candles, period, i - 1), AtrValue(candles, period, i);
    SmoothMoves(before, TrueRangeAt(candles, i), 1.0, period as real);
  }

  lemma AtrSeed(candles: seq<Candle>, period: int)
    requires 1 <= period < |candles|
    ensures AtrValue(candles, period, period) * period as real == Sum(RangesTo(candles, period))
  {
    assert TrueRanges(candles)[1..period + 1] == RangesTo(candles, period);
    DivideBack(Sum(RangesTo(candles, period)), period as real);
  }

  // ---------- rolling average turnover ----------

  function UsdtVolume(bar: Candle): real { bar.close * bar.vol }

  function Turnover(candles: seq<Candle>): (t: seq<real>)
    ensures |t| == |candles|
    ensures forall i :: 0 <= i < |t| ==> t[i] == UsdtVolume(candles[i])
  {
    seq(|candles|, i requires 0 <= i < |candles| => UsdtVolume(candles[i]))
  }

  /** Mean turnover of the up to `window` bars before bar i, 0 when there are none. */
  function AvgVolAt(candles: seq<Candle>, window: int, i: nat): real
    requires i < |candles|
  {
    var lo := MaxInt(0, i - window);
    if lo < i then Sum(Turnover(candles)[lo..i]) / (i - lo) as real else 0.0
  }

  method RollingAvgVol(candles: seq<Candle>, window: int) returns (r: seq<real>)
    ensures |r| == |candles|
    ensures forall i :: 0 <= i < |r| ==> r[i] == AvgVolAt(candles, window, i)
  {
    var n := |candles|;
    var out := new real[n](_ => 0.0);
    for i := 0 to n
      invariant forall j :: 0 <= j < i ==> out[j] == AvgVolAt(candles, window, j)
    {
      var lo := MaxInt(0, i - window);
      if lo < i {
        var bars := candles[lo..i];
        assert Turnover(bars) == Turnover(candles)[lo..i];
        out[i] := Sum(Turnover(bars)) / |bars| as real;
      } else {
        out[i] := 0.0;
      }
    }
    r := out[..];
  }

  lemma AvgVolCausal(candles: seq<Candle>, window: int, i: nat, m: nat)
    requires i < m <= |candles|
    ensures AvgVolAt(candles, window, i) == AvgVolAt(candles[..m], window, i)
  {
    var lo := MaxInt(0, i - window);
    if lo < i {
      assert Turnover(candles[..m])[lo..i] == Turnover(candles)[lo..i];
    }
  }

  /** The turnover of the n bars before bar i: close times volume. */
  function TurnoverBefore(candles: seq<Candle>, i: nat, n: nat): (t: seq<real>)
    requires n <= i < |candles|
    ensures |t| == n && forall j :: 0 <= j < n ==> t[j] == candles[i - n + j].close * candles[i - n + j].vol
  {
    seq(n, j requires 0 <= j < n => candles[i - n + j].close * candles[i - n + j].vol)
  }

  /** It is the mean of close times volume over the `window` bars before bar i, or over as many as there are. */
  lemma AvgVolIsMean(candles: seq<Candle>, window: int, i: nat)
    requires i < |candles| && window >= 0
    ensures var n := MinInt(window, i);
      AvgVolAt(candles, window, i) * n as real == Sum(TurnoverBefore(candles, i, n))
  {
    var n := MinInt(window, i);
    if n > 0 {
      AvgVolIs(candles, window, i, n);
      DivideBack(Sum(TurnoverBefore(candles, i, n)), n as real);
    }
  }

  lemma AvgVolIs(candles: seq<Candle>, window: int, i: nat, n: nat)
    requires i < |candles| && window >= 0 && n == MinInt(window, i) > 0
    ensures AvgVolAt(candles, window, i) == Sum(TurnoverBefore(candles, i, n)) / n as real
  {
    TurnoverIs(candles, i, n);
    assert MaxInt(0, i - window) == i - n;
  }

  lemma TurnoverIs(candles: seq<Candle>, i: nat, n: nat)
    requires n <= i < |candles|
    ensures Turnover(candles)[i - n..i] == TurnoverBefore(candles, i, n)
  {
    var t := Turnover(candles)[i - n..i];
    forall j | 0 <= j < n ensures t[j] == TurnoverBefore(candles, i, n)[j] {
      assert t[j] == UsdtVolume(candles[i - n + j]);
    }
  }
}
