/**
 The reported equity curve: closed trades in exit order, a running peak, rounded points.
 Its drawdown is proved to be the maximum over all pairs of points, and its last point to be
 the exact result of the run up to one rounding per trade.
 */
module EquityCurve {
  import opened Numerics
  import opened Backtest
  import opened BacktestRun
  import opened BacktestBooks
  import Sorting

  /** `at` is the exit time; the seed point has none. */
  datatype Point = Point(at: Option<int>, equity: real, drawdown: real)

  function ExitTime(t: Trade): real { t.exitTs as real }

  function Pnls(trades: seq<Trade>): (p: seq<real>)
    ensures |p| == |trades|
    ensures forall i :: 0 <= i < |p| ==> p[i] == trades[i].pnl
  {
    seq(|trades|, i requires 0 <= i < |trades| => trades[i].pnl)
  }

  /** Equity after the first j results. */
  function EquityAt(initial: real, pnls: seq<real>, j: nat): real
    requires j <= |pnls|
  {
    initial + Sum(pnls[..j])
  }

  function PeakAt(initial: real, pnls: seq<real>, j: nat): real
    requires j <= |pnls|
  {
    if j == 0 then initial else Max(PeakAt(initial, pnls, j - 1), EquityAt(initial, pnls, j))
  }

  function Below(peak: real, equity: real): real { if peak > 0.0 then (peak - equity) / peak else 0.0 }

  function DrawdownAt(initial: real, pnls: seq<real>, j: nat): real
    requires j <= |pnls|
  {
    Below(PeakAt(initial, pnls, j), EquityAt(initial, pnls, j))
  }

  function PointAt(initial: real, trades: seq<Trade>, j: nat): Point
    requires j <= |trades|
  {
    if j == 0 then Point(None, initial, 0.0)
    else Point(Some(trades[j - 1].exitTs), RoundTo(EquityAt(initial, Pnls(trades), j), FOUR_DIGITS),
               RoundTo(DrawdownAt(initial, Pnls(trades), j), SIX_DIGITS))
  }

  lemma EquityNext(initial: real, pnls: seq<real>, j: nat)
    requires j < |pnls|
    ensures EquityAt(initial, pnls, j + 1) == EquityAt(initial, pnls, j) + pnls[j]
  {
    assert pnls[..j + 1][..j] == pnls[..j];
  }

  method BuildEquityCurve(trades: seq<Trade>, initial: real) returns (curve: seq<Point>)
    ensures |curve| == |trades| + 1
    ensures var sorted := Sorting.SortBy(trades, ExitTime);
      |sorted| == |trades| && forall j :: 0 <= j < |curve| ==> curve[j] == PointAt(initial, sorted, j)
  {
    Sorting.SortByIsSort(trades, ExitTime);
    var sorted := Sorting.SortBy(trades, ExitTime);
    var equity, peak := initial, initial;
    curve := [Point(None, initial, 0.0)];
    ghost var pnls := Pnls(sorted);
    assert pnls[..0] == [];
    for i := 0 to |sorted|
      invariant |curve| == i + 1
      invariant equity == EquityAt(initial, pnls, i) && peak == PeakAt(initial, pnls, i)
      invariant forall j :: 0 <= j <= i ==> curve[j] == PointAt(initial, sorted, j)
    {
      EquityNext(initial, pnls, i);
      equity := equity + sorted[i].pnl;
      peak := Max(peak, equity);
      var dd := Below(peak, equity);
      curve := curve + [Point(Some(sorted[i].exitTs), RoundTo(equity, FOUR_DIGITS), RoundTo(dd, SIX_DIGITS))];
    }
  }

  function MaxDrawdown(curve: seq<Point>): real {
    if curve == [] then 0.0
    else if |curve| == 1 then curve[0].drawdown
    else Max(MaxDrawdown(curve[..|curve| - 1]), curve[|curve| - 1].drawdown)
  }

  // ---------- the single pass is the quadratic maximum ----------

  /** The loss from point i down to point j, as a share of point i. */
  function Fall(initial: real, pnls: seq<real>, i: nat, j: nat): real
    requires i <= j <= |pnls| && EquityAt(initial, pnls, i) != 0.0
  {
    (EquityAt(initial, pnls, i) - EquityAt(initial, pnls, j)) / EquityAt(initial, pnls, i)
  }

  /** An account that starts with something never goes below nothing. */
  ghost predicate StaysSolvent(initial: real, pnls: seq<real>) {
    initial > 0.0 && forall j :: 0 <= j <= |pnls| ==> EquityAt(initial, pnls, j) >= 0.0
  }

  /** The running peak is the highest point so far. */
  lemma {:induction false} PeakIsMaximum(initial: real, pnls: seq<real>, j: nat) returns (i: nat)
    requires j <= |pnls|
    ensures i <= j && PeakAt(initial, pnls, j) == EquityAt(initial, pnls, i)
    ensures forall k :: 0 <= k <= j ==> EquityAt(initial, pnls, k) <= PeakAt(initial, pnls, j)
  {
    assert pnls[..0] == [];
    if j == 0 {
      i := 0;
    } else {
      i := PeakIsMaximum(initial, pnls, j - 1);
      if PeakAt(initial, pnls, j - 1) < EquityAt(initial, pnls, j) { i := j; }
    }
  }

  lemma FallMonotone(low: real, high: real, e: real)
    requires 0.0 < low <= high && e >= 0.0
    ensures (low - e) / low <= (high - e) / high
  {
    ShareLost(low, e);
    ShareLost(high, e);
    DivideByMore(low, high, e);
  }

  lemma DivideByMore(low: real, high: real, e: real)
    requires 0.0 < low <= high && e >= 0.0
    ensures e / high <= e / low
  {
    var b := e / high;
    DivideBack(e, high);
    DivideMonotone(0.0, e, high);
    assert 0.0 / high == 0.0;
    ProductMonotone(low, high, b);
    DivideMonotone(low * b, e, low);
    DivideBack(b, low);
  }

  lemma FallSteeper(low: real, high: real, e: real)
    requires 0.0 < low < high && e < 0.0
    ensures (low - e) / low > (high - e) / high
  {
    ShareLost(low, e);
    ShareLost(high, e);
    DivideByMoreStrict(low, high, -e);
    NegateQuotient(e, low);
    NegateQuotient(e, high);
  }

  lemma NegateQuotient(x: real, y: real)
    requires y != 0.0
    ensures -x / y == -(x / y)
  {
  }

  lemma DivideByMoreStrict(low: real, high: real, x: real)
    requires 0.0 < low < high && x > 0.0
    ensures x / high < x / low
  {
    var b := x / high;
    DivideBack(x, high);
    DividePositive(x, high);
    StrictProduct(low, high, b);
    DivideStrict(low * b, x, low);
    DivideBack(b, low);
  }

  lemma DivideStrict(a: real, b: real, c: real)
    requires a < b && c > 0.0
    ensures a / c < b / c
  {
    DividePositive(b - a, c);
    assert (b - a) / c == b / c - a / c;
  }

  lemma DividePositive(x: real, y: real)
    requires x > 0.0 && y > 0.0
    ensures x / y > 0.0
  {
  }

  lemma PeakPositive(initial: real, pnls: seq<real>, j: nat) returns (i: nat)
    requires initial > 0.0 && j <= |pnls|
    ensures i <= j && PeakAt(initial, pnls, j) == EquityAt(initial, pnls, i) > 0.0
    ensures DrawdownAt(initial, pnls, j) == Fall(initial, pnls, i, j)
  {
    i := PeakIsMaximum(initial, pnls, j);
    assert pnls[..0] == [];
    assert EquityAt(initial, pnls, 0) == initial;
  }

  /** At a point that is not below zero the drawdown is the worst fall ending there, and lies in [0, 1]. */
  lemma DrawdownIsWorstFall(initial: real, pnls: seq<real>, j: nat) returns (i: nat)
    requires initial > 0.0 && j <= |pnls| && EquityAt(initial, pnls, j) >= 0.0
    ensures i <= j && EquityAt(initial, pnls, i) > 0.0 && DrawdownAt(initial, pnls, j) == Fall(initial, pnls, i, j)
    ensures WorstAt(initial, pnls, j, Fall(initial, pnls, i, j))
    ensures 0.0 <= Fall(initial, pnls, i, j) <= 1.0
  {
    i := PeakPositive(initial, pnls, j);
    var top := PeakIsMaximum(initial, pnls, j);
    var peak, e := PeakAt(initial, pnls, j), EquityAt(initial, pnls, j);
    forall k | 0 <= k <= j && EquityAt(initial, pnls, k) > 0.0
      ensures Fall(initial, pnls, k, j) <= Fall(initial, pnls, i, j)
    {
      FallMonotone(EquityAt(initial, pnls, k), peak, e);
    }
    WithinOne(peak, e);
  }

  lemma WithinOne(peak: real, e: real)
    requires 0.0 <= e <= peak && peak > 0.0
    ensures 0.0 <= (peak - e) / peak <= 1.0
  {
    DivideMonotone(0.0, peak - e, peak);
    DivideMonotone(0.0, e, peak);
    assert 0.0 / peak == 0.0;
    ShareLost(peak, e);
  }

  /** No fall to point j from a point of positive equity is deeper than this. */
  ghost predicate WorstAt(initial: real, pnls: seq<real>, j: nat, depth: real)
    requires j <= |pnls|
  {
    forall k :: 0 <= k <= j && EquityAt(initial, pnls, k) > 0.0 ==> Fall(initial, pnls, k, j) <= depth
  }

  /** The single pass shows the worst fall to a point if and only if equity there is not negative, or every earlier
      point of positive equity stands at the peak. */
  lemma WorstFallExactlyWhen(initial: real, pnls: seq<real>, j: nat)
    requires initial > 0.0 && j <= |pnls|
    ensures WorstAt(initial, pnls, j, DrawdownAt(initial, pnls, j))
       <==> (EquityAt(initial, pnls, j) >= 0.0
             || forall k :: 0 <= k <= j && EquityAt(initial, pnls, k) > 0.0
                  ==> EquityAt(initial, pnls, k) == PeakAt(initial, pnls, j))
  {
    var e, peak := EquityAt(initial, pnls, j), PeakAt(initial, pnls, j);
    var i := PeakPositive(initial, pnls, j);
    var top := PeakIsMaximum(initial, pnls, j);
    if e >= 0.0 {
      var w := DrawdownIsWorstFall(initial, pnls, j);
    } else {
      forall k | 0 <= k <= j && 0.0 < EquityAt(initial, pnls, k) < peak
        ensures Fall(initial, pnls, k, j) > DrawdownAt(initial, pnls, j)
      {
        FallSteeper(EquityAt(initial, pnls, k), peak, e);
      }
    }
  }

  ghost predicate CurveOf(initial: real, trades: seq<Trade>, curve: seq<Point>) {
    |curve| == |trades| + 1 && forall j :: 0 <= j < |curve| ==> curve[j] == PointAt(initial, trades, j)
  }

  /** The fall from i to j is the largest from any earlier point of positive equity to any later point up to n. */
  ghost predicate WorstUpTo(initial: real, pnls: seq<real>, n: nat, i: nat, j: nat)
    requires n <= |pnls|
  {
    && i <= j <= n && EquityAt(initial, pnls, i) > 0.0
    && forall m :: 0 <= m <= n ==> WorstAt(initial, pnls, m, Fall(initial, pnls, i, j))
  }

  lemma WorstNext(initial: real, pnls: seq<real>, n: nat, i: nat, j: nat, k: nat) returns (i': nat, j': nat)
    requires 0 < n <= |pnls| && WorstUpTo(initial, pnls, n - 1, i, j)
    requires k <= n && EquityAt(initial, pnls, k) > 0.0 && WorstAt(initial, pnls, n, Fall(initial, pnls, k, n))
    ensures WorstUpTo(initial, pnls, n, i', j')
    ensures Fall(initial, pnls, i', j') == Max(Fall(initial, pnls, i, j), Fall(initial, pnls, k, n))
  {
    var a, b := Fall(initial, pnls, i, j), Fall(initial, pnls, k, n);
    if a < b { i', j' := k, n; } else { i', j' := i, j; }
    var worst := Fall(initial, pnls, i', j');
    forall m | 0 <= m <= n ensures WorstAt(initial, pnls, m, worst) {
      WorstWider(initial, pnls, m, if m < n then a else b, worst);
    }
  }

  lemma WorstWider(initial: real, pnls: seq<real>, m: nat, a: real, b: real)
    requires m <= |pnls| && WorstAt(initial, pnls, m, a) && a <= b
    ensures WorstAt(initial, pnls, m, b)
  {
  }

  /**
   While equity stays at or above zero, the curve's maximum drawdown is the rounded largest fall
   between any earlier and any later point, and rounding it again changes nothing.
   */
  lemma {:induction false} FastDrawdownIsQuadratic(initial: real, trades: seq<Trade>, curve: seq<Point>, n: nat)
    returns (i: nat, j: nat)
    requires CurveOf(initial, trades, curve) && StaysSolvent(initial, Pnls(trades)) && n <= |trades|
    ensures WorstUpTo(initial, Pnls(trades), n, i, j)
    ensures MaxDrawdown(curve[..n + 1]) == RoundTo(Fall(initial, Pnls(trades), i, j), SIX_DIGITS)
    ensures 0.0 <= MaxDrawdown(curve[..n + 1]) <= 1.0
    ensures RoundTo(MaxDrawdown(curve[..n + 1]), SIX_DIGITS) == MaxDrawdown(curve[..n + 1])
    decreases n
  {
    i, j := WorstPair(initial, trades, curve, n);
    var w := DrawdownIsWorstFall(initial, Pnls(trades), j);
    FallAtSelf(initial, Pnls(trades), i);
    assert WorstAt(initial, Pnls(trades), i, Fall(initial, Pnls(trades), i, j));
    assert Fall(initial, Pnls(trades), i, i) <= Fall(initial, Pnls(trades), i, j);
    assert Fall(initial, Pnls(trades), i, j) <= Fall(initial, Pnls(trades), w, j);
    RoundedShare(Fall(initial, Pnls(trades), i, j));
  }

  lemma FallAtSelf(initial: real, pnls: seq<real>, i: nat)
    requires i <= |pnls| && EquityAt(initial, pnls, i) > 0.0
    ensures Fall(initial, pnls, i, i) == 0.0
  {
    assert 0.0 / EquityAt(initial, pnls, i) == 0.0;
  }

  lemma {:induction false} WorstPair(initial: real, trades: seq<Trade>, curve: seq<Point>, n: nat)
    returns (i: nat, j: nat)
    requires CurveOf(initial, trades, curve) && StaysSolvent(initial, Pnls(trades)) && n <= |trades|
    ensures WorstUpTo(initial, Pnls(trades), n, i, j)
    ensures MaxDrawdown(curve[..n + 1]) == RoundTo(Fall(initial, Pnls(trades), i, j), SIX_DIGITS)
    decreases n
  {
    var pnls := Pnls(trades);
    if n == 0 {
      i, j := 0, 0;
      SeedDrawdown(initial, trades, curve);
    } else {
      i, j := WorstPair(initial, trades, curve, n - 1);
      var k := DrawdownIsWorstFall(initial, pnls, n);
      CurveGrows(initial, trades, curve, n, Fall(initial, pnls, i, j), Fall(initial, pnls, k, n));
      i, j := WorstNext(initial, pnls, n, i, j, k);
    }
  }

  lemma CurveGrows(initial: real, trades: seq<Trade>, curve: seq<Point>, n: nat, worst: real, fall: real)
    requires CurveOf(initial, trades, curve) && 0 < n <= |trades|
    requires MaxDrawdown(curve[..n]) == RoundTo(worst, SIX_DIGITS) && DrawdownAt(initial, Pnls(trades), n) == fall
    ensures MaxDrawdown(curve[..n + 1]) == RoundTo(Max(worst, fall), SIX_DIGITS)
  {
    assert curve[..n + 1][..n] == curve[..n];
    assert curve[n] == PointAt(initial, trades, n);
    RoundMax(worst, fall, SIX_DIGITS);
  }

  lemma SeedDrawdown(initial: real, trades: seq<Trade>, curve: seq<Point>)
    requires CurveOf(initial, trades, curve) && initial > 0.0
    ensures EquityAt(initial, Pnls(trades), 0) == initial && Fall(initial, Pnls(trades), 0, 0) == 0.0
    ensures MaxDrawdown(curve[..1]) == RoundTo(0.0, SIX_DIGITS)
  {
    assert Pnls(trades)[..0] == [];
    assert curve[..1] == [curve[0]];
    assert curve[0] == PointAt(initial, trades, 0);
    RoundZero(SIX_DIGITS);
  }

  lemma RoundedShare(x: real)
    requires 0.0 <= x <= 1.0
    ensures 0.0 <= RoundTo(x, SIX_DIGITS) <= 1.0
    ensures RoundTo(RoundTo(x, SIX_DIGITS), SIX_DIGITS) == RoundTo(x, SIX_DIGITS)
  {
    RoundZero(SIX_DIGITS);
    RoundWhole(1000000, SIX_DIGITS);
    RoundMonotone(0.0, x, SIX_DIGITS);
    RoundMonotone(x, 1.0, SIX_DIGITS);
    RoundIdempotent(x, SIX_DIGITS);
  }

  /** A point's drawdown exceeds 1 exactly when equity there is negative. */
  lemma DrawdownPastOneIff(initial: real, pnls: seq<real>, j: nat)
    requires initial > 0.0 && j <= |pnls|
    ensures DrawdownAt(initial, pnls, j) > 1.0 <==> EquityAt(initial, pnls, j) < 0.0
  {
    var i := PeakIsMaximum(initial, pnls, j);
    assert pnls[..0] == [];
    assert EquityAt(initial, pnls, 0) == initial;
    var peak, e := PeakAt(initial, pnls, j), EquityAt(initial, pnls, j);
    var q := e / peak;
    ShareLost(peak, e);
    assert q * peak == e;
    if e < 0.0 && q >= 0.0 { ProductNonNegative(q, peak); }
    if e >= 0.0 { DivideMonotone(0.0, e, peak); }
  }

  /** For instance from 1 up to 2 and down to -1: the fall from the first point is the worse one. */
  lemma NegativeEquityBreaksQuadratic()
    ensures DrawdownAt(1.0, [1.0, -3.0], 2) == 1.5 && Fall(1.0, [1.0, -3.0], 0, 2) == 2.0
    ensures !WorstAt(1.0, [1.0, -3.0], 2, DrawdownAt(1.0, [1.0, -3.0], 2))
  {
    var p := [1.0, -3.0];
    assert p[..0] == [];
    EquityNext(1.0, p, 0);
    EquityNext(1.0, p, 1);
    assert PeakAt(1.0, p, 1) == 2.0;
    assert PeakAt(1.0, p, 2) == 2.0;
    assert Fall(1.0, p, 0, 2) > DrawdownAt(1.0, p, 2);
  }

  // ---------- conservation ----------

  /** Half a unit of the fourth decimal, the error of one rounding. */
  const HALF_UNIT := 0.00005

  /** x and y are no more than n such errors apart. */
  predicate Near(x: real, y: real, n: nat) { Abs(x - y) <= Slack(n, HALF_UNIT) }

  function Result(t: Trade): real { t.pnl }

  lemma PnlsPermutation(a: seq<Trade>, b: seq<Trade>)
    requires multiset(a) == multiset(b)
    ensures Sum(Pnls(a)) == Sum(Pnls(b))
  {
    TotalPermutation(a, b, Result);
    assert Pnls(a) == Amounts(a, Result) && Pnls(b) == Amounts(b, Result);
  }

  /**
   The last point of the reported curve is the initial equity plus the exact result of every
   trade, to within half a unit of the fourth decimal per trade and one more for the point.
   */
  lemma CurveConserves(cfg: Config, hist: History, data: MacroData, curve: seq<Point>)
    requires ValidConfig(cfg)
    requires CurveOf(cfg.initialEquity, Sorting.SortBy(FinalTrades(cfg, hist, data), ExitTime), curve)
    ensures var trades := FinalTrades(cfg, hist, data);
      Near(curve[|curve| - 1].equity, cfg.initialEquity + Sum(Nets(cfg, trades)), |trades| + 1)
  {
    EveryAdmissionOneTrade(cfg, hist, data);
    CurveClose(cfg, FinalPositions(cfg, hist, data), FinalTrades(cfg, hist, data), cfg.initialEquity, curve);
  }

  lemma CurveClose(cfg: Config, ps: seq<Position>, trades: seq<Trade>, initial: real, curve: seq<Point>)
    requires AllSettled(cfg, ps, trades) && CurveOf(initial, Sorting.SortBy(trades, ExitTime), curve)
    ensures Near(curve[|curve| - 1].equity, initial + Sum(Nets(cfg, trades)), |trades| + 1)
  {
    SortedPnls(trades);
    PnlsClose(cfg, ps, trades);
    LastPointClose(initial, Sorting.SortBy(trades, ExitTime), curve);
    AddRoundings(curve[|curve| - 1].equity, initial, Sum(Pnls(trades)), Sum(Nets(cfg, trades)), |trades|);
  }

  lemma SortedPnls(trades: seq<Trade>)
    ensures Sum(Pnls(Sorting.SortBy(trades, ExitTime))) == Sum(Pnls(trades))
  {
    Sorting.SortByIsSort(trades, ExitTime);
    PnlsPermutation(Sorting.SortBy(trades, ExitTime), trades);
  }

  lemma AddRoundings(last: real, initial: real, s: real, e: real, n: nat)
    requires Abs(last - (initial + s)) <= HALF_UNIT && Near(s, e, n)
    ensures Near(last, initial + e, n + 1)
  {
    SlackNext(n, HALF_UNIT);
  }

  lemma PnlsClose(cfg: Config, ps: seq<Position>, trades: seq<Trade>)
    requires AllSettled(cfg, ps, trades)
    ensures Near(Sum(Pnls(trades)), Sum(Nets(cfg, trades)), |trades|)
  {
    forall i | 0 <= i < |trades| ensures Abs(Pnls(trades)[i] - Nets(cfg, trades)[i]) <= HALF_UNIT {
      assert Settles(cfg, ps[i], trades[i]);
      RoundClose(TradeNet(cfg, trades[i]), FOUR_DIGITS);
    }
    SumsClose(Pnls(trades), Nets(cfg, trades), HALF_UNIT);
  }

  lemma LastPointClose(initial: real, sorted: seq<Trade>, curve: seq<Point>)
    requires CurveOf(initial, sorted, curve)
    ensures Abs(curve[|curve| - 1].equity - (initial + Sum(Pnls(sorted)))) <= HALF_UNIT
  {
    var n := |sorted|;
    assert curve[n] == PointAt(initial, sorted, n);
    assert Pnls(sorted)[..n] == Pnls(sorted);
    RoundClose(EquityAt(initial, Pnls(sorted), n), FOUR_DIGITS);
  }

  /** The curve is in exit order: a seed, then one point per trade, none before an earlier one, and of trades that end
      together in the order they were reported. */
  lemma CurveInExitOrder(initial: real, trades: seq<Trade>, curve: seq<Point>)
    requires CurveOf(initial, Sorting.SortBy(trades, ExitTime), curve)
    ensures |curve| == |trades| + 1 && curve[0].at == None
    ensures forall i :: 1 <= i < |curve| ==> curve[i].at.Some?
    ensures forall i, j :: 1 <= i < j < |curve| ==> curve[i].at.value <= curve[j].at.value
    ensures forall i, j :: 0 <= i < j < |trades| && trades[i].exitTs <= trades[j].exitTs ==>
      Sorting.Precedes(Sorting.SortBy(trades, ExitTime), trades[i], trades[j])
  {
    var sorted := Sorting.SortBy(trades, ExitTime);
    Sorting.SortByIsSort(trades, ExitTime);
    forall i, j | 1 <= i < j < |curve| ensures curve[i].at.value <= curve[j].at.value {
      assert ExitTime(sorted[i - 1]) <= ExitTime(sorted[j - 1]);
    }
    forall i, j | 0 <= i < j < |trades| && trades[i].exitTs <= trades[j].exitTs
      ensures Sorting.Precedes(sorted, trades[i], trades[j])
    {
      Sorting.SortIsStable(trades, ExitTime, i, j);
    }
  }

  /** An account that never had anything loses no share of it. */
  lemma NothingToLose(initial: real, pnls: seq<real>, j: nat)
    requires j <= |pnls| && forall k :: 0 <= k <= j ==> EquityAt(initial, pnls, k) <= 0.0
    ensures DrawdownAt(initial, pnls, j) == 0.0
  {
    var i := PeakIsMaximum(initial, pnls, j);
  }
}
