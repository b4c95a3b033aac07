/** Historical value at risk and expected shortfall on exact returns. */
module TailRisk {
  import opened Numerics
  import Sorting

  function Itself(r: real): real { r }

  function Ascending(rets: seq<real>): seq<real> { Sorting.SortBy(rets, Itself) }

  /** Python's int(): towards zero. */
  function Truncate(x: real): int { if x >= 0.0 then x.Floor else -((-x).Floor) }

  /** How many of n returns lie beyond the confidence, before truncation. */
  function Beyond(n: real, confidence: real): real { n * (1.0 - confidence) }

  function VarIndex(n: nat, confidence: real): int { MaxInt(0, Truncate(Beyond(n as real, confidence)) - 1) }

  /** The source raises when a confidence below 0 indexes past the end; every other confidence is in range. */
  predicate Indexes(rets: seq<real>, confidence: real) { |rets| < 20 || VarIndex(|rets|, confidence) < |rets| }

  function HistoricalVar(rets: seq<real>, confidence: real): real
    requires Indexes(rets, confidence)
  {
    if |rets| < 20 then 0.0
    else
      SortedLength(rets);
      Ascending(rets)[VarIndex(|rets|, confidence)]
  }

  function AtMost(v: real): real -> bool { (r: real) => r <= v }

  function Tail(rets: seq<real>, v: real): seq<real> { Sorting.Keep(rets, AtMost(v)) }

  function ConditionalVar(rets: seq<real>, confidence: real): real
    requires Indexes(rets, confidence)
  {
    var v := HistoricalVar(rets, confidence);
    if v == 0.0 && |rets| < 20 then 0.0
    else
      var tail := Tail(rets, v);
      if tail == [] then 0.0 else Sum(tail) / |tail| as real
  }

  lemma SortedLength(rets: seq<real>)
    ensures |Ascending(rets)| == |rets|
  {
    Sorting.SortByIsSort(rets, Itself);
  }

  lemma TruncateMonotone(x: real, y: real)
    requires x <= y
    ensures Truncate(x) <= Truncate(y)
  {
  }

  lemma IndexInRange(rets: seq<real>, confidence: real)
    requires confidence >= 0.0
    ensures Indexes(rets, confidence)
  {
    var n := |rets| as real;
    BeyondMonotone(n, 0.0, confidence);
    TruncateMonotone(Beyond(n, confidence), n);
    assert Truncate(n) == |rets|;
  }

  lemma BeyondMonotone(n: real, c: real, d: real)
    requires n >= 0.0 && c <= d
    ensures Beyond(n, d) <= Beyond(n, c) && Beyond(n, 0.0) == n
  {
    BeyondGap(n, c, d);
    ProductNonNegative(n, d - c);
  }

  lemma BeyondGap(n: real, c: real, d: real)
    ensures Beyond(n, c) - Beyond(n, d) == n * (d - c)
  {
  }

  // ---------- the tail and its mean ----------

  lemma VarIsReturn(rets: seq<real>, confidence: real)
    requires Indexes(rets, confidence) && |rets| >= 20
    ensures HistoricalVar(rets, confidence) in rets
  {
    SortedLength(rets);
    Sorting.SortElements(rets, Itself);
    assert Ascending(rets)[VarIndex(|rets|, confidence)] in Ascending(rets);
  }

  lemma TailNotEmpty(rets: seq<real>, confidence: real)
    requires Indexes(rets, confidence) && |rets| >= 20
    ensures var v := HistoricalVar(rets, confidence); v in Tail(rets, v) && Tail(rets, v) != []
  {
    VarIsReturn(rets, confidence);
    Sorting.KeepElements(rets, AtMost(HistoricalVar(rets, confidence)));
  }

  lemma {:induction false} MeanAtMost(s: seq<real>, v: real)
    requires forall i :: 0 <= i < |s| ==> s[i] <= v
    ensures Sum(s) <= |s| as real * v
  {
    if s != [] {
      var n := |s| - 1;
      MeanAtMost(s[..n], v);
      assert (n + 1) as real * v == n as real * v + v;
    }
  }

  function Mean(s: seq<real>): real
    requires s != []
  {
    Sum(s) / |s| as real
  }

  lemma MeanBelow(s: seq<real>, v: real)
    requires s != [] && forall i :: 0 <= i < |s| ==> s[i] <= v
    ensures Mean(s) <= v
  {
    MeanAtMost(s, v);
    DivideMonotone(Sum(s), |s| as real * v, |s| as real);
    assert |s| as real * v / |s| as real == v;
  }

  /** Expected shortfall never exceeds value at risk, and value at risk is one of the returns. */
  lemma ShortfallBelowVar(rets: seq<real>, confidence: real)
    requires Indexes(rets, confidence) && |rets| >= 20
    ensures ConditionalVar(rets, confidence) <= HistoricalVar(rets, confidence)
    ensures HistoricalVar(rets, confidence) in rets
  {
    var v := HistoricalVar(rets, confidence);
    VarIsReturn(rets, confidence);
    ShortfallIsMean(rets, confidence);
    TailBelow(rets, v);
    MeanBelow(Tail(rets, v), v);
  }

  lemma TailBelow(rets: seq<real>, v: real)
    ensures forall i :: 0 <= i < |Tail(rets, v)| ==> Tail(rets, v)[i] <= v
  {
    Sorting.KeepElements(rets, AtMost(v));
    forall i | 0 <= i < |Tail(rets, v)| ensures Tail(rets, v)[i] <= v {
      assert Tail(rets, v)[i] in Tail(rets, v);
    }
  }

  // ---------- monotone in the confidence ----------

  lemma IndexMonotone(n: nat, c: real, d: real)
    requires c <= d
    ensures VarIndex(n, d) <= VarIndex(n, c)
  {
    BeyondMonotone(n as real, c, d);
    TruncateMonotone(Beyond(n as real, d), Beyond(n as real, c));
  }

  lemma VarMonotone(rets: seq<real>, c: real, d: real)
    requires c <= d && Indexes(rets, c) && Indexes(rets, d)
    ensures HistoricalVar(rets, d) <= HistoricalVar(rets, c)
  {
    if |rets| >= 20 {
      SortedLength(rets);
      IndexMonotone(|rets|, c, d);
      Sorting.SortByIsSort(rets, Itself);
      var s, i, j := Ascending(rets), VarIndex(|rets|, d), VarIndex(|rets|, c);
      if i < j { assert Itself(s[i]) <= Itself(s[j]); }
    }
  }

  /** Widening the tail from v to w adds only returns above v. */
  lemma {:induction false} TailGrows(rets: seq<real>, v: real, w: real)
    requires v <= w
    ensures |Tail(rets, v)| <= |Tail(rets, w)|
    ensures Sum(Tail(rets, w)) >= Sum(Tail(rets, v)) + (|Tail(rets, w)| - |Tail(rets, v)|) as real * v
  {
    if rets != [] {
      var r, rest := rets[0], rets[1..];
      TailGrows(rest, v, w);
      TailsGrow(r, rest, v, w);
      assert rets == [r] + rest;
    }
  }

  lemma TailsGrow(r: real, rest: seq<real>, v: real, w: real)
    requires v <= w && |Tail(rest, v)| <= |Tail(rest, w)|
    requires Sum(Tail(rest, w)) >= Sum(Tail(rest, v)) + (|Tail(rest, w)| - |Tail(rest, v)|) as real * v
    ensures |Tail([r] + rest, v)| <= |Tail([r] + rest, w)|
    ensures Sum(Tail([r] + rest, w))
         >= Sum(Tail([r] + rest, v)) + (|Tail([r] + rest, w)| - |Tail([r] + rest, v)|) as real * v
  {
    TailCons(r, rest, v);
    TailCons(r, rest, w);
    TailStep(r, v, w, |Tail(rest, v)|, |Tail(rest, w)|, Sum(Tail(rest, v)), Sum(Tail(rest, w)));
  }

  lemma TailCons(r: real, rest: seq<real>, v: real)
    ensures |Tail([r] + rest, v)| == |Tail(rest, v)| + if r <= v then 1 else 0
    ensures Sum(Tail([r] + rest, v)) == Sum(Tail(rest, v)) + if r <= v then r else 0.0
  {
    Sorting.KeepCons(r, rest, AtMost(v));
    if r <= v {
      SumAppend([r], Tail(rest, v));
      SumOne(r);
    }
  }

  lemma TailStep(r: real, v: real, w: real, m: int, n: int, a: real, b: real)
    requires v <= w && m <= n && b >= a + (n - m) as real * v
    ensures var m', n' := m + (if r <= v then 1 else 0), n + (if r <= w then 1 else 0);
      b + (if r <= w then r else 0.0) >= a + (if r <= v then r else 0.0) + (n' - m') as real * v
  {
    if v < r <= w { assert (n + 1 - m) as real * v == (n - m) as real * v + v; }
  }

  lemma MeanRises(a: real, m: nat, b: real, n: nat, v: real)
    requires 0 < m <= n && a <= m as real * v && b >= a + (n - m) as real * v
    ensures a / m as real <= b / n as real
  {
    var p, q := m as real, n as real;
    var mean := a / p;
    DivideBack(a, p);
    DivideBack(v, p);
    DivideMonotone(a, p * v, p);
    assert p * v == v * p;
    ProductMonotone(mean, v, q - p);
    Weighted(a, b, mean, v, p, q);
    DivideMonotone(mean * q, b, q);
    DivideBack(mean, q);
  }

  lemma Weighted(a: real, b: real, mean: real, v: real, p: real, q: real)
    requires mean * p == a && mean * (q - p) <= v * (q - p) && b >= a + (q - p) * v
    ensures mean * q <= b
  {
    assert mean * q == mean * p + mean * (q - p);
    assert v * (q - p) == (q - p) * v;
  }

  lemma TailMeans(rets: seq<real>, v: real, w: real)
    requires v <= w && Tail(rets, v) != [] && Tail(rets, w) != []
    ensures Mean(Tail(rets, v)) <= Mean(Tail(rets, w))
  {
    TailGrows(rets, v, w);
    TailBelow(rets, v);
    MeanAtMost(Tail(rets, v), v);
    MeanRises(Sum(Tail(rets, v)), |Tail(rets, v)|, Sum(Tail(rets, w)), |Tail(rets, w)|, v);
  }

  lemma ShortfallIsMean(rets: seq<real>, confidence: real)
    requires Indexes(rets, confidence) && |rets| >= 20
    ensures var v := HistoricalVar(rets, confidence);
      Tail(rets, v) != [] && ConditionalVar(rets, confidence) == Mean(Tail(rets, v))
  {
    TailNotEmpty(rets, confidence);
  }

  /** Raising the confidence lowers or keeps both measures. */
  lemma RiskMonotone(rets: seq<real>, c: real, d: real)
    requires c <= d && Indexes(rets, c) && Indexes(rets, d)
    ensures HistoricalVar(rets, d) <= HistoricalVar(rets, c)
    ensures ConditionalVar(rets, d) <= ConditionalVar(rets, c)
  {
    VarMonotone(rets, c, d);
    if |rets| >= 20 {
      ShortfallIsMean(rets, c);
      ShortfallIsMean(rets, d);
      TailMeans(rets, HistoricalVar(rets, d), HistoricalVar(rets, c));
    }
  }

  /** Fewer than twenty returns say nothing. */
  lemma SmallSamples(rets: seq<real>, confidence: real)
    requires |rets| < 20
    ensures HistoricalVar(rets, confidence) == 0.0 && ConditionalVar(rets, confidence) == 0.0
  {
  }

  /** The shortfall is the mean of the returns that are no better than value at risk. */
  lemma ShortfallOfTail(rets: seq<real>, confidence: real)
    requires Indexes(rets, confidence) && |rets| >= 20
    ensures var tail := Sorting.Keep(rets, (r: real) => r <= HistoricalVar(rets, confidence));
      ConditionalVar(rets, confidence) * |tail| as real == Sum(tail)
  {
    var v := HistoricalVar(rets, confidence);
    ShortfallIsMean(rets, confidence);
    KeepSame(rets, AtMost(v), (r: real) => r <= v);
    DivideBack(Sum(Tail(rets, v)), |Tail(rets, v)| as real);
  }

  lemma {:induction false} KeepSame(s: seq<real>, p: real -> bool, q: real -> bool)
    requires forall x :: p(x) <==> q(x)
    ensures Sorting.Keep(s, p) == Sorting.Keep(s, q)
  {
    if s != [] { KeepSame(s[1..], p, q); }
  }

  function Worse(v: real): real -> bool { (r: real) => r < v }

  /** Value at risk is the quantile: at most k returns are worse and more than k are no better, where k is one less than
      the whole number of returns beyond the confidence, or 0. */
  lemma VarIsQuantile(rets: seq<real>, confidence: real) returns (k: nat)
    requires 0.0 <= confidence <= 1.0 && |rets| >= 20
    ensures Indexes(rets, confidence)
    ensures |rets| as real * (1.0 - confidence) < (k + 2) as real
    ensures k > 0 ==> (k + 1) as real <= |rets| as real * (1.0 - confidence)
    ensures var v := HistoricalVar(rets, confidence);
      |Sorting.Keep(rets, Worse(v))| <= k < |Sorting.Keep(rets, AtMost(v))|
  {
    IndexInRange(rets, confidence);
    k := VarIndex(|rets|, confidence);
    BeyondMonotone(|rets| as real, confidence, 1.0);
    BeyondAll(|rets| as real);
    var v, sorted := HistoricalVar(rets, confidence), Ascending(rets);
    SortedLength(rets);
    Sorting.SortByIsSort(rets, Itself);
    Sorting.KeepSort(rets, Itself, Worse(v));
    Sorting.KeepSort(rets, Itself, AtMost(v));
    Sorting.SortByIsSort(Sorting.Keep(rets, Worse(v)), Itself);
    Sorting.SortByIsSort(Sorting.Keep(rets, AtMost(v)), Itself);
    RankOf(sorted, k);
  }

  lemma BeyondAll(n: real)
    ensures Beyond(n, 1.0) == 0.0
  {
  }

  lemma RankOf(sorted: seq<real>, k: nat)
    requires k < |sorted| && Sorting.Sorted(sorted, Itself)
    ensures |Sorting.Keep(sorted, Worse(sorted[k]))| <= k < |Sorting.Keep(sorted, AtMost(sorted[k]))|
  {
    var v := sorted[k];
    forall i, j | 0 <= i < j < |sorted| ensures sorted[i] <= sorted[j] {
      assert Itself(sorted[i]) <= Itself(sorted[j]);
    }
    assert sorted == sorted[..k] + sorted[k..] && sorted == sorted[..k + 1] + sorted[k + 1..];
    Sorting.KeepAppend(sorted[..k], sorted[k..], Worse(v));
    Sorting.KeepNone(sorted[k..], Worse(v));
    KeepAtMost(sorted[..k], Worse(v));
    Sorting.KeepAppend(sorted[..k + 1], sorted[k + 1..], AtMost(v));
    Sorting.KeepAll(sorted[..k + 1], AtMost(v));
  }

  lemma {:induction false} KeepAtMost(s: seq<real>, p: real -> bool)
    ensures |Sorting.Keep(s, p)| <= |s|
  {
    if s != [] { KeepAtMost(s[1..], p); }
  }
}
