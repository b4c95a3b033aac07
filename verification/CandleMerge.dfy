/** What the chart relies on: connected candles, and coarse candles that are merges of fine ones. */
module CandleMerge {
  import opened Numerics
  import opened Candles

  // ---------- one grid ----------

  /** Every candle holds its open and close, and closes at the last snapshot taken before its end. */
  lemma CandleHolds(pts: seq<Snapshot>, tf: int, p: int)
    requires tf > 0 && InOrder(pts) && pts != []
    ensures var c := CandleAt(pts, p, tf);
      c.x == p && c.l <= c.o <= c.h && c.l <= c.c <= c.h && c.c == RoundTo(Held(pts, CountBefore(pts, p + tf)), CENTS)
  {
    CountBeforeMonotone(pts, p, p + tf);
    var w := Window(pts, CountBefore(pts, p), CountBefore(pts, p + tf));
    WindowShape(pts, CountBefore(pts, p), CountBefore(pts, p + tf));
    RoundMonotone(w.l, w.o, CENTS);
    RoundMonotone(w.o, w.h, CENTS);
    RoundMonotone(w.l, w.c, CENTS);
    RoundMonotone(w.c, w.h, CENTS);
  }

  function CentsOf(s: Snapshot): real { RoundTo(s.equity, CENTS) }

  predicate Inside(s: Snapshot, p: int, tf: int) { p <= s.ts < p + tf }

  /** High and low are, in cents, the highest and the lowest of the open and the snapshots inside the period. */
  lemma CandleIsRange(pts: seq<Snapshot>, tf: int, p: int)
    requires tf > 0 && InOrder(pts) && pts != []
    ensures var c := CandleAt(pts, p, tf);
      && (forall i :: 0 <= i < |pts| && Inside(pts[i], p, tf) ==> c.l <= CentsOf(pts[i]) <= c.h)
      && (c.h == c.o || exists i :: 0 <= i < |pts| && Inside(pts[i], p, tf) && CentsOf(pts[i]) == c.h)
      && (c.l == c.o || exists i :: 0 <= i < |pts| && Inside(pts[i], p, tf) && CentsOf(pts[i]) == c.l)
  {
    CountBeforeMonotone(pts, p, p + tf);
    CountBeforeSplits(pts, p);
    CountBeforeSplits(pts, p + tf);
    var lo, hi := CountBefore(pts, p), CountBefore(pts, p + tf);
    var w, b := Window(pts, lo, hi), pts[lo..hi];
    HighLowBounds(Held(pts, lo), b);
    forall i | 0 <= i < |pts| && Inside(pts[i], p, tf)
      ensures RoundTo(w.l, CENTS) <= CentsOf(pts[i]) <= RoundTo(w.h, CENTS)
    {
      assert pts[i] == b[i - lo];
      RoundMonotone(w.l, pts[i].equity, CENTS);
      RoundMonotone(pts[i].equity, w.h, CENTS);
    }
    if w.h != w.o {
      var i :| 0 <= i < |b| && b[i].equity == w.h;
      assert Inside(pts[lo + i], p, tf) && CentsOf(pts[lo + i]) == RoundTo(w.h, CENTS);
    }
    if w.l != w.o {
      var i :| 0 <= i < |b| && b[i].equity == w.l;
      assert Inside(pts[lo + i], p, tf) && CentsOf(pts[lo + i]) == RoundTo(w.l, CENTS);
    }
  }

  lemma WindowShape(pts: seq<Snapshot>, lo: nat, hi: nat)
    requires pts != [] && lo <= hi <= |pts|
    ensures var w := Window(pts, lo, hi); w.l <= w.o <= w.h && w.l <= w.c <= w.h
  {
    HighLowBounds(Held(pts, lo), pts[lo..hi]);
    if lo < hi { assert pts[hi - 1] == pts[lo..hi][hi - lo - 1]; }
  }

  /** Neighbouring candles are one timeframe apart, and each opens where the previous one closed. */
  lemma CandlesConnect(pts: seq<Snapshot>, tf: int, first: int, n: nat, k: nat)
    requires tf > 0 && InOrder(pts) && pts != [] && 0 < k < n
    ensures var cs := DenseFrom(pts, tf, first, n);
      cs[k].x == cs[k - 1].x + tf && cs[k].o == cs[k - 1].c
  {
    DenseAt(pts, tf, first, n, k);
    DenseAt(pts, tf, first, n, k - 1);
    GridNext(first, tf, k - 1);
    OpensAtClose(pts, Grid(first, tf, k - 1), tf);
  }

  lemma OpensAtClose(pts: seq<Snapshot>, p: int, tf: int)
    requires tf > 0 && InOrder(pts) && pts != []
    ensures CandleAt(pts, p + tf, tf).o == CandleAt(pts, p, tf).c
    ensures CandleAt(pts, p + tf, tf).x == CandleAt(pts, p, tf).x + tf
  {
  }

  lemma GridNext(first: int, tf: int, i: int)
    ensures Grid(first, tf, i) + tf == Grid(first, tf, i + 1)
  {
  }

  lemma GridOrder(first: int, tf: int, i: int, j: int)
    requires tf > 0
    ensures i <= j ==> Grid(first, tf, i) <= Grid(first, tf, j)
    ensures i < j ==> Grid(first, tf, i) + tf <= Grid(first, tf, j)
  {
    Steps(j - i, tf);
    assert (j - i) * tf == j * tf - i * tf;
  }

  // ---------- merging ----------

  function MergeRaw(a: Raw, b: Raw): Raw { Raw(a.o, Max(a.h, b.h), Min(a.l, b.l), b.c) }

  /** A window is the merge of its two halves, as long as the second half has a previous snapshot. */
  lemma WindowMerge(pts: seq<Snapshot>, lo: nat, mid: nat, hi: nat)
    requires pts != [] && lo <= mid <= hi <= |pts| && mid > 0
    ensures Window(pts, lo, hi) == MergeRaw(Window(pts, lo, mid), Window(pts, mid, hi))
  {
    assert pts[lo..hi] == pts[lo..mid] + pts[mid..hi];
    if lo < mid { assert pts[lo..mid][mid - 1 - lo].equity == Held(pts, mid); }
    HighLowAppend(Held(pts, lo), pts[lo..mid], pts[mid..hi], Held(pts, mid));
  }

  function Merge(a: Candle, b: Candle): Candle { Candle(a.x, a.o, Max(a.h, b.h), Min(a.l, b.l), b.c) }

  /** First open, highest high, lowest low, last close of a run of candles. */
  function MergeAll(cs: seq<Candle>): Candle
    requires cs != []
  {
    if |cs| == 1 then cs[0] else Merge(MergeAll(cs[..|cs| - 1]), cs[|cs| - 1])
  }

  lemma RoundedMerge(x: int, y: int, a: Raw, b: Raw)
    ensures Rounded(x, MergeRaw(a, b)) == Merge(Rounded(x, a), Rounded(y, b))
  {
    RoundMax(a.h, b.h, CENTS);
    RoundMin(a.l, b.l, CENTS);
  }

  /** The candle stamped x of everything from time p to time q. */
  ghost function Span(pts: seq<Snapshot>, x: int, p: int, q: int): Candle
    requires InOrder(pts) && pts != [] && p <= q
  {
    CountBeforeMonotone(pts, p, q);
    Rounded(x, Window(pts, CountBefore(pts, p), CountBefore(pts, q)))
  }

  lemma SpanNext(pts: seq<Snapshot>, x: int, p: int, q: int, tf: int)
    requires tf > 0 && InOrder(pts) && pts != [] && p <= q && CountBefore(pts, q) > 0
    ensures Span(pts, x, p, q + tf) == Merge(Span(pts, x, p, q), CandleAt(pts, q, tf))
  {
    CountBeforeMonotone(pts, p, q);
    CountBeforeMonotone(pts, q, q + tf);
    var lo, mid, hi := CountBefore(pts, p), CountBefore(pts, q), CountBefore(pts, q + tf);
    WindowMerge(pts, lo, mid, hi);
    RoundedMerge(x, q, Window(pts, lo, mid), Window(pts, mid, hi));
  }

  lemma MergeLast(cs: seq<Candle>, a: nat, b: nat)
    requires a <= b < |cs|
    ensures MergeAll(cs[a..b + 1]) == if a == b then cs[b] else Merge(MergeAll(cs[a..b]), cs[b])
  {
    assert cs[a..b + 1][..b - a] == cs[a..b];
  }

  lemma SeenBy(pts: seq<Snapshot>, tf: int, first: int, k: nat)
    requires tf > 0 && InOrder(pts) && pts != [] && pts[0].ts < first + tf && k >= 1
    ensures CountBefore(pts, Grid(first, tf, k)) > 0
  {
    GridOrder(first, tf, 1, k);
    CountBeforeSplits(pts, Grid(first, tf, k));
  }

  /** Merging candles a to b - 1 gives the candle of the whole span. */
  ghost predicate MergesTo(pts: seq<Snapshot>, tf: int, first: int, n: nat, a: nat, b: nat)
    requires tf > 0 && InOrder(pts) && pts != [] && pts[0].ts < first + tf && a < b <= n
  {
    && Grid(first, tf, a) <= Grid(first, tf, b)
    && MergeAll(DenseFrom(pts, tf, first, n)[a..b])
      == Span(pts, Grid(first, tf, a), Grid(first, tf, a), Grid(first, tf, b))
  }

  lemma {:induction false} MergeRange(pts: seq<Snapshot>, tf: int, first: int, n: nat, a: nat, b: nat)
    requires tf > 0 && InOrder(pts) && pts != [] && pts[0].ts < first + tf && a < b <= n
    ensures MergesTo(pts, tf, first, n, a, b)
    decreases b
  {
    if b - a > 1 {
      MergeRange(pts, tf, first, n, a, b - 1);
      MergesNext(pts, tf, first, n, a, b - 1, b);
    } else {
      MergesOne(pts, tf, first, n, a, b);
    }
  }

  lemma MergesOne(pts: seq<Snapshot>, tf: int, first: int, n: nat, a: nat, b: nat)
    requires tf > 0 && InOrder(pts) && pts != [] && pts[0].ts < first + tf && a < n && b == a + 1
    ensures MergesTo(pts, tf, first, n, a, b)
  {
    MergeLast(DenseFrom(pts, tf, first, n), a, a);
    SpanStarts(pts, tf, first, n, a, b);
  }

  lemma MergesNext(pts: seq<Snapshot>, tf: int, first: int, n: nat, a: nat, b: nat, c: nat)
    requires tf > 0 && InOrder(pts) && pts != [] && pts[0].ts < first + tf && a < b < n && c == b + 1
    requires MergesTo(pts, tf, first, n, a, b)
    ensures MergesTo(pts, tf, first, n, a, c)
  {
    var cs := DenseFrom(pts, tf, first, n);
    SpanGrows(pts, tf, first, n, a, b, c);
    MergeOneMore(cs, a, b, c, MergeAll(cs[a..b]));
  }

  lemma MergeOneMore(cs: seq<Candle>, a: nat, b: nat, c: nat, merged: Candle)
    requires a < b < |cs| && c == b + 1 && MergeAll(cs[a..b]) == merged
    ensures MergeAll(cs[a..c]) == Merge(merged, cs[b])
  {
    MergeLast(cs, a, b);
  }

  lemma SpanStarts(pts: seq<Snapshot>, tf: int, first: int, n: nat, a: nat, b: nat)
    requires tf > 0 && InOrder(pts) && pts != [] && pts[0].ts < first + tf && a < n && b == a + 1
    ensures Grid(first, tf, a) <= Grid(first, tf, b)
    ensures DenseFrom(pts, tf, first, n)[a] == Span(pts, Grid(first, tf, a), Grid(first, tf, a), Grid(first, tf, b))
  {
    DenseAt(pts, tf, first, n, a);
    GridNext(first, tf, a);
  }

  lemma SpanGrows(pts: seq<Snapshot>, tf: int, first: int, n: nat, a: nat, b: nat, c: nat)
    requires tf > 0 && InOrder(pts) && pts != [] && pts[0].ts < first + tf && a < b < n && c == b + 1
    ensures Grid(first, tf, a) <= Grid(first, tf, b) <= Grid(first, tf, c)
    ensures Span(pts, Grid(first, tf, a), Grid(first, tf, a), Grid(first, tf, c))
         == Merge(Span(pts, Grid(first, tf, a), Grid(first, tf, a), Grid(first, tf, b)),
           DenseFrom(pts, tf, first, n)[b])
  {
    GridOrder(first, tf, a, b);
    DenseAt(pts, tf, first, n, b);
    GridNext(first, tf, b);
    SeenBy(pts, tf, first, b);
    SpanNext(pts, Grid(first, tf, a), Grid(first, tf, a), Grid(first, tf, b), tf);
  }

  // ---------- a coarse grid over a fine one ----------

  /** Number of fine periods before time t, among the n of the grid. */
  function FineIndex(first: int, tf: int, n: nat, t: int): nat
    requires tf > 0
  {
    MaxInt(0, MinInt(n, (t - first) / tf))
  }

  lemma GridDistance(f: int, t: int, tf: int)
    requires tf > 0 && f % tf == 0 && t % tf == 0
    ensures Grid(f, tf, (t - f) / tf) == t
  {
    assert t == t / tf * tf && f == f / tf * tf;
    assert (t / tf - f / tf) * tf == t - f;
    MultipleOf(t / tf - f / tf, tf);
  }

  /** Clamping a time to the fine grid does not change what came before it. */
  lemma ClampKeepsCount(pts: seq<Snapshot>, tf: int, first: int, n: nat, t: int)
    requires InOrder(pts) && Covers(pts, tf, first, n) && t % tf == 0
    ensures CountBefore(pts, Grid(first, tf, FineIndex(first, tf, n, t))) == CountBefore(pts, t)
  {
    GridDistance(first, t, tf);
    var q := (t - first) / tf;
    GridOrder(first, tf, q, 0);
    GridOrder(first, tf, n, q);
    if q < 0 {
      CountBeforeIs(pts, Grid(first, tf, 0), 0);
      CountBeforeIs(pts, t, 0);
    } else if q > n {
      CountBeforeIs(pts, Grid(first, tf, n), |pts|);
      CountBeforeIs(pts, t, |pts|);
    }
  }

  /** A fine candle is numbered below a time's index exactly when it starts before the time. */
  lemma IndexIsPosition(first: int, tf: int, n: nat, t: int, i: nat)
    requires tf > 0 && first % tf == 0 && t % tf == 0 && i < n
    ensures FineIndex(first, tf, n, t) <= i <==> t <= Grid(first, tf, i)
  {
    GridDistance(first, t, tf);
    var q := (t - first) / tf;
    GridOrder(first, tf, q, i);
    GridOrder(first, tf, i, q);
  }

  lemma CoarseAligned(p: int, tf: int, w: int, k: int)
    requires tf > 0 && w == k * tf && w > 0 && p % w == 0
    ensures p % tf == 0
  {
    var q := p / w;
    assert p == q * w;
    assert q * (k * tf) == (q * k) * tf;
    MultipleOf(q * k, tf);
  }

  lemma GridAligned(first: int, tf: int, k: int)
    requires tf > 0 && first % tf == 0
    ensures Grid(first, tf, k) % tf == 0
  {
    assert first == first / tf * tf;
    assert (first / tf + k) * tf == first / tf * tf + k * tf;
    MultipleOf(first / tf + k, tf);
  }

  lemma BetweenIndexes(first: int, tf: int, n: nat, p: int, q: int)
    requires tf > 0 && first % tf == 0 && p % tf == 0 && q % tf == 0
    requires p < q && p < Grid(first, tf, n) && first < q && n >= 1
    ensures FineIndex(first, tf, n, p) < FineIndex(first, tf, n, q)
  {
    GridDistance(first, p, tf);
    GridDistance(first, q, tf);
    var a, b := (p - first) / tf, (q - first) / tf;
    GridOrder(first, tf, b, a);
    GridOrder(first, tf, n, a);
    GridOrder(first, tf, b, 0);
  }

  /**
   Resampling. Take a fine grid and one k times as coarse over the same snapshots. Each coarse
   candle is the merge of the fine candles that start inside its bucket: first open, highest
   high, lowest low, last close, stamped with the bucket's own start.
   */
  lemma CoarseIsMerge(pts: seq<Snapshot>, tf: int, first: int, n: nat, k: int, coarse: int, m: nat, i: nat)
    returns (a: nat, b: nat)
    requires InOrder(pts) && k >= 1 && Covers(pts, tf, first, n) && Covers(pts, k * tf, coarse, m) && i < m
    ensures a < b <= n
    ensures DenseFrom(pts, k * tf, coarse, m)[i]
         == MergeAll(DenseFrom(pts, tf, first, n)[a..b]).(x := Grid(coarse, k * tf, i))
    ensures forall j :: 0 <= j < n ==>
      (a <= j < b <==> Grid(coarse, k * tf, i) <= Grid(first, tf, j) < Grid(coarse, k * tf, i) + k * tf)
  {
    var w := k * tf;
    var p := Grid(coarse, w, i);
    BucketMeetsGrid(pts, tf, first, n, k, coarse, m, i);
    a, b := FineIndex(first, tf, n, p), FineIndex(first, tf, n, p + w);
    BetweenIndexes(first, tf, n, p, p + w);
    CoarseIsSpan(pts, tf, first, n, p, w, a, b);
    DenseAt(pts, w, coarse, m, i);
    forall j | 0 <= j < n ensures a <= j < b <==> p <= Grid(first, tf, j) < p + w {
      IndexIsPosition(first, tf, n, p, j);
      IndexIsPosition(first, tf, n, p + w, j);
    }
  }

  lemma BucketMeetsGrid(pts: seq<Snapshot>, tf: int, first: int, n: nat, k: int, coarse: int, m: nat, i: nat)
    requires InOrder(pts) && k >= 1 && Covers(pts, tf, first, n) && Covers(pts, k * tf, coarse, m) && i < m
    ensures var p := Grid(coarse, k * tf, i);
      p % tf == 0 && (p + k * tf) % tf == 0 && p < Grid(first, tf, n) && first < p + k * tf
  {
    var w := k * tf;
    GridAligned(coarse, w, i);
    GridAligned(coarse, w, i + 1);
    GridNext(coarse, w, i);
    CoarseAligned(Grid(coarse, w, i), tf, w, k);
    CoarseAligned(Grid(coarse, w, i + 1), tf, w, k);
    GridOrder(coarse, w, i, m - 1);
    GridOrder(coarse, w, 0, i);
  }

  lemma CoarseIsSpan(pts: seq<Snapshot>, tf: int, first: int, n: nat, p: int, w: int, a: nat, b: nat)
    requires InOrder(pts) && Covers(pts, tf, first, n) && p % tf == 0 && (p + w) % tf == 0 && w > 0
    requires a == FineIndex(first, tf, n, p) && b == FineIndex(first, tf, n, p + w) && a < b
    ensures CandleAt(pts, p, w) == MergeAll(DenseFrom(pts, tf, first, n)[a..b]).(x := p)
  {
    MergeRange(pts, tf, first, n, a, b);
    ClampKeepsCount(pts, tf, first, n, p);
    ClampKeepsCount(pts, tf, first, n, p + w);
  }
}
