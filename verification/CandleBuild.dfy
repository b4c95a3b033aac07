/** `get_equity_ohlc`: the imperative passes, proved to return the candles of `Dense`. */
module CandleBuild {
  import opened Numerics
  import opened Candles
  import Sorting

  function InPeriod(p: int, tf: int): Snapshot -> bool {
    (s: Snapshot) => tf > 0 && Period(s.ts, tf) == p
  }

  function Bucket(pts: seq<Snapshot>, p: int, tf: int): seq<Snapshot> { Sorting.Keep(pts, InPeriod(p, tf)) }

  function RawOf(b: seq<Snapshot>): Raw
    requires b != []
  {
    Raw(b[0].equity, HighOf(b[0].equity, b), LowOf(b[0].equity, b), b[|b| - 1].equity)
  }

  ghost predicate Grouped(pts: seq<Snapshot>, tf: int, candles: map<int, Raw>, keys: seq<int>) {
    && (forall p :: p in candles <==> p in keys)
    && (forall p :: p in candles <==> Bucket(pts, p, tf) != [])
    && forall p :: p in candles ==> candles[p] == RawOf(Bucket(pts, p, tf))
  }

  lemma BucketAppend(pts: seq<Snapshot>, s: Snapshot, p: int, tf: int)
    requires tf > 0
    ensures Bucket(pts + [s], p, tf) == if Period(s.ts, tf) == p then Bucket(pts, p, tf) + [s] else Bucket(pts, p, tf)
  {
    Sorting.KeepAppend(pts, [s], InPeriod(p, tf));
    assert [s][1..] == [];
  }

  lemma RawAppend(b: seq<Snapshot>, s: Snapshot)
    requires b != []
    ensures RawOf(b + [s]) == Raw(RawOf(b).o, Max(RawOf(b).h, s.equity), Min(RawOf(b).l, s.equity), s.equity)
  {
    assert (b + [s])[..|b|] == b;
  }

  lemma RawSingle(s: Snapshot)
    ensures RawOf([s]) == Raw(s.equity, s.equity, s.equity, s.equity)
  {
    var b := [s];
    assert b[..0] == [];
    assert HighOf(s.equity, b[..0]) == s.equity && LowOf(s.equity, b[..0]) == s.equity;
    assert HighOf(s.equity, b) == Max(HighOf(s.equity, b[..|b| - 1]), s.equity);
  }

  /** First pass: one raw candle per period that has snapshots; the keys in order of first appearance. */
  method GroupByPeriod(rows: seq<Row>, tf: int) returns (candles: map<int, Raw>, keys: seq<int>)
    requires tf > 0
    ensures Grouped(Points(rows), tf, candles, keys)
  {
    candles, keys := map[], [];
    for i := 0 to |rows|
      invariant Grouped(Points(rows[..i]), tf, candles, keys)
    {
      assert rows[..i + 1][..i] == rows[..i];
      if rows[i].ts.None? {
        assert Points(rows[..i + 1]) == Points(rows[..i]);
        continue;
      }
      var s := Snapshot(rows[i].ts.value, rows[i].equity);
      candles, keys := AddSnapshot(Points(rows[..i]), s, tf, candles, keys);
    }
    assert rows[..|rows|] == rows;
  }

  method AddSnapshot(ghost pts: seq<Snapshot>, s: Snapshot, tf: int, candles: map<int, Raw>, keys: seq<int>)
    returns (candles': map<int, Raw>, keys': seq<int>)
    requires tf > 0 && Grouped(pts, tf, candles, keys)
    ensures Grouped(pts + [s], tf, candles', keys')
  {
    var period := Period(s.ts, tf);
    forall p ensures Bucket(pts + [s], p, tf) == if period == p then Bucket(pts, p, tf) + [s] else Bucket(pts, p, tf) {
      BucketAppend(pts, s, p, tf);
    }
    keys' := keys;
    if period !in candles {
      candles' := candles[period := Raw(s.equity, s.equity, s.equity, s.equity)];
      keys' := keys + [period];
      RawSingle(s);
      assert Bucket(pts, period, tf) + [s] == [s];
    } else {
      var c := candles[period];
      RawAppend(Bucket(pts, period, tf), s);
      candles' := candles[period := Raw(c.o, Max(c.h, s.equity), Min(c.l, s.equity), s.equity)];
    }
  }

  lemma BucketIsWindow(pts: seq<Snapshot>, p: int, tf: int)
    requires tf > 0 && InOrder(pts) && p % tf == 0
    ensures CountBefore(pts, p) <= CountBefore(pts, p + tf)
    ensures Bucket(pts, p, tf) == pts[CountBefore(pts, p)..CountBefore(pts, p + tf)]
  {
    CountBeforeMonotone(pts, p, p + tf);
    CountBeforeSplits(pts, p);
    CountBeforeSplits(pts, p + tf);
    var lo, hi, q := CountBefore(pts, p), CountBefore(pts, p + tf), InPeriod(p, tf);
    forall i | 0 <= i < |pts| ensures q(pts[i]) <==> lo <= i < hi {
      PeriodBounds(pts[i].ts, tf);
      if lo <= i < hi { PeriodUnique(pts[i].ts, p, tf); }
    }
    Sorting.KeepWindow(pts, q, lo, hi);
  }

  lemma EmptyOrHas(keys: seq<int>)
    ensures keys == [] || exists p :: p in keys
  {
    if keys != [] { var p := keys[0]; assert p in keys; }
  }

  function AsReal(p: int): real { p as real }

  /** The sorted keys run from the first snapshot's period to the last one's. */
  lemma SortedEnds(pts: seq<Snapshot>, tf: int, candles: map<int, Raw>, keys: seq<int>)
    requires tf > 0 && InOrder(pts) && Grouped(pts, tf, candles, keys)
    ensures keys == [] <==> pts == []
    ensures |Sorting.SortBy(keys, AsReal)| == |keys|
    ensures pts != [] ==> Sorting.SortBy(keys, AsReal)[0] == First(pts, tf)
    ensures pts != [] ==> Sorting.SortBy(keys, AsReal)[|keys| - 1] == Last(pts, tf)
  {
    Sorting.SortByIsSort(keys, AsReal);
    var sorted := Sorting.SortBy(keys, AsReal);
    if pts == [] {
      assert forall p :: p !in keys;
      EmptyOrHas(keys);
    } else {
      FirstLast(pts, tf);
      KeyOf(pts, 0, tf);
      KeyOf(pts, |pts| - 1, tf);
      var i := SortedHas(keys, First(pts, tf));
      var j := SortedHas(keys, Last(pts, tf));
      assert AsReal(sorted[0]) <= AsReal(sorted[i]) && AsReal(sorted[j]) <= AsReal(sorted[|sorted| - 1]);
      SortedWithin(pts, tf, candles, keys, 0);
      SortedWithin(pts, tf, candles, keys, |sorted| - 1);
    }
  }

  lemma SortedHas(keys: seq<int>, p: int) returns (i: nat)
    requires p in keys
    ensures i < |Sorting.SortBy(keys, AsReal)| && Sorting.SortBy(keys, AsReal)[i] == p
  {
    Sorting.SortByIsSort(keys, AsReal);
    assert p in multiset(Sorting.SortBy(keys, AsReal));
    i :| 0 <= i < |Sorting.SortBy(keys, AsReal)| && Sorting.SortBy(keys, AsReal)[i] == p;
  }

  lemma SortedWithin(pts: seq<Snapshot>, tf: int, candles: map<int, Raw>, keys: seq<int>, k: nat)
    requires tf > 0 && InOrder(pts) && Grouped(pts, tf, candles, keys) && pts != []
    requires k < |Sorting.SortBy(keys, AsReal)|
    ensures First(pts, tf) <= Sorting.SortBy(keys, AsReal)[k] <= Last(pts, tf)
  {
    var sorted := Sorting.SortBy(keys, AsReal);
    Sorting.SortElements(keys, AsReal);
    assert sorted[k] in sorted;
    BucketInRange(pts, sorted[k], tf);
  }

  lemma KeyOf(pts: seq<Snapshot>, i: nat, tf: int)
    requires tf > 0 && i < |pts|
    ensures Bucket(pts, Period(pts[i].ts, tf), tf) != []
  {
    var p := Period(pts[i].ts, tf);
    Sorting.KeepElements(pts, InPeriod(p, tf));
    assert pts[i] in Bucket(pts, p, tf);
  }

  lemma BucketInRange(pts: seq<Snapshot>, p: int, tf: int)
    requires tf > 0 && InOrder(pts) && Bucket(pts, p, tf) != []
    ensures First(pts, tf) <= p <= Last(pts, tf)
  {
    var b := Bucket(pts, p, tf);
    Sorting.KeepElements(pts, InPeriod(p, tf));
    assert b[0] in b;
    var i :| 0 <= i < |pts| && pts[i] == b[0];
    PeriodMonotone(pts[0].ts, pts[i].ts, tf);
    PeriodMonotone(pts[i].ts, pts[|pts| - 1].ts, tf);
  }

  lemma PeriodMonotone(a: int, b: int, tf: int)
    requires tf > 0 && a <= b
    ensures Period(a, tf) <= Period(b, tf)
  {
    PeriodBounds(a, tf);
    PeriodBounds(b, tf);
    Steps(b / tf - a / tf, tf);
    assert (b / tf - a / tf) * tf == Period(b, tf) - Period(a, tf);
  }

  method DensePeriods(first: int, last: int, tf: int) returns (dense: seq<int>)
    requires tf > 0 && first <= last && (last - first) % tf == 0
    ensures |dense| == (last - first) / tf + 1
    ensures forall k :: 0 <= k < |dense| ==> dense[k] == first + k * tf
  {
    dense := [];
    var p := first;
    while p <= last
      invariant p == first + |dense| * tf
      invariant forall k :: 0 <= k < |dense| ==> dense[k] == first + k * tf
      invariant p <= last + tf
      decreases last - p
    {
      NextFits(first, last, |dense|, tf);
      dense := dense + [p];
      p := p + tf;
      assert |dense| * tf == (|dense| - 1) * tf + tf;
    }
    CountFits(first, last, |dense|, tf);
  }

  lemma NextFits(first: int, last: int, n: nat, tf: int)
    requires tf > 0 && first + n * tf <= last
    ensures first + n * tf + tf <= last + tf
  {
  }

  lemma CountFits(first: int, last: int, n: nat, tf: int)
    requires tf > 0 && first <= last && (last - first) % tf == 0
    requires last < first + n * tf <= last + tf
    ensures n == (last - first) / tf + 1
  {
    var q := (last - first) / tf;
    assert q * tf == last - first;
    Steps(n - q - 1, tf);
    assert (n - q - 1) * tf == n * tf - q * tf - tf;
    Steps(n - q, tf);
    assert (n - q) * tf == n * tf - q * tf;
  }

  /** Anchors the open to the previous close. */
  function Anchored(o: real, c: Raw): Raw { Raw(o, Max(c.h, o), Min(c.l, o), c.c) }

  /** The anchored candle of one period, from its raw candle if it has one, is the window's candle. */
  lemma AnchoredIsWindow(pts: seq<Snapshot>, p: int, tf: int)
    requires tf > 0 && InOrder(pts) && pts != [] && p % tf == 0 && First(pts, tf) <= p
    ensures var lo, hi, b := CountBefore(pts, p), CountBefore(pts, p + tf), Bucket(pts, p, tf);
      && lo <= hi
      && (b == [] ==> Window(pts, lo, hi) == Raw(Held(pts, lo), Held(pts, lo), Held(pts, lo), Held(pts, lo)))
      && (b != [] ==> Window(pts, lo, hi) == Anchored(Held(pts, lo), RawOf(b)))
  {
    BucketIsWindow(pts, p, tf);
    var lo, hi, b := CountBefore(pts, p), CountBefore(pts, p + tf), Bucket(pts, p, tf);
    assert b == pts[lo..hi];
    if b != [] {
      var v, w := b[0].equity, Held(pts, lo);
      HighLowBounds(v, b);
      HighLowBounds(w, b);
      HighLowRebase(v, w, b);
      HighLowRebase(w, v, b);
      assert b[0].equity <= HighOf(w, b) && LowOf(w, b) <= b[0].equity;
      assert b[|b| - 1] == pts[hi - 1];
    }
  }

  method GetEquityOhlc(rows: seq<Row>, tfMinutes: int, limit: int) returns (result: seq<Candle>)
    requires tfMinutes > 0 && InOrder(Points(rows))
    ensures result == TakeLast(Dense(Points(rows), tfMinutes * 60000), limit)
  {
    var tf := tfMinutes * MS_PER_MINUTE;
    ghost var pts := Points(rows);
    var candles, keys := GroupByPeriod(rows, tf);
    SortedEnds(pts, tf, candles, keys);
    var sorted := Sorting.SortBy(keys, AsReal);
    result := [];
    if keys != [] {
      FirstLast(pts, tf);
      var dense := DensePeriods(sorted[0], sorted[|keys| - 1], tf);
      result := JoinCandles(pts, tf, candles, keys, dense);
    }
    result := TakeLast(result, limit);
  }

  method JoinCandles(ghost pts: seq<Snapshot>, tf: int, candles: map<int, Raw>, ghost keys: seq<int>, dense: seq<int>)
    returns (result: seq<Candle>)
    requires tf > 0 && pts != [] && InOrder(pts) && Grouped(pts, tf, candles, keys)
    requires |dense| == NumPeriods(pts, tf) >= 1
    requires forall k :: 0 <= k < |dense| ==> dense[k] == Grid(First(pts, tf), tf, k)
    ensures result == Dense(pts, tf)
  {
    assert dense[0] == Grid(First(pts, tf), tf, 0) == First(pts, tf);
    var prevClose := FirstOpen(pts, tf, candles, keys, dense[0]);
    result := [];
    for i := 0 to |dense|
      invariant |result| == i
      invariant forall k :: 0 <= k < i ==> result[k] == CandleAt(pts, dense[k], tf)
      invariant prevClose == Held(pts, CountBefore(pts, Grid(First(pts, tf), tf, i)))
    {
      var p := dense[i];
      JoinStep(pts, tf, candles, keys, i);
      var r := Joined(candles, p, prevClose);
      prevClose := r.c;
      result := result + [Rounded(p, r)];
    }
    AllIsDense(pts, tf, dense, result);
  }

  /** The candle of a period: anchored to the previous close, or flat at it. */
  function Joined(candles: map<int, Raw>, p: int, o: real): Raw {
    if p in candles then Anchored(o, candles[p]) else Raw(o, o, o, o)
  }

  lemma AllIsDense(pts: seq<Snapshot>, tf: int, dense: seq<int>, result: seq<Candle>)
    requires tf > 0 && pts != [] && InOrder(pts) && |result| == |dense| == NumPeriods(pts, tf)
    requires forall k :: 0 <= k < |dense| ==> dense[k] == Grid(First(pts, tf), tf, k)
    requires forall k :: 0 <= k < |dense| ==> result[k] == CandleAt(pts, dense[k], tf)
    ensures result == Dense(pts, tf)
  {
    forall k | 0 <= k < |dense| ensures result[k] == Dense(pts, tf)[k] {
      DenseAt(pts, tf, First(pts, tf), |dense|, k);
    }
  }

  lemma JoinStep(pts: seq<Snapshot>, tf: int, candles: map<int, Raw>, keys: seq<int>, i: nat)
    requires tf > 0 && pts != [] && InOrder(pts) && Grouped(pts, tf, candles, keys)
    ensures var p := Grid(First(pts, tf), tf, i);
      var r := Joined(candles, p, Held(pts, CountBefore(pts, p)));
      Rounded(p, r) == CandleAt(pts, p, tf) && r.c == Held(pts, CountBefore(pts, Grid(First(pts, tf), tf, i + 1)))
  {
    FirstLast(pts, tf);
    GridPoint(First(pts, tf), i, tf);
    AnchoredIsWindow(pts, Grid(First(pts, tf), tf, i), tf);
  }

  method FirstOpen(ghost pts: seq<Snapshot>, tf: int, candles: map<int, Raw>, ghost keys: seq<int>, first: int)
    returns (open: real)
    requires tf > 0 && pts != [] && InOrder(pts) && Grouped(pts, tf, candles, keys) && first == First(pts, tf)
    ensures open == Held(pts, CountBefore(pts, first)) == pts[0].equity
  {
    FirstLast(pts, tf);
    KeyOf(pts, 0, tf);
    CountBeforeSplits(pts, first);
    BucketIsWindow(pts, first, tf);
    open := candles[first].o;
  }

  lemma GridPoint(first: int, i: nat, tf: int)
    requires tf > 0 && first % tf == 0
    ensures (first + i * tf) % tf == 0 && first <= first + i * tf
    ensures first + (i + 1) * tf == first + i * tf + tf
  {
    assert first == first / tf * tf;
    MultipleOf(first / tf + i, tf);
    assert (first / tf + i) * tf == first / tf * tf + i * tf;
    assert (i + 1) * tf == i * tf + tf;
  }
}
