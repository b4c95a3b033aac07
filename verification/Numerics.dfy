/** Exact arithmetic shared by the kernels: order on reals, sums, and Python's `round`. */
module Numerics {

  datatype Option<+T> = None | Some(value: T)

  function Max(a: real, b: real): real { if b > a then b else a }

  function Min(a: real, b: real): real { if b < a then b else a }

  function Abs(x: real): real { if x < 0.0 then -x else x }

  function MaxInt(a: int, b: int): int { if b > a then b else a }

  function MinInt(a: int, b: int): int { if b < a then b else a }

  // ---------- sums ----------

  function Sum(s: seq<real>): real {
    if s == [] then 0.0 else Sum(s[..|s| - 1]) + s[|s| - 1]
  }

  lemma {:induction false} SumAppend(s: seq<real>, t: seq<real>)
    ensures Sum(s + t) == Sum(s) + Sum(t)
    decreases |t|
  {
    if t == [] {
      assert s + t == s;
    } else {
      var t' := t[..|t| - 1];
      assert (s + t)[..|s + t| - 1] == s + t';
      SumAppend(s, t');
    }
  }

  lemma SumOne(x: real)
    ensures Sum([x]) == x
  {
    assert [x][..0] == [];
  }

  /** Where the last element of s sits in a permutation of s. */
  lemma Locate<T>(s: seq<T>, t: seq<T>) returns (a: seq<T>, b: seq<T>)
    requires multiset(s) == multiset(t) && s != []
    ensures t == a + ([s[|s| - 1]] + b)
    ensures multiset(s[..|s| - 1]) == multiset(a + b)
  {
    LastInBag(s);
    var k := IndexOf(t, s[|s| - 1]);
    a, b := t[..k], t[k + 1..];
    TakeApart(t, k);
    BagInsert(a, t[k], b);
  }

  lemma LastInBag<T>(s: seq<T>)
    requires s != []
    ensures s[|s| - 1] in multiset(s) && multiset(s[..|s| - 1]) == multiset(s) - multiset{s[|s| - 1]}
  {
    assert s == s[..|s| - 1] + [s[|s| - 1]];
  }

  lemma IndexOf<T>(t: seq<T>, x: T) returns (k: nat)
    requires x in multiset(t)
    ensures k < |t| && t[k] == x
  {
    k :| 0 <= k < |t| && t[k] == x;
  }

  lemma TakeApart<T>(t: seq<T>, k: nat)
    requires k < |t|
    ensures t == t[..k] + ([t[k]] + t[k + 1..])
  {
  }

  lemma BagInsert<T>(a: seq<T>, x: T, b: seq<T>)
    ensures multiset(a + b) == multiset(a + ([x] + b)) - multiset{x}
  {
  }

  lemma SumInsert(a: seq<real>, x: real, b: seq<real>)
    ensures Sum(a + ([x] + b)) == Sum(a + b) + x
  {
    SumAppend(a, [x] + b);
    SumAppend([x], b);
    SumAppend(a, b);
    SumOne(x);
  }

  function Amounts<T>(s: seq<T>, f: T -> real): seq<real> { seq(|s|, i requires 0 <= i < |s| => f(s[i])) }

  function Total<T>(s: seq<T>, f: T -> real): real { Sum(Amounts(s, f)) }

  lemma TotalNext<T>(s: seq<T>, f: T -> real)
    ensures Total(s, f) == if s == [] then 0.0 else Total(s[..|s| - 1], f) + f(s[|s| - 1])
  {
    if s != [] { assert Amounts(s, f)[..|s| - 1] == Amounts(s[..|s| - 1], f); }
  }

  lemma TotalAppend<T>(s: seq<T>, t: seq<T>, f: T -> real)
    ensures Total(s + t, f) == Total(s, f) + Total(t, f)
  {
    assert Amounts(s + t, f) == Amounts(s, f) + Amounts(t, f);
    SumAppend(Amounts(s, f), Amounts(t, f));
  }

  lemma {:induction false} TotalPlus<T>(s: seq<T>, f: T -> real, g: T -> real, h: T -> real)
    requires forall x :: x in s ==> h(x) == f(x) + g(x)
    ensures Total(s, h) == Total(s, f) + Total(s, g)
    decreases |s|
  {
    TotalNext(s, f);
    TotalNext(s, g);
    TotalNext(s, h);
    if s != [] {
      assert s[|s| - 1] in s;
      TotalPlus(s[..|s| - 1], f, g, h);
    }
  }

  /** The order in which amounts are added does not matter. */
  lemma {:induction false} TotalPermutation<T>(a: seq<T>, b: seq<T>, f: T -> real)
    requires multiset(a) == multiset(b)
    ensures Total(a, f) == Total(b, f)
    decreases |a|
  {
    if a == [] {
      assert |multiset(b)| == 0;
      assert b == [];
    } else {
      var x, y := Locate(a, b);
      TotalPermutation(a[..|a| - 1], x + y, f);
      TotalNext(a, f);
      TotalInsert(x, a[|a| - 1], y, f);
    }
  }

  lemma TotalInsert<T>(a: seq<T>, x: T, b: seq<T>, f: T -> real)
    ensures Total(a + ([x] + b), f) == Total(a + b, f) + f(x)
  {
    assert Amounts(a + ([x] + b), f) == Amounts(a, f) + ([f(x)] + Amounts(b, f));
    assert Amounts(a + b, f) == Amounts(a, f) + Amounts(b, f);
    SumInsert(Amounts(a, f), f(x), Amounts(b, f));
  }

  /** The sum over the entries of a table. */
  ghost function SumOf<K>(m: map<K, real>): real {
    if m == map[] then 0.0
    else
      var k :| k in m;
      m[k] + SumOf(m - {k})
  }

  lemma {:induction false} SumOfRemove<K>(m: map<K, real>, k: K)
    requires k in m
    ensures SumOf(m) == m[k] + SumOf(m - {k})
    decreases |m|
  {
    var j :| j in m && SumOf(m) == m[j] + SumOf(m - {j});
    if j != k {
      SumOfRemove(m - {j}, k);
      SumOfRemove(m - {k}, j);
      assert m - {j} - {k} == m - {k} - {j};
    }
  }

  lemma SumOfSet<K>(m: map<K, real>, k: K, v: real)
    ensures SumOf(m[k := v]) == SumOf(m) + v - if k in m then m[k] else 0.0
  {
    SumOfRemove(m[k := v], k);
    assert m[k := v] - {k} == m - {k};
    if k in m { SumOfRemove(m, k); } else { assert m - {k} == m; }
  }

  lemma {:induction false} SumOfNonNegative<K>(m: map<K, real>)
    requires forall k :: k in m ==> m[k] >= 0.0
    ensures SumOf(m) >= 0.0
    decreases |m|
  {
    if m != map[] {
      var k :| k in m;
      SumOfRemove(m, k);
      SumOfNonNegative(m - {k});
    }
  }

  lemma {:induction false} SumOfPlus<K>(a: map<K, real>, b: map<K, real>, c: map<K, real>)
    requires a.Keys == b.Keys == c.Keys && forall k :: k in a ==> c[k] == a[k] + b[k]
    ensures SumOf(c) == SumOf(a) + SumOf(b)
    decreases |a|
  {
    if c == map[] {
      assert a == map[] && b == map[];
    } else {
      var k :| k in c;
      SumOfRemove(a, k);
      SumOfRemove(b, k);
      SumOfRemove(c, k);
      SumOfPlus(a - {k}, b - {k}, c - {k});
    }
  }

  function Plus(a: real, b: real): real { a + b }

  ghost predicate Additive(g: real -> real) {
    g(0.0) == 0.0 && forall a, b {:trigger Plus(a, b)} :: g(Plus(a, b)) == g(a) + g(b)
  }

  lemma {:induction false} SumOfAdditive<K>(m: map<K, real>, n: map<K, real>, g: real -> real)
    requires Additive(g) && m.Keys == n.Keys && forall k :: k in m ==> n[k] == g(m[k])
    ensures SumOf(n) == g(SumOf(m))
    decreases |m|
  {
    if m.Keys == {} {
      assert m == map[] && n == map[];
    } else {
      var k :| k in m.Keys;
      SumOfRemove(m, k);
      SumOfRemove(n, k);
      SumOfAdditive(m - {k}, n - {k}, g);
      assert SumOf(m) == Plus(m[k], SumOf(m - {k}));
    }
  }

  /** n roundings of at most eps each. */
  function Slack(n: nat, eps: real): real { n as real * eps }

  lemma SlackNext(n: nat, eps: real)
    ensures Slack(n + 1, eps) == Slack(n, eps) + eps
  {
  }

  /** Two sums whose terms differ by at most `eps` each differ by at most `eps` per term. */
  lemma {:induction false} SumsClose(s: seq<real>, t: seq<real>, eps: real)
    requires |s| == |t|
    requires forall i :: 0 <= i < |s| ==> Abs(s[i] - t[i]) <= eps
    ensures Abs(Sum(s) - Sum(t)) <= Slack(|s|, eps)
  {
    if s != [] {
      var n := |s| - 1;
      SumsClose(s[..n], t[..n], eps);
      SlackNext(n, eps);
      SumsCloseStep(Sum(s[..n]), Sum(t[..n]), s[n], t[n], Slack(n, eps), eps);
    }
  }

  lemma SumsCloseStep(a: real, b: real, x: real, y: real, slack: real, eps: real)
    requires Abs(a - b) <= slack && Abs(x - y) <= eps
    ensures Abs((a + x) - (b + y)) <= slack + eps
  {
  }

  lemma {:induction false} SumNonNegative(s: seq<real>)
    requires forall i :: 0 <= i < |s| ==> s[i] >= 0.0
    ensures Sum(s) >= 0.0
  {
    if s != [] {
      SumNonNegative(s[..|s| - 1]);
    }
  }

  lemma ProductNonNegative(a: real, b: real)
    requires a >= 0.0 && b >= 0.0
    ensures a * b >= 0.0
  {
  }

  lemma ProductMonotone(a: real, b: real, c: real)
    requires a <= b && c >= 0.0
    ensures a * c <= b * c
  {
    ProductNonNegative(b - a, c);
    assert (b - a) * c == b * c - a * c;
  }

  lemma DivideBack(x: real, b: real)
    requires b != 0.0
    ensures x * b / b == x && x / b * b == x
  {
  }

  lemma DivideIs(a: real, b: real, x: real)
    requires b != 0.0 && a == x * b
    ensures a / b == x
  {
  }

  lemma DivideMinus(a: real, b: real, c: real)
    requires c != 0.0
    ensures (a - b) / c == a / c - b / c
  {
    var x, y := a / c, b / c;
    DivideBack(a, c);
    DivideBack(b, c);
    assert (x - y) * c == x * c - y * c;
    DivideIs(a - b, c, x - y);
  }

  lemma StrictProduct(a: real, b: real, c: real)
    requires a < b && c > 0.0
    ensures a * c < b * c
  {
    assert (b - a) * c > 0.0;
    assert (b - a) * c == b * c - a * c;
  }

  lemma ShareLost(high: real, low: real)
    requires high > 0.0
    ensures (high - low) / high == 1.0 - low / high
  {
    DivideMinus(high, low, high);
    DivideIs(high, high, 1.0);
  }

  // ---------- Python's round(x, d), on exact reals: nearest multiple of 1/scale, ties to even ----------

  const CENTS := 100.0          // round(x, 2)
  const FOUR_DIGITS := 10000.0  // round(x, 4)
  const SIX_DIGITS := 1000000.0 // round(x, 6)

  function HalfEven(y: real): int {
    var f := y.Floor;
    var rest := y - f as real;
    if rest < 0.5 then f
    else if rest > 0.5 then f + 1
    else if f % 2 == 0 then f else f + 1
  }

  /** The nearest whole number, and of two equally near the even one. */
  lemma NearestEven(y: real)
    ensures var n := HalfEven(y); -0.5 <= n as real - y <= 0.5
    ensures var n := HalfEven(y); n as real - y == 0.5 || n as real - y == -0.5 ==> n % 2 == 0
  {
  }

  function RoundTo(x: real, scale: real): real
    requires scale > 0.0
  {
    HalfEven(x * scale) as real / scale
  }

  lemma HalfEvenMonotone(x: real, y: real)
    requires x <= y
    ensures HalfEven(x) <= HalfEven(y)
  {
    assert x.Floor <= y.Floor;
  }

  lemma DivideMonotone(a: real, b: real, scale: real)
    requires scale > 0.0 && a <= b
    ensures a / scale <= b / scale
  {
    DivideMinus(b, a, scale);
    assert (b - a) / scale >= 0.0;
  }

  lemma RoundMonotone(x: real, y: real, scale: real)
    requires scale > 0.0 && x <= y
    ensures RoundTo(x, scale) <= RoundTo(y, scale)
  {
    assert x * scale <= y * scale;
    HalfEvenMonotone(x * scale, y * scale);
    DivideMonotone(HalfEven(x * scale) as real, HalfEven(y * scale) as real, scale);
  }

  lemma RoundIdempotent(x: real, scale: real)
    requires scale > 0.0
    ensures RoundTo(RoundTo(x, scale), scale) == RoundTo(x, scale)
  {
    RoundWhole(HalfEven(x * scale), scale);
  }

  lemma RoundClose(x: real, scale: real)
    requires scale > 0.0
    ensures Abs(RoundTo(x, scale) - x) <= 0.5 / scale
  {
    var y := x * scale;
    var n := HalfEven(y) as real;
    assert -0.5 <= n - y <= 0.5;
    DivideMonotone(n - y, 0.5, scale);
    DivideMonotone(-0.5, n - y, scale);
    assert (n - y) / scale == n / scale - x by {
      assert (n - y) / scale == n / scale - y / scale;
      assert y / scale == x;
    }
    assert -0.5 / scale == -(0.5 / scale);
  }

  lemma HalfEvenWhole(y: real, n: int)
    requires y == n as real
    ensures HalfEven(y) == n
  {
    assert y.Floor == n;
  }

  /** The scales: two, four and six decimals. */
  lemma Decimals(x: real)
    ensures Abs(RoundTo(x, CENTS) - x) <= 0.005
    ensures Abs(RoundTo(x, FOUR_DIGITS) - x) <= 0.00005
    ensures Abs(RoundTo(x, SIX_DIGITS) - x) <= 0.0000005
    ensures (RoundTo(x, CENTS) * 100.0).Floor as real == RoundTo(x, CENTS) * 100.0
    ensures (RoundTo(x, FOUR_DIGITS) * 10000.0).Floor as real == RoundTo(x, FOUR_DIGITS) * 10000.0
    ensures (RoundTo(x, SIX_DIGITS) * 1000000.0).Floor as real == RoundTo(x, SIX_DIGITS) * 1000000.0
  {
    RoundClose(x, CENTS);
    RoundClose(x, FOUR_DIGITS);
    RoundClose(x, SIX_DIGITS);
    DivideBack(HalfEven(x * CENTS) as real, CENTS);
    DivideBack(HalfEven(x * FOUR_DIGITS) as real, FOUR_DIGITS);
    DivideBack(HalfEven(x * SIX_DIGITS) as real, SIX_DIGITS);
  }

  lemma RoundWhole(n: int, scale: real)
    requires scale > 0.0
    ensures RoundTo(n as real / scale, scale) == n as real / scale
  {
    var x := n as real / scale;
    assert x * scale == n as real;
    assert (n as real).Floor == n;
    RoundHit(x, scale, n);
  }

  lemma RoundHit(x: real, scale: real, n: int)
    requires scale > 0.0 && x * scale == n as real
    ensures RoundTo(x, scale) == n as real / scale
  {
    HalfEvenWhole(x * scale, n);
  }

  lemma RoundZero(scale: real)
    requires scale > 0.0
    ensures RoundTo(0.0, scale) == 0.0
  {
    RoundWhole(0, scale);
    assert 0 as real / scale == 0.0;
  }

  lemma RoundMax(x: real, y: real, scale: real)
    requires scale > 0.0
    ensures RoundTo(Max(x, y), scale) == Max(RoundTo(x, scale), RoundTo(y, scale))
  {
    if x <= y { RoundMonotone(x, y, scale); } else { RoundMonotone(y, x, scale); }
  }

  lemma RoundMin(x: real, y: real, scale: real)
    requires scale > 0.0
    ensures RoundTo(Min(x, y), scale) == Min(RoundTo(x, scale), RoundTo(y, scale))
  {
    if x <= y { RoundMonotone(x, y, scale); } else { RoundMonotone(y, x, scale); }
  }
}
