/** Python's `sorted(..., key=...)`: ascending and stable. */
module Sorting {
  import opened Numerics

  ghost predicate Sorted<T>(s: seq<T>, key: T -> real) {
    forall i, j :: 0 <= i < j < |s| ==> key(s[i]) <= key(s[j])
  }

  /** Puts x, which comes earlier in the input than everything in s, before the first key not below its own. */
  function Insert<T>(x: T, s: seq<T>, key: T -> real): seq<T> {
    if s == [] || key(x) <= key(s[0]) then [x] + s else [s[0]] + Insert(x, s[1..], key)
  }

  function SortBy<T>(s: seq<T>, key: T -> real): seq<T> {
    if s == [] then [] else Insert(s[0], SortBy(s[1..], key), key)
  }

  lemma {:induction false} InsertBag<T>(x: T, s: seq<T>, key: T -> real)
    ensures multiset(Insert(x, s, key)) == multiset{x} + multiset(s)
  {
    if s != [] && key(x) > key(s[0]) {
      InsertBag(x, s[1..], key);
      assert s == [s[0]] + s[1..];
    }
  }

  lemma SortedCons<T>(x: T, s: seq<T>, key: T -> real)
    requires Sorted(s, key) && forall y :: y in s ==> key(x) <= key(y)
    ensures Sorted([x] + s, key)
  {
  }

  lemma {:induction false} InsertSorted<T>(x: T, s: seq<T>, key: T -> real)
    requires Sorted(s, key)
    ensures Sorted(Insert(x, s, key), key)
  {
    if s == [] || key(x) <= key(s[0]) {
      SortedCons(x, s, key);
    } else {
      InsertSorted(x, s[1..], key);
      InsertBag(x, s[1..], key);
      var r := Insert(x, s[1..], key);
      forall y | y in r ensures key(s[0]) <= key(y) {
        assert y in multiset(r);
        assert y == x || y in s[1..];
      }
      SortedCons(s[0], r, key);
    }
  }

  /** The result is ordered by key and holds exactly the input's elements. */
  lemma {:induction false} SortByIsSort<T>(s: seq<T>, key: T -> real)
    ensures Sorted(SortBy(s, key), key)
    ensures multiset(SortBy(s, key)) == multiset(s)
    ensures |SortBy(s, key)| == |s|
  {
    if s != [] {
      SortByIsSort(s[1..], key);
      InsertSorted(s[0], SortBy(s[1..], key), key);
      InsertBag(s[0], SortBy(s[1..], key), key);
      assert s == [s[0]] + s[1..];
    }
    assert |multiset(SortBy(s, key))| == |SortBy(s, key)|;
  }

  lemma SortElements<T>(s: seq<T>, key: T -> real)
    ensures forall y :: y in SortBy(s, key) ==> y in s
  {
    SortByIsSort(s, key);
    forall y | y in SortBy(s, key) ensures y in s {
      assert y in multiset(SortBy(s, key));
    }
  }

  // ---------- stability ----------

  ghost predicate Precedes<T>(s: seq<T>, x: T, y: T) { exists i, j :: 0 <= i < j < |s| && s[i] == x && s[j] == y }

  lemma PrecedesCons<T>(z: T, s: seq<T>, x: T, y: T)
    requires Precedes(s, x, y) || (z == x && y in s)
    ensures Precedes([z] + s, x, y)
  {
    var more := [z] + s;
    if Precedes(s, x, y) {
      var i, j :| 0 <= i < j < |s| && s[i] == x && s[j] == y;
      assert more[i + 1] == x && more[j + 1] == y;
    } else {
      var j :| 0 <= j < |s| && s[j] == y;
      assert more[0] == x && more[j + 1] == y;
    }
  }

  lemma PrecedesRest<T>(s: seq<T>, x: T, y: T)
    requires Precedes(s, x, y)
    ensures Precedes(s[1..], x, y) || (s[0] == x && y in s[1..])
  {
    var i, j :| 0 <= i < j < |s| && s[i] == x && s[j] == y;
    assert s[1..][j - 1] == y;
    if i > 0 { assert s[1..][i - 1] == x; }
  }

  lemma {:induction false} InsertPrecedes<T>(x: T, s: seq<T>, key: T -> real, y: T)
    requires y in s && key(x) <= key(y)
    ensures Precedes(Insert(x, s, key), x, y)
  {
    if key(x) <= key(s[0]) {
      PrecedesCons(x, s, x, y);
    } else {
      InsertPrecedes(x, s[1..], key, y);
      PrecedesCons(s[0], Insert(x, s[1..], key), x, y);
    }
  }

  lemma {:induction false} InsertKeepsOrder<T>(z: T, s: seq<T>, key: T -> real, x: T, y: T)
    requires Precedes(s, x, y)
    ensures Precedes(Insert(z, s, key), x, y)
  {
    if key(z) <= key(s[0]) {
      PrecedesCons(z, s, x, y);
    } else {
      PrecedesRest(s, x, y);
      var r := Insert(z, s[1..], key);
      if Precedes(s[1..], x, y) {
        InsertKeepsOrder(z, s[1..], key, x, y);
      } else {
        InsertBag(z, s[1..], key);
        assert y in multiset(r);
      }
      PrecedesCons(s[0], r, x, y);
    }
  }

  /** What comes earlier in the input and has no larger key comes earlier in the result, equal keys included. */
  lemma {:induction false} SortIsStable<T>(s: seq<T>, key: T -> real, i: nat, j: nat)
    requires i < j < |s| && key(s[i]) <= key(s[j])
    ensures Precedes(SortBy(s, key), s[i], s[j])
  {
    var rest := SortBy(s[1..], key);
    SortByIsSort(s[1..], key);
    if i == 0 {
      assert s[1..][j - 1] == s[j];
      assert s[j] in multiset(rest);
      InsertPrecedes(s[0], rest, key, s[j]);
    } else {
      SortIsStable(s[1..], key, i - 1, j - 1);
      InsertKeepsOrder(s[0], rest, key, s[i], s[j]);
    }
  }

  // ---------- filtering ----------

  function Keep<T>(s: seq<T>, p: T -> bool): seq<T> {
    if s == [] then [] else if p(s[0]) then [s[0]] + Keep(s[1..], p) else Keep(s[1..], p)
  }

  lemma KeepCons<T>(x: T, s: seq<T>, p: T -> bool)
    ensures Keep([x] + s, p) == if p(x) then [x] + Keep(s, p) else Keep(s, p)
  {
    assert ([x] + s)[1..] == s;
  }

  lemma {:induction false} KeepAppend<T>(s: seq<T>, t: seq<T>, p: T -> bool)
    ensures Keep(s + t, p) == Keep(s, p) + Keep(t, p)
  {
    if s == [] {
      assert s + t == t;
    } else {
      var x, rest := s[0], s[1..];
      KeepAppend(rest, t, p);
      assert s + t == [x] + (rest + t);
      KeepCons(x, rest + t, p);
      assert s == [x] + rest;
      KeepCons(x, rest, p);
    }
  }

  lemma KeepGrows<T>(s: seq<T>, x: T, p: T -> bool)
    ensures Keep(s + [x], p) == if p(x) then Keep(s, p) + [x] else Keep(s, p)
  {
    KeepAppend(s, [x], p);
    assert [x][1..] == [];
  }

  lemma {:induction false} KeepNone<T>(s: seq<T>, p: T -> bool)
    requires forall i :: 0 <= i < |s| ==> !p(s[i])
    ensures Keep(s, p) == []
  {
    if s != [] {
      KeepNone(s[1..], p);
    }
  }

  lemma {:induction false} KeepAll<T>(s: seq<T>, p: T -> bool)
    requires forall i :: 0 <= i < |s| ==> p(s[i])
    ensures Keep(s, p) == s
  {
    if s != [] {
      KeepAll(s[1..], p);
    }
  }

  lemma {:induction false} KeepElements<T>(s: seq<T>, p: T -> bool)
    ensures forall x :: x in Keep(s, p) <==> x in s && p(x)
    ensures |Keep(s, p)| <= |s|
  {
    if s != [] {
      KeepElements(s[1..], p);
      assert s == [s[0]] + s[1..];
    }
  }

  lemma KeepMember<T>(s: seq<T>, p: T -> bool, x: T)
    requires x in Keep(s, p)
    ensures x in s && p(x)
  {
    KeepElements(s, p);
  }

  lemma {:induction false} KeepKeep<T>(s: seq<T>, p: T -> bool, q: T -> bool)
    requires forall x :: x in s && q(x) ==> p(x)
    ensures Keep(Keep(s, p), q) == Keep(s, q)
  {
    if s != [] {
      KeepKeep(s[1..], p, q);
      assert s[0] in s;
      KeepCons(s[0], Keep(s[1..], p), q);
    }
  }

  lemma {:induction false} KeepWindow<T>(s: seq<T>, p: T -> bool, lo: nat, hi: nat)
    requires lo <= hi <= |s|
    requires forall i :: 0 <= i < |s| ==> (p(s[i]) <==> lo <= i < hi)
    ensures Keep(s, p) == s[lo..hi]
  {
    if hi == 0 {
      KeepNone(s, p);
    } else {
      KeepWindow(s[1..], p, MaxZero(lo - 1), hi - 1);
    }
  }

  function MaxZero(n: int): nat { if n < 0 then 0 else n }

  /** What is kept of an ordered sequence below a bound is a prefix of it. */
  lemma {:induction false} KeepPrefix<T>(s: seq<T>, key: T -> real, bound: real, p: T -> bool)
    requires Sorted(s, key)
    requires forall x :: x in s ==> (p(x) <==> key(x) <= bound)
    ensures |Keep(s, p)| <= |s| && Keep(s, p) == s[..|Keep(s, p)|]
    ensures forall i :: |Keep(s, p)| <= i < |s| ==> key(s[i]) > bound
  {
    if s != [] {
      assert s[0] in s;
      if p(s[0]) {
        KeepPrefix(s[1..], key, bound, p);
      } else {
        forall i | 0 <= i < |s| ensures !p(s[i]) { assert s[i] in s; }
        KeepNone(s, p);
      }
    }
  }

  lemma InsertCons<T>(x: T, y: T, s: seq<T>, key: T -> real)
    requires key(x) > key(y)
    ensures Insert(x, [y] + s, key) == [y] + Insert(x, s, key)
  {
    assert ([y] + s)[1..] == s;
  }

  lemma InsertFront<T>(x: T, s: seq<T>, key: T -> real)
    requires forall y :: y in s ==> key(x) <= key(y)
    ensures Insert(x, s, key) == [x] + s
  {
    if s != [] { assert s[0] in s; }
  }

  lemma {:induction false} KeepInsert<T>(x: T, s: seq<T>, key: T -> real, p: T -> bool)
    requires Sorted(s, key)
    ensures Keep(Insert(x, s, key), p) == if p(x) then Insert(x, Keep(s, p), key) else Keep(s, p)
  {
    if s == [] || key(x) <= key(s[0]) {
      KeepCons(x, s, p);
      KeepElements(s, p);
      forall y | y in Keep(s, p) ensures key(x) <= key(y) {
        KeepMember(s, p, y);
        var i :| 0 <= i < |s| && s[i] == y;
      }
      InsertFront(x, Keep(s, p), key);
    } else {
      KeepInsert(x, s[1..], key, p);
      KeepCons(s[0], Insert(x, s[1..], key), p);
      InsertCons(x, s[0], Keep(s[1..], p), key);
    }
  }

  /** Stability: filtering before or after the sort gives the same sequence. */
  lemma {:induction false} KeepSort<T>(s: seq<T>, key: T -> real, p: T -> bool)
    ensures Keep(SortBy(s, key), p) == SortBy(Keep(s, p), key)
  {
    if s != [] {
      KeepSort(s[1..], key, p);
      SortByIsSort(s[1..], key);
      KeepInsert(s[0], SortBy(s[1..], key), key, p);
      SortCons(s[0], Keep(s[1..], p), key);
    }
  }

  lemma SortCons<T>(x: T, s: seq<T>, key: T -> real)
    ensures SortBy([x] + s, key) == Insert(x, SortBy(s, key), key)
  {
    assert ([x] + s)[1..] == s;
  }

  lemma TwiceCounted<T>(s: seq<T>, i: nat, j: nat)
    requires i < j < |s|
    ensures s[i] == s[j] ==> multiset(s)[s[i]] >= 2
  {
    assert s == s[..j] + [s[j]] + s[j + 1..];
    assert s[..j][i] == s[i];
    assert s[i] in multiset(s[..j]);
  }

  lemma {:induction false} SortConstant<T>(s: seq<T>, key: T -> real)
    requires forall i, j :: 0 <= i < j < |s| ==> key(s[i]) == key(s[j])
    ensures SortBy(s, key) == s
  {
    if s != [] { SortConstant(s[1..], key); }
  }

  /** A total over two disjoint selections is the sum of theirs. */
  lemma {:induction false} TotalSplits<T>(s: seq<T>, p: T -> bool, q: T -> bool, either: T -> bool, f: T -> real)
    requires forall x :: x in s ==> (either(x) <==> p(x) || q(x)) && !(p(x) && q(x))
    ensures Total(Keep(s, either), f) == Total(Keep(s, p), f) + Total(Keep(s, q), f)
  {
    if s == [] {
      TotalNext(s, f);
    } else {
      var x, rest := s[0], s[1..];
      TotalSplits(rest, p, q, either, f);
      TotalFront(x, Keep(rest, either), f);
      TotalFront(x, Keep(rest, p), f);
      TotalFront(x, Keep(rest, q), f);
    }
  }

  lemma TotalFront<T>(x: T, s: seq<T>, f: T -> real)
    ensures Total([x] + s, f) == f(x) + Total(s, f)
  {
    TotalInsert([], x, s, f);
    assert [] + ([x] + s) == [x] + s && [] + s == s;
  }
}
