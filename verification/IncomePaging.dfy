/**
 Paged income fetching against a source that answers with the earliest events of the asked
 range, at most one page at a time. The loop terminates, never repeats an event, and is complete
 exactly when no page boundary separates events of equal time.
 */
module IncomePaging {
  import Sorting

  datatype Event = Event(time: int, id: nat)

  const PAGE := 1000

  ghost predicate ByTime(events: seq<Event>) {
    forall i, j :: 0 <= i < j < |events| ==> events[i].time <= events[j].time
  }

  function Within(start: int, end: int): Event -> bool { (e: Event) => start <= e.time < end }

  function InRange(source: seq<Event>, start: int, end: int): seq<Event> { Sorting.Keep(source, Within(start, end)) }

  /** One reply: the earliest events of the range, up to a page. */
  function Reply(source: seq<Event>, start: int, end: int): seq<Event> {
    var r := InRange(source, start, end);
    if |r| <= PAGE then r else r[..PAGE]
  }

  /** What the pages add up to, as a function of the events still in range. */
  function Fetched(r: seq<Event>): (f: seq<Event>)
    decreases |r|
  {
    if |r| < PAGE then r else r[..PAGE] + Fetched(After(r, PAGE))
  }

  /** The events beyond position n that are later than the one before it. */
  function After(r: seq<Event>, n: nat): (rest: seq<Event>)
    requires 0 < n <= |r|
    ensures |rest| <= |r| - n
    decreases |r| - n
  {
    if n == |r| then []
    else if r[n].time > r[n - 1].time then r[n..]
    else After(r, n + 1)
  }

  lemma {:induction false} AfterIsLater(r: seq<Event>, n: nat)
    requires ByTime(r) && 0 < n <= |r|
    ensures ByTime(After(r, n)) && After(r, n) == r[|r| - |After(r, n)|..]
    ensures forall i :: n - 1 <= i < |r| - |After(r, n)| ==> r[i].time == r[n - 1].time
    ensures forall i :: |r| - |After(r, n)| <= i < |r| ==> r[i].time > r[n - 1].time
    decreases |r| - n
  {
    if n < |r| {
      if r[n].time > r[n - 1].time {
        assert |r| - |After(r, n)| == n;
      } else {
        AfterIsLater(r, n + 1);
      }
    }
  }

  lemma RangeOrdered(source: seq<Event>, start: int, end: int)
    requires ByTime(source)
    ensures ByTime(InRange(source, start, end))
    ensures forall i :: 0 <= i < |InRange(source, start, end)| ==> start <= InRange(source, start, end)[i].time < end
  {
    KeepOrdered(source, Within(start, end));
    Sorting.KeepElements(source, Within(start, end));
    var r := InRange(source, start, end);
    forall i | 0 <= i < |r| ensures start <= r[i].time < end { assert r[i] in r; }
  }

  lemma {:induction false} KeepOrdered(s: seq<Event>, p: Event -> bool)
    requires ByTime(s)
    ensures ByTime(Sorting.Keep(s, p))
  {
    if s != [] {
      KeepOrdered(s[1..], p);
      Sorting.KeepElements(s[1..], p);
      var rest := Sorting.Keep(s[1..], p);
      forall j | 0 <= j < |rest| ensures s[0].time <= rest[j].time {
        assert rest[j] in rest;
        assert rest[j] in s[1..];
      }
    }
  }

  /** Advancing the cursor past a full page leaves exactly the strictly later events in range. */
  lemma CursorAdvances(source: seq<Event>, start: int, end: int)
    requires ByTime(source) && |InRange(source, start, end)| >= PAGE
    ensures var r := InRange(source, start, end);
      InRange(source, r[PAGE - 1].time + 1, end) == After(r, PAGE) && r[PAGE - 1].time >= start
  {
    RangeOrdered(source, start, end);
    var r := InRange(source, start, end);
    var cursor := r[PAGE - 1].time + 1;
    Sorting.KeepKeep(source, Within(start, end), Within(cursor, end));
    AfterIsLater(r, PAGE);
    var n := |r| - |After(r, PAGE)|;
    forall i | 0 <= i < |r| ensures Within(cursor, end)(r[i]) <==> n <= i < |r| {
    }
    Sorting.KeepWindow(r, Within(cursor, end), n, |r|);
  }

  method FetchIncome(source: seq<Event>, start: int, end: int) returns (all: seq<Event>)
    requires ByTime(source)
    ensures all == Fetched(InRange(source, start, end))
  {
    all := [];
    var cursor := start;
    while cursor < end
      invariant start <= cursor
      invariant all + Fetched(InRange(source, cursor, end)) == Fetched(InRange(source, start, end))
      decreases end - cursor
    {
      var batch := Reply(source, cursor, end);
      if batch == [] {
        break;
      }
      ghost var r := InRange(source, cursor, end);
      all := all + batch;
      if |batch| < PAGE {
        return;
      }
      CursorAdvances(source, cursor, end);
      assert batch == r[..PAGE] && batch[|batch| - 1] == r[PAGE - 1];
      cursor := batch[|batch| - 1].time + 1;
    }
    if cursor >= end { Sorting.KeepNone(source, Within(cursor, end)); }
    assert InRange(source, cursor, end) == [];
  }

  /** No page boundary falls between two events of equal time. */
  ghost predicate NoSplit(r: seq<Event>)
    decreases |r|
  {
    |r| <= PAGE || (r[PAGE].time > r[PAGE - 1].time && NoSplit(r[PAGE..]))
  }

  lemma {:induction false} FetchedCount(r: seq<Event>)
    requires ByTime(r)
    ensures |Fetched(r)| <= |r| && multiset(Fetched(r)) <= multiset(r)
    ensures |Fetched(r)| == |r| <==> NoSplit(r)
    ensures NoSplit(r) ==> Fetched(r) == r
    decreases |r|
  {
    if |r| >= PAGE {
      var rest := After(r, PAGE);
      AfterIsLater(r, PAGE);
      FetchedCount(rest);
      BagParts(r, PAGE, |r| - |rest|);
      if |r| > PAGE && r[PAGE].time > r[PAGE - 1].time {
        assert rest == r[PAGE..];
      }
    }
  }

  lemma BagParts(r: seq<Event>, a: nat, b: nat)
    requires a <= b <= |r|
    ensures multiset(r[..a]) + multiset(r[b..]) <= multiset(r)
  {
    assert r == r[..a] + (r[a..b] + r[b..]);
  }

  /** The fetch returns every event of the range exactly once if and only if no page boundary splits a time. */
  lemma CompleteExactlyWhen(source: seq<Event>, start: int, end: int)
    requires ByTime(source)
    ensures Fetched(InRange(source, start, end)) == InRange(source, start, end)
      <==> NoSplit(InRange(source, start, end))
    ensures multiset(Fetched(InRange(source, start, end))) <= multiset(InRange(source, start, end))
  {
    RangeOrdered(source, start, end);
    FetchedCount(InRange(source, start, end));
  }

  /** Events of one time. */
  function Burst(time: int, n: nat): seq<Event> { seq(n, i requires 0 <= i < n => Event(time, i)) }

  /** More events of one time than a page holds: the boundary splits them, and the fetch returns one page of them. */
  lemma BurstIsCut(time: int, n: nat, start: int, end: int)
    requires n > 1000 && start <= time < end
    ensures var source := Burst(time, n);
      && ByTime(source) && InRange(source, start, end) == source && !NoSplit(source)
      && Fetched(source) == source[..1000] != source
  {
    var source := Burst(time, n);
    Sorting.KeepAll(source, Within(start, end));
    AfterIsLater(source, PAGE);
    var rest := After(source, PAGE);
    assert source[n - 1].time == source[PAGE - 1].time;
    assert rest == [];
    assert Fetched(source) == source[..PAGE] + Fetched(rest);
  }
}
