/**
 FIFO attribution of an opening time to every closing fill. Quantities are whole lots, so the
 1e-8 comparisons are exact. The queue loop is proved to refine a cumulative-quantity rule.
 */
module OpenTimes {
  import opened Numerics
  import Sorting

  datatype Side = Buy | Sell | OtherSide

  datatype Fill = Fill(id: string, side: Side, qty: nat, time: int)

  datatype Lot = Lot(time: int, qty: nat)

  // ---------- the queue ----------

  function Consume(queue: seq<Lot>, qty: nat): seq<Lot> {
    if qty == 0 || queue == [] then queue
    else if queue[0].qty <= qty then Consume(queue[1..], qty - queue[0].qty)
    else [queue[0].(qty := queue[0].qty - qty)] + queue[1..]
  }

  function Queue(fills: seq<Fill>, open: Side, close: Side): seq<Lot> {
    if fills == [] then []
    else
      var last, queue := fills[|fills| - 1], Queue(fills[..|fills| - 1], open, close);
      if last.side == open then queue + [Lot(last.time, last.qty)]
      else if last.side == close then Consume(queue, last.qty)
      else queue
  }

  function HeadTime(queue: seq<Lot>): int { if queue == [] then 0 else queue[0].time }

  /** The dictionary after one direction's pass: each closing fill's id, mapped to the queue head it met. */
  function Times(fills: seq<Fill>, open: Side, close: Side, base: map<string, int>): map<string, int> {
    if fills == [] then base
    else
      var last, init := fills[|fills| - 1], fills[..|fills| - 1];
      var times := Times(init, open, close, base);
      if last.side != open && last.side == close then times[last.id := HeadTime(Queue(init, open, close))] else times
  }

  function FillTime(f: Fill): real { f.time as real }

  function ByTime(fills: seq<Fill>): seq<Fill> { Sorting.SortBy(fills, FillTime) }

  method ConsumeLots(queue: seq<Lot>, qty: nat) returns (r: seq<Lot>)
    ensures r == Consume(queue, qty)
  {
    r := queue;
    var remaining: nat := qty;
    while remaining > 0 && r != []
      invariant Consume(r, remaining) == Consume(queue, qty)
      decreases |r| + remaining
    {
      if r[0].qty <= remaining {
        remaining := remaining - r[0].qty;
        r := r[1..];
      } else {
        r := r[0 := r[0].(qty := r[0].qty - remaining)];
        remaining := 0;
      }
    }
  }

  method MatchDirection(fills: seq<Fill>, open: Side, close: Side, base: map<string, int>)
    returns (times: map<string, int>)
    ensures times == Times(fills, open, close, base)
  {
    times := base;
    var queue := [];
    for i := 0 to |fills|
      invariant queue == Queue(fills[..i], open, close)
      invariant times == Times(fills[..i], open, close, base)
    {
      assert fills[..i + 1][..i] == fills[..i];
      var fill := fills[i];
      if fill.side == open {
        queue := queue + [Lot(fill.time, fill.qty)];
      } else if fill.side == close {
        times := times[fill.id := HeadTime(queue)];
        queue := ConsumeLots(queue, fill.qty);
      }
    }
    assert fills[..|fills|] == fills;
  }

  /** Longs first (closed by sells), then shorts (closed by buys). */
  function SymbolTimes(raw: seq<Fill>, base: map<string, int>): map<string, int> {
    Times(ByTime(raw), Sell, Buy, Times(ByTime(raw), Buy, Sell, base))
  }

  function AllTimes(symbols: seq<seq<Fill>>): map<string, int> {
    if symbols == [] then map[] else SymbolTimes(symbols[|symbols| - 1], AllTimes(symbols[..|symbols| - 1]))
  }

  /** Every symbol's fills, one after the other, into one dictionary. */
  method CloseOpenTimes(symbols: seq<seq<Fill>>) returns (times: map<string, int>)
    ensures times == AllTimes(symbols)
  {
    times := map[];
    for s := 0 to |symbols|
      invariant times == AllTimes(symbols[..s])
    {
      assert symbols[..s + 1][..s] == symbols[..s];
      var fills := Sorting.SortBy(symbols[s], FillTime);
      times := MatchDirection(fills, Buy, Sell, times);
      times := MatchDirection(fills, Sell, Buy, times);
    }
    assert symbols[..|symbols|] == symbols;
  }

  // ---------- the cumulative rule ----------

  function Opens(fills: seq<Fill>, open: Side): seq<Lot> {
    if fills == [] then []
    else
      var last, opens := fills[|fills| - 1], Opens(fills[..|fills| - 1], open);
      if last.side == open then opens + [Lot(last.time, last.qty)] else opens
  }

  /** Lots opened by the first k opening fills. */
  function CumOpen(opens: seq<Lot>, k: nat): nat
    requires k <= |opens|
  {
    if k == 0 then 0 else CumOpen(opens, k - 1) + opens[k - 1].qty
  }

  function Opened(fills: seq<Fill>, open: Side): nat { CumOpen(Opens(fills, open), |Opens(fills, open)|) }

  /** Lots closed against open ones: a close beyond what is open is cut off. */
  function Closed(fills: seq<Fill>, open: Side, close: Side): nat {
    if fills == [] then 0
    else
      var last, init := fills[|fills| - 1], fills[..|fills| - 1];
      var closed := Closed(init, open, close);
      if last.side == close && last.side != open then MinInt(closed + last.qty, Opened(init, open)) else closed
  }

  ghost predicate PositiveLots(lots: seq<Lot>) { forall i :: 0 <= i < |lots| ==> lots[i].qty > 0 }

  lemma {:induction false} CumOpenPrefix(a: seq<Lot>, b: seq<Lot>, k: nat)
    requires k <= |a|
    ensures CumOpen(a + b, k) == CumOpen(a, k)
  {
    if k > 0 { CumOpenPrefix(a, b, k - 1); }
  }

  lemma {:induction false} CumOpenSuffix(opens: seq<Lot>, k: nat)
    requires opens != [] && k < |opens|
    ensures CumOpen(opens, k + 1) == opens[0].qty + CumOpen(opens[1..], k)
  {
    if k > 0 { CumOpenSuffix(opens, k - 1); }
  }

  lemma {:induction false} CumOpenMonotone(opens: seq<Lot>, i: nat, j: nat)
    requires i <= j <= |opens|
    ensures CumOpen(opens, i) <= CumOpen(opens, j)
    ensures PositiveLots(opens) && i < j ==> CumOpen(opens, i) < CumOpen(opens, j)
  {
    if i < j { CumOpenMonotone(opens, i, j - 1); }
  }

  lemma OpensAppend(fills: seq<Fill>, open: Side)
    requires fills != []
    ensures var init, last := fills[..|fills| - 1], fills[|fills| - 1];
      Opened(fills, open) == Opened(init, open) + if last.side == open then last.qty else 0
  {
    var init, last := fills[..|fills| - 1], fills[|fills| - 1];
    var opens := Opens(init, open);
    if last.side == open {
      CumOpenPrefix(opens, [Lot(last.time, last.qty)], |opens|);
    }
  }

  lemma {:induction false} ClosedWithinOpened(fills: seq<Fill>, open: Side, close: Side)
    ensures Closed(fills, open, close) <= Opened(fills, open)
  {
    if fills != [] {
      ClosedWithinOpened(fills[..|fills| - 1], open, close);
      OpensAppend(fills, open);
    }
  }

  lemma {:induction false} ConsumeTwice(queue: seq<Lot>, a: nat, b: nat)
    ensures Consume(Consume(queue, a), b) == Consume(queue, a + b)
    decreases |queue|
  {
    if a != 0 && queue != [] {
      if queue[0].qty <= a {
        ConsumeTwice(queue[1..], a - queue[0].qty, b);
      } else {
        var cut := [queue[0].(qty := queue[0].qty - a)] + queue[1..];
        assert Consume(queue, a) == cut && cut[1..] == queue[1..];
      }
    }
  }

  lemma {:induction false} ConsumeThenOpen(queue: seq<Lot>, c: nat, x: Lot)
    requires c <= CumOpen(queue, |queue|)
    ensures Consume(queue, c) + [x] == Consume(queue + [x], c)
    decreases |queue|
  {
    if c != 0 && queue != [] {
      CumOpenSuffix(queue, |queue| - 1);
      assert (queue + [x])[1..] == queue[1..] + [x];
      if queue[0].qty <= c {
        ConsumeThenOpen(queue[1..], c - queue[0].qty, x);
      }
    }
  }

  lemma {:induction false} ConsumeAll(queue: seq<Lot>, c: nat)
    requires PositiveLots(queue) && c >= CumOpen(queue, |queue|)
    ensures Consume(queue, c) == []
    decreases |queue|
  {
    if queue != [] {
      CumOpenSuffix(queue, |queue| - 1);
      ConsumeAll(queue[1..], c - queue[0].qty);
    }
  }

  lemma ConsumeMore(opens: seq<Lot>, c: nat, qty: nat)
    requires PositiveLots(opens)
    ensures Consume(Consume(opens, c), qty) == Consume(opens, MinInt(c + qty, CumOpen(opens, |opens|)))
  {
    ConsumeTwice(opens, c, qty);
    if c + qty > CumOpen(opens, |opens|) {
      ConsumeAll(opens, c + qty);
      ConsumeAll(opens, CumOpen(opens, |opens|));
    }
  }

  function Total(queue: seq<Lot>): nat { CumOpen(queue, |queue|) }

  lemma TotalSplit(queue: seq<Lot>)
    requires queue != []
    ensures Total(queue) == queue[0].qty + Total(queue[1..])
  {
    CumOpenSuffix(queue, |queue| - 1);
  }

  lemma {:induction false} ConsumeTotal(queue: seq<Lot>, c: nat)
    ensures Total(Consume(queue, c)) == MaxInt(0, Total(queue) - c)
    decreases |queue|
  {
    if c != 0 && queue != [] {
      TotalSplit(queue);
      if queue[0].qty <= c {
        ConsumeTotal(queue[1..], c - queue[0].qty);
      } else {
        var cut := Consume(queue, c);
        TotalSplit(cut);
        assert cut[1..] == queue[1..];
      }
    }
  }

  // ---------- the queue without its empty lots ----------

  function HasLots(): Lot -> bool { (x: Lot) => x.qty > 0 }

  function Filled(lots: seq<Lot>): seq<Lot> { Sorting.Keep(lots, HasLots()) }

  lemma FilledCons(x: Lot, rest: seq<Lot>)
    ensures Filled([x] + rest) == if x.qty > 0 then [x] + Filled(rest) else Filled(rest)
  {
    Sorting.KeepCons(x, rest, HasLots());
  }

  lemma FilledPositive(lots: seq<Lot>)
    ensures PositiveLots(Filled(lots)) && (PositiveLots(lots) ==> Filled(lots) == lots)
  {
    Sorting.KeepElements(lots, HasLots());
    if PositiveLots(lots) { Sorting.KeepAll(lots, HasLots()); }
    forall i | 0 <= i < |Filled(lots)| ensures Filled(lots)[i].qty > 0 { assert Filled(lots)[i] in Filled(lots); }
  }

  lemma {:induction false} FilledTotal(lots: seq<Lot>)
    ensures Total(Filled(lots)) == Total(lots)
  {
    if lots != [] {
      var x, rest := lots[0], lots[1..];
      FilledTotal(rest);
      FilledCons(x, rest);
      assert lots == [x] + rest;
      TotalSplit(lots);
      if x.qty > 0 { TotalSplit([x] + Filled(rest)); }
    }
  }

  /** Empty lots take nothing of what is consumed. */
  lemma {:induction false} FilledConsume(queue: seq<Lot>, c: nat)
    ensures Filled(Consume(queue, c)) == Consume(Filled(queue), c)
    decreases |queue|
  {
    if c != 0 && queue != [] {
      var x, rest := queue[0], queue[1..];
      assert queue == [x] + rest;
      FilledCons(x, rest);
      if x.qty <= c {
        FilledConsume(rest, c - x.qty);
        if x.qty > 0 { assert ([x] + Filled(rest))[1..] == Filled(rest); }
      } else {
        FilledCons(x.(qty := x.qty - c), rest);
        assert ([x] + Filled(rest))[1..] == Filled(rest);
      }
    }
  }

  /** Whatever the quantities, the queue's lots are those of the opening fills with the closed ones taken off the front:
      they differ at most in empty lots, and not at all when every opening fill has a quantity. */
  lemma QueueIsRemainder(fills: seq<Fill>, open: Side, close: Side)
    requires open != close
    ensures Filled(Queue(fills, open, close)) == Consume(Filled(Opens(fills, open)), Closed(fills, open, close))
    ensures PositiveLots(Opens(fills, open)) ==>
      Queue(fills, open, close) == Consume(Opens(fills, open), Closed(fills, open, close))
  {
    FilledIsRemainder(fills, open, close);
    QueueIsTail(fills, open, close);
    FilledPositive(Opens(fills, open));
    FilledPositive(Queue(fills, open, close));
  }

  lemma {:induction false} FilledIsRemainder(fills: seq<Fill>, open: Side, close: Side)
    requires open != close
    ensures Filled(Queue(fills, open, close)) == Consume(Filled(Opens(fills, open)), Closed(fills, open, close))
  {
    if fills != [] {
      var init, last := fills[..|fills| - 1], fills[|fills| - 1];
      FilledIsRemainder(init, open, close);
      if last.side == open {
        RemainderOpens(init, last, open, close);
      } else if last.side == close {
        RemainderCloses(init, last, open, close);
      }
    }
  }

  lemma RemainderOpens(init: seq<Fill>, f: Fill, open: Side, close: Side)
    requires open != close
    requires Filled(Queue(init, open, close)) == Consume(Filled(Opens(init, open)), Closed(init, open, close))
    ensures var x := Lot(f.time, f.qty);
      Filled(Queue(init, open, close) + [x]) == Consume(Filled(Opens(init, open) + [x]), Closed(init, open, close))
  {
    var x := Lot(f.time, f.qty);
    Sorting.KeepGrows(Queue(init, open, close), x, HasLots());
    Sorting.KeepGrows(Opens(init, open), x, HasLots());
    ClosedWithinOpened(init, open, close);
    FilledTotal(Opens(init, open));
    ConsumeThenOpen(Filled(Opens(init, open)), Closed(init, open, close), x);
  }

  lemma RemainderCloses(init: seq<Fill>, f: Fill, open: Side, close: Side)
    requires Filled(Queue(init, open, close)) == Consume(Filled(Opens(init, open)), Closed(init, open, close))
    ensures Filled(Consume(Queue(init, open, close), f.qty))
         == Consume(Filled(Opens(init, open)), MinInt(Closed(init, open, close) + f.qty, Opened(init, open)))
  {
    FilledConsume(Queue(init, open, close), f.qty);
    FilledPositive(Opens(init, open));
    FilledTotal(Opens(init, open));
    ConsumeMore(Filled(Opens(init, open)), Closed(init, open, close), f.qty);
  }

  /** What is left of `whole` when its first lots have been popped and the next one perhaps cut. */
  ghost predicate Tail(queue: seq<Lot>, whole: seq<Lot>) {
    && |queue| <= |whole|
    && (queue != [] ==> CutFrom(queue[0], whole[|whole| - |queue|]) && queue[1..] == whole[|whole| - |queue| + 1..])
  }

  predicate CutFrom(rest: Lot, lot: Lot) {
    rest.time == lot.time && (rest.qty == lot.qty || 0 < rest.qty <= lot.qty)
  }

  lemma {:induction false} ConsumeIsTail(queue: seq<Lot>, c: nat)
    ensures Tail(Consume(queue, c), queue)
    decreases |queue|
  {
    if c != 0 && queue != [] && queue[0].qty <= c {
      ConsumeIsTail(queue[1..], c - queue[0].qty);
      var r := Consume(queue[1..], c - queue[0].qty);
      if r != [] {
        var k := |queue| - 1 - |r|;
        assert queue[1..][k] == queue[k + 1] && queue[1..][k + 1..] == queue[k + 2..];
      }
    }
  }

  lemma TailOfTail(a: seq<Lot>, b: seq<Lot>, c: seq<Lot>)
    requires Tail(a, b) && Tail(b, c)
    ensures Tail(a, c)
  {
    if a != [] && |a| < |b| {
      var k := |b| - |a|;
      assert b[1..][k - 1] == b[k] && b[1..][k..] == b[k + 1..];
      assert c[|c| - |b| + 1..][k - 1] == c[|c| - |a|] && c[|c| - |b| + 1..][k..] == c[|c| - |a| + 1..];
    }
  }

  lemma TailGrows(queue: seq<Lot>, whole: seq<Lot>, x: Lot)
    requires Tail(queue, whole)
    ensures Tail(queue + [x], whole + [x])
  {
    var k := |whole| - |queue|;
    if queue != [] {
      assert (queue + [x])[1..] == queue[1..] + [x] && (whole + [x])[k + 1..] == whole[k + 1..] + [x];
    }
  }

  /** Whatever the quantities, the queue is a tail of the opening fills, only its head ever being cut. */
  lemma {:induction false} QueueIsTail(fills: seq<Fill>, open: Side, close: Side)
    ensures Tail(Queue(fills, open, close), Opens(fills, open))
  {
    if fills != [] {
      var init, last := fills[..|fills| - 1], fills[|fills| - 1];
      QueueIsTail(init, open, close);
      if last.side == open {
        TailGrows(Queue(init, open, close), Opens(init, open), Lot(last.time, last.qty));
      } else if last.side == close {
        ConsumeIsTail(Queue(init, open, close), last.qty);
        TailOfTail(Queue(fills, open, close), Queue(init, open, close), Opens(init, open));
      }
    }
  }

  /** Which opening fill is at the head: the one whose lots contain the next lot to close. */
  lemma {:induction false} HeadOf(opens: seq<Lot>, c: nat) returns (k: nat)
    requires PositiveLots(opens) && c < Total(opens)
    ensures k < |opens| && CumOpen(opens, k) <= c < CumOpen(opens, k + 1)
    ensures Consume(opens, c) != [] && Consume(opens, c)[0].time == opens[k].time
    decreases |opens|
  {
    TotalSplit(opens);
    if c < opens[0].qty {
      k := 0;
      assert CumOpen(opens, 1) == opens[0].qty;
    } else {
      k := HeadOf(opens[1..], c - opens[0].qty);
      CumOpenSuffix(opens, k);
      if k > 0 { CumOpenSuffix(opens, k - 1); }
      k := k + 1;
      assert CumOpen(opens, 1) == opens[0].qty;
    }
  }

  /** Whatever the quantities, the remaining quantity is what was opened less what was closed. */
  lemma {:induction false} RemainingQuantity(fills: seq<Fill>, open: Side, close: Side)
    requires open != close
    ensures Total(Queue(fills, open, close)) == Opened(fills, open) - Closed(fills, open, close)
  {
    if fills != [] {
      var init, last := fills[..|fills| - 1], fills[|fills| - 1];
      RemainingQuantity(init, open, close);
      ClosedWithinOpened(init, open, close);
      OpensAppend(fills, open);
      var queue := Queue(init, open, close);
      if last.side == open {
        CumOpenPrefix(queue, [Lot(last.time, last.qty)], |queue|);
      } else if last.side == close {
        ConsumeTotal(queue, last.qty);
      }
    }
  }

  /** Lot number c of everything opened belongs to opening fill k. */
  ghost predicate Holds(opens: seq<Lot>, c: nat, k: nat) {
    k < |opens| && CumOpen(opens, k) <= c < CumOpen(opens, k + 1)
  }

  lemma OnlyOne(opens: seq<Lot>, j: nat, k: nat, c: nat)
    requires Holds(opens, c, j) && Holds(opens, c, k)
    ensures j == k
  {
    if j < k { CumOpenMonotone(opens, j + 1, k); }
    if k < j { CumOpenMonotone(opens, k + 1, j); }
  }

  /** Nothing is open exactly when all that the queue still lists is empty fills; so when all opening fills have a
      quantity, exactly when a close finds no opening fill. */
  lemma NothingOpen(fills: seq<Fill>, open: Side, close: Side)
    requires open != close
    ensures Closed(fills, open, close) == Opened(fills, open) <==> AllEmpty(Queue(fills, open, close))
    ensures PositiveLots(Opens(fills, open)) ==>
      (Closed(fills, open, close) == Opened(fills, open) <==> Queue(fills, open, close) == [])
  {
    RemainingQuantity(fills, open, close);
    EmptyTotal(Queue(fills, open, close));
    QueueIsTail(fills, open, close);
  }

  ghost predicate DistinctTimes(lots: seq<Lot>) {
    forall i, j :: 0 <= i < j < |lots| ==> lots[i].time != lots[j].time
  }

  /** No empty lot comes before one that is not. */
  ghost predicate NoIdleLot(lots: seq<Lot>) {
    forall i, j :: 0 <= i < j < |lots| && lots[i].qty == 0 ==> lots[j].qty == 0
  }

  /** A time of 0 stands for no opening fill, so no fill may carry it. */
  ghost predicate NonZeroTimes(lots: seq<Lot>) { forall i :: 0 <= i < |lots| ==> lots[i].time != 0 }

  /** The lot holding the next one to close lends its time; with nothing left to close the time is 0. */
  ghost predicate ByRule(opens: seq<Lot>, c: nat, time: int) {
    if c < Total(opens) then exists k: nat :: Holds(opens, c, k) && time == opens[k].time else time == 0
  }

  lemma CumOpenSplit(opens: seq<Lot>, k: nat)
    requires k <= |opens|
    ensures Total(opens) == CumOpen(opens, k) + Total(opens[k..])
    decreases |opens| - k
  {
    if k == |opens| {
      assert opens[k..] == [];
    } else {
      CumOpenSplit(opens, k + 1);
      TotalSplit(opens[k..]);
      assert opens[k..][1..] == opens[k + 1..];
    }
  }

  /** The head is the holder of the next lot to close exactly when it is not empty. */
  lemma HeadHoldsExactlyWhen(fills: seq<Fill>, open: Side, close: Side)
    requires open != close && Queue(fills, open, close) != []
    ensures var queue, opens := Queue(fills, open, close), Opens(fills, open);
      && |queue| <= |opens| && CutFrom(queue[0], opens[|opens| - |queue|])
      && (Holds(opens, Closed(fills, open, close), |opens| - |queue|) <==> queue[0].qty > 0)
  {
    QueueIsTail(fills, open, close);
    RemainingQuantity(fills, open, close);
    ClosedWithinOpened(fills, open, close);
    HeadHolds(Queue(fills, open, close), Opens(fills, open), Closed(fills, open, close));
  }

  lemma HeadHolds(queue: seq<Lot>, opens: seq<Lot>, c: nat)
    requires queue != [] && Tail(queue, opens) && Total(queue) + c == Total(opens)
    ensures Holds(opens, c, |opens| - |queue|) <==> queue[0].qty > 0
  {
    var k := |opens| - |queue|;
    TotalSplit(queue);
    CumOpenSplit(opens, k + 1);
    assert CumOpen(opens, k + 1) == CumOpen(opens, k) + opens[k].qty;
  }

  /** Whatever the quantities, for opening fills of distinct non-zero times: a close is given the time the rule names,
      0 with nothing open included, if and only if the queue is empty or the fill at its head has something left. */
  lemma AttributedExactlyWhen(fills: seq<Fill>, open: Side, close: Side)
    requires open != close && DistinctTimes(Opens(fills, open)) && NonZeroTimes(Opens(fills, open))
    ensures ByRule(Opens(fills, open), Closed(fills, open, close), HeadTime(Queue(fills, open, close)))
       <==> Queue(fills, open, close) == [] || Queue(fills, open, close)[0].qty > 0
  {
    RemainingQuantity(fills, open, close);
    ClosedWithinOpened(fills, open, close);
    if Queue(fills, open, close) != [] {
      HeadHoldsExactlyWhen(fills, open, close);
      HeadByRule(Queue(fills, open, close), Opens(fills, open), Closed(fills, open, close));
    }
  }

  lemma HeadByRule(queue: seq<Lot>, opens: seq<Lot>, c: nat)
    requires queue != [] && |queue| <= |opens| && CutFrom(queue[0], opens[|opens| - |queue|])
    requires Total(queue) + c == Total(opens) && DistinctTimes(opens) && NonZeroTimes(opens)
    requires Holds(opens, c, |opens| - |queue|) <==> queue[0].qty > 0
    ensures ByRule(opens, c, queue[0].time) <==> queue[0].qty > 0
  {
    TotalSplit(queue);
    if queue[0].qty == 0 {
      forall k: nat | Holds(opens, c, k) ensures opens[k].time != queue[0].time {
        assert k != |opens| - |queue|;
      }
    }
  }

  /** With something open it is given the time of the one opening fill k with cumOpen(k) <= closed < cumOpen(k + 1),
      as long as no empty opening fill comes before one that is not. */
  lemma AttributedOpen(fills: seq<Fill>, open: Side, close: Side) returns (k: nat)
    requires open != close && Closed(fills, open, close) != Opened(fills, open) && NoIdleLot(Opens(fills, open))
    ensures Holds(Opens(fills, open), Closed(fills, open, close), k)
    ensures HeadTime(Queue(fills, open, close)) == Opens(fills, open)[k].time
    ensures forall j :: Holds(Opens(fills, open), Closed(fills, open, close), j) ==> j == k
  {
    RemainingQuantity(fills, open, close);
    ClosedWithinOpened(fills, open, close);
    HeadHoldsExactlyWhen(fills, open, close);
    QueueIsTail(fills, open, close);
    var queue, opens, c := Queue(fills, open, close), Opens(fills, open), Closed(fills, open, close);
    k := |opens| - |queue|;
    if queue[0].qty == 0 {
      TotalSplit(queue);
      EmptyTotal(queue[1..]);
    }
    forall j | Holds(opens, c, j) ensures j == k {
      OnlyOne(opens, j, k, c);
    }
  }

  ghost predicate AllEmpty(lots: seq<Lot>) { forall i :: 0 <= i < |lots| ==> lots[i].qty == 0 }

  lemma {:induction false} EmptyTotal(lots: seq<Lot>)
    ensures AllEmpty(lots) <==> Total(lots) == 0
  {
    if lots != [] {
      TotalSplit(lots);
      EmptyTotal(lots[1..]);
      assert lots == [lots[0]] + lots[1..];
    }
  }

  /** After c lots are taken the head is the first lot that ends beyond them, or starts right there. */
  lemma {:induction false} HeadIndex(lots: seq<Lot>, c: nat) returns (p: nat)
    requires c < Total(lots)
    ensures p < |lots| && Consume(lots, c) != [] && HeadTime(Consume(lots, c)) == lots[p].time
    ensures CumOpen(lots, p) == c || CumOpen(lots, p) < c < CumOpen(lots, p + 1)
    ensures forall q :: 0 <= q < p ==> CumOpen(lots, q) < c
    decreases |lots|
  {
    TotalSplit(lots);
    if c == 0 || c < lots[0].qty {
      p := 0;
      assert CumOpen(lots, 1) == CumOpen(lots, 0) + lots[0].qty;
    } else {
      var r := HeadIndex(lots[1..], c - lots[0].qty);
      p := r + 1;
      CumOpenSuffix(lots, r);
      if r > 0 { CumOpenSuffix(lots, r - 1); }
      forall q | 0 <= q < p ensures CumOpen(lots, q) < c {
        if q > 0 {
          CumOpenSuffix(lots, q - 1);
          assert CumOpen(lots[1..], q - 1) < c - lots[0].qty;
        }
      }
    }
  }

  lemma HolderBeyond(lots: seq<Lot>, i: nat, k: nat)
    requires i < |lots| && lots[i].qty == 0 && Holds(lots, CumOpen(lots, i), k)
    ensures i < k
  {
    if k <= i { CumOpenMonotone(lots, k + 1, i + 1); }
  }

  lemma IdleHead(lots: seq<Lot>, i: nat) returns (p: nat)
    requires i < |lots| && CumOpen(lots, i) < Total(lots)
    ensures p <= i && HeadTime(Consume(lots, CumOpen(lots, i))) == lots[p].time
  {
    p := HeadIndex(lots, CumOpen(lots, i));
  }

  lemma IdleLotMisleads(lots: seq<Lot>, i: nat)
    requires DistinctTimes(lots) && i < |lots| && lots[i].qty == 0 && CumOpen(lots, i) < Total(lots)
    ensures !ByRule(lots, CumOpen(lots, i), HeadTime(Consume(lots, CumOpen(lots, i))))
  {
    var p := IdleHead(lots, i);
    forall k: nat | Holds(lots, CumOpen(lots, i), k) ensures lots[k].time != lots[p].time {
      HolderBeyond(lots, i, k);
    }
  }

  lemma {:induction false} EmptyLotStays(lots: seq<Lot>, i: nat)
    requires i < |lots| && lots[i].qty == 0
    ensures Consume(lots, CumOpen(lots, i)) != []
    decreases |lots|
  {
    if i > 0 {
      CumOpenSuffix(lots, i - 1);
      EmptyLotStays(lots[1..], i - 1);
    }
  }

  lemma EmptyLotMisleads(lots: seq<Lot>, i: nat)
    requires DistinctTimes(lots) && NonZeroTimes(lots) && i < |lots| && lots[i].qty == 0
    ensures !ByRule(lots, CumOpen(lots, i), HeadTime(Consume(lots, CumOpen(lots, i))))
  {
    if CumOpen(lots, i) < Total(lots) {
      IdleLotMisleads(lots, i);
    } else {
      EmptyLotStays(lots, i);
      ConsumeIsTail(lots, CumOpen(lots, i));
    }
  }

  /** The rule over the lots themselves: with distinct non-zero times, however many have been closed the next close is
      given the time the rule names if and only if no lot is empty. */
  lemma RuleExactlyWhen(lots: seq<Lot>)
    requires DistinctTimes(lots) && NonZeroTimes(lots)
    ensures (forall c: nat :: ByRule(lots, c, HeadTime(Consume(lots, c)))) <==> PositiveLots(lots)
  {
    if PositiveLots(lots) {
      forall c: nat ensures ByRule(lots, c, HeadTime(Consume(lots, c))) {
        if c < Total(lots) {
          var k := HeadOf(lots, c);
          assert Holds(lots, c, k);
        } else {
          ConsumeAll(lots, c);
        }
      }
    } else {
      var i :| 0 <= i < |lots| && lots[i].qty == 0;
      EmptyLotMisleads(lots, i);
    }
  }

  // ---------- times ----------

  ghost predicate TimeSorted(fills: seq<Fill>) {
    forall i, j :: 0 <= i < j < |fills| ==> fills[i].time <= fills[j].time
  }

  lemma {:induction false} OpensInTime(fills: seq<Fill>, open: Side, bound: int)
    requires TimeSorted(fills) && forall i :: 0 <= i < |fills| ==> fills[i].time <= bound
    ensures forall i, j :: 0 <= i < j < |Opens(fills, open)| ==>
      Opens(fills, open)[i].time <= Opens(fills, open)[j].time
    ensures forall i :: 0 <= i < |Opens(fills, open)| ==> Opens(fills, open)[i].time <= bound
  {
    if fills != [] {
      var n := |fills| - 1;
      OpensInTime(fills[..n], open, fills[n].time);
    }
  }

  lemma {:induction false} OpensGrow(fills: seq<Fill>, open: Side, n: nat)
    requires n <= |fills|
    ensures Opens(fills[..n], open) <= Opens(fills, open)
    decreases |fills|
  {
    if n == |fills| {
      assert fills[..n] == fills;
    } else {
      var init := fills[..|fills| - 1];
      OpensGrow(init, open, n);
      assert init[..n] == fills[..n];
    }
  }

  /** Opening fills that have left the queue never come back. */
  lemma {:induction false} PoppedGrows(fills: seq<Fill>, open: Side, close: Side, n: nat)
    requires n <= |fills|
    ensures |Opens(fills[..n], open)| - |Queue(fills[..n], open, close)|
      <= |Opens(fills, open)| - |Queue(fills, open, close)|
    decreases |fills|
  {
    if n == |fills| {
      assert fills[..n] == fills;
    } else {
      var init := fills[..|fills| - 1];
      PoppedGrows(init, open, close, n);
      ConsumeIsTail(Queue(init, open, close), fills[|fills| - 1].qty);
      assert init[..n] == fills[..n];
    }
  }

  /** Whatever the quantities, an attributed open time never exceeds the close's own time. */
  lemma OpenBeforeClose(fills: seq<Fill>, i: nat, open: Side, close: Side)
    requires TimeSorted(fills) && i < |fills| && Queue(fills[..i], open, close) != []
    ensures HeadTime(Queue(fills[..i], open, close)) <= fills[i].time
  {
    QueueIsTail(fills[..i], open, close);
    OpensInTime(fills[..i], open, fills[i].time);
  }

  /** Nor are later closes ever attributed to earlier openings: open times do not decrease. */
  lemma OpenTimesNeverDecrease(fills: seq<Fill>, n: nat, open: Side, close: Side)
    requires TimeSorted(fills) && n <= |fills|
    requires Queue(fills[..n], open, close) != [] && Queue(fills, open, close) != []
    ensures HeadTime(Queue(fills[..n], open, close)) <= HeadTime(Queue(fills, open, close))
  {
    QueueIsTail(fills[..n], open, close);
    QueueIsTail(fills, open, close);
    OpensGrow(fills, open, n);
    PoppedGrows(fills, open, close, n);
    OpensInTime(fills, open, fills[|fills| - 1].time);
  }

  /** With distinct ids, the dictionary entry of a close is the head its own pass met. */
  lemma {:induction false} TimesEntry(fills: seq<Fill>, open: Side, close: Side, base: map<string, int>, i: nat)
    requires open != close && i < |fills|
    requires forall a, b :: 0 <= a < b < |fills| ==> fills[a].id != fills[b].id
    ensures fills[i].side == close || fills[i].id in base ==> fills[i].id in Times(fills, open, close, base)
    ensures fills[i].side == close
      ==> Times(fills, open, close, base)[fills[i].id] == HeadTime(Queue(fills[..i], open, close))
    ensures fills[i].side != close && fills[i].id in base
      ==> Times(fills, open, close, base)[fills[i].id] == base[fills[i].id]
    decreases |fills|
  {
    var n := |fills| - 1;
    if i < n {
      TimesEntry(fills[..n], open, close, base, i);
      assert fills[..n][..i] == fills[..i];
    } else if fills[i].id in base {
      TimesOthers(fills[..n], open, close, base, fills[i].id);
    }
  }

  lemma {:induction false} TimesOthers(fills: seq<Fill>, open: Side, close: Side, base: map<string, int>, id: string)
    requires id in base && forall i :: 0 <= i < |fills| && fills[i].side == close ==> fills[i].id != id
    ensures id in Times(fills, open, close, base) && Times(fills, open, close, base)[id] == base[id]
  {
    if fills != [] { TimesOthers(fills[..|fills| - 1], open, close, base, id); }
  }

  ghost predicate DistinctIds(fills: seq<Fill>) {
    forall a, b :: 0 <= a < b < |fills| ==> fills[a].id != fills[b].id
  }

  /** Both passes of one symbol: every sell gets the head of the long queue, every buy that of the short queue. */
  lemma SymbolAttributed(raw: seq<Fill>, base: map<string, int>, i: nat)
    requires i < |ByTime(raw)| && DistinctIds(ByTime(raw))
    ensures AttributedIn(ByTime(raw), i, SymbolTimes(raw, base))
  {
    TimesEntry(ByTime(raw), Buy, Sell, base, i);
    TimesEntry(ByTime(raw), Sell, Buy, Times(ByTime(raw), Buy, Sell, base), i);
  }

  /** The entry of a fill in the dictionary is the head of the queue it closes from. */
  ghost predicate AttributedIn(fills: seq<Fill>, i: nat, times: map<string, int>)
    requires i < |fills|
  {
    var f, seen := fills[i], fills[..i];
    && (f.side == Sell ==> f.id in times && times[f.id] == HeadTime(Queue(seen, Buy, Sell)))
    && (f.side == Buy ==> f.id in times && times[f.id] == HeadTime(Queue(seen, Sell, Buy)))
  }

  /** A fill that closes, in one direction or the other, under the id. */
  predicate ClosesUnder(f: Fill, id: string) { f.id == id && f.side != OtherSide }

  /** No fill of a later symbol closes under the id. */
  ghost predicate NoneLater(symbols: seq<seq<Fill>>, s: nat, id: string) {
    forall t, j :: s < t < |symbols| && 0 <= j < |symbols[t]| ==> !ClosesUnder(symbols[t][j], id)
  }

  lemma {:induction false} HeadAttributed(symbols: seq<seq<Fill>>, s: nat, i: nat)
    requires s < |symbols| && i < |ByTime(symbols[s])| && DistinctIds(ByTime(symbols[s]))
    requires NoneLater(symbols, s, ByTime(symbols[s])[i].id)
    ensures AttributedIn(ByTime(symbols[s]), i, AllTimes(symbols))
    decreases |symbols|
  {
    var n := |symbols| - 1;
    if s == n {
      SymbolAttributed(symbols[s], AllTimes(symbols[..n]), i);
    } else {
      assert forall t :: 0 <= t < n ==> symbols[..n][t] == symbols[t];
      HeadAttributed(symbols[..n], s, i);
      var f, base, last := ByTime(symbols[s])[i], AllTimes(symbols[..n]), ByTime(symbols[n]);
      if f.id in base {
        SortedMembers(symbols[n]);
        forall j | 0 <= j < |last| ensures !ClosesUnder(last[j], f.id) { assert last[j] in last; }
        TimesOthers(last, Buy, Sell, base, f.id);
        TimesOthers(last, Sell, Buy, Times(last, Buy, Sell, base), f.id);
      }
    }
  }

  // ---------- the dictionary over the fills as they come ----------

  /** Fill j comes before fill k: it is earlier in time, or of the same time and reported before it. */
  predicate TimedBefore(raw: seq<Fill>, j: nat, k: nat)
    requires j < |raw| && k < |raw|
  {
    raw[j].time < raw[k].time || (raw[j].time == raw[k].time && j < k)
  }

  lemma SortedMembers(raw: seq<Fill>)
    ensures forall f :: f in ByTime(raw) <==> f in raw
  {
    Sorting.SortByIsSort(raw, FillTime);
    forall f ensures f in ByTime(raw) <==> f in raw {
      assert f in ByTime(raw) <==> f in multiset(ByTime(raw));
    }
  }

  lemma SortedIds(raw: seq<Fill>)
    requires DistinctIds(raw)
    ensures DistinctIds(ByTime(raw))
  {
    var sorted := ByTime(raw);
    Sorting.SortByIsSort(raw, FillTime);
    forall a, b | 0 <= a < b < |sorted| ensures sorted[a].id != sorted[b].id {
      assert sorted[a] in multiset(raw) && sorted[b] in multiset(raw);
      if sorted[a].id == sorted[b].id {
        SameId(raw, sorted[a], sorted[b]);
        Sorting.TwiceCounted(sorted, a, b);
        CountedOnce(raw, sorted[a]);
      }
    }
  }

  lemma SameId(raw: seq<Fill>, f: Fill, g: Fill)
    requires DistinctIds(raw) && f in raw && g in raw && f.id == g.id
    ensures f == g
  {
  }

  lemma {:induction false} CountedOnce(raw: seq<Fill>, f: Fill)
    requires DistinctIds(raw)
    ensures multiset(raw)[f] <= 1
  {
    if raw != [] {
      var n := |raw| - 1;
      CountedOnce(raw[..n], f);
      assert raw == raw[..n] + [raw[n]];
      if f == raw[n] {
        assert f !in raw[..n];
        assert multiset(raw[..n])[f] == 0;
      }
    }
  }

  /** The matching order: oldest first, fills of one time as they were reported, and no fill lost or added. */
  lemma OldestFirst(raw: seq<Fill>)
    ensures TimeSorted(ByTime(raw)) && multiset(ByTime(raw)) == multiset(raw)
    ensures forall j, k :: 0 <= j < |raw| && 0 <= k < |raw| && TimedBefore(raw, j, k) ==>
      Sorting.Precedes(ByTime(raw), raw[j], raw[k])
  {
    Sorting.SortByIsSort(raw, FillTime);
    InTimeOrder(raw);
    forall j, k | 0 <= j < |raw| && 0 <= k < |raw| && TimedBefore(raw, j, k)
      ensures Sorting.Precedes(ByTime(raw), raw[j], raw[k])
    {
      if j < k { Sorting.SortIsStable(raw, FillTime, j, k); } else { EarlierFirst(raw, raw[j], raw[k]); }
    }
  }

  lemma InTimeOrder(raw: seq<Fill>)
    ensures TimeSorted(ByTime(raw))
  {
    var sorted := ByTime(raw);
    Sorting.SortByIsSort(raw, FillTime);
    forall a, b | 0 <= a < b < |sorted| ensures sorted[a].time <= sorted[b].time {
      assert FillTime(sorted[a]) <= FillTime(sorted[b]);
    }
  }

  lemma EarlierFirst(raw: seq<Fill>, f: Fill, g: Fill)
    requires f in raw && g in raw && f.time < g.time
    ensures Sorting.Precedes(ByTime(raw), f, g)
  {
    SortedMembers(raw);
    InTimeOrder(raw);
    assert f in ByTime(raw) && g in ByTime(raw);
    var a :| 0 <= a < |ByTime(raw)| && ByTime(raw)[a] == f;
    var b :| 0 <= b < |ByTime(raw)| && ByTime(raw)[b] == g;
    assert a < b;
  }

  /** The fills that come before fill k, in their order. */
  ghost predicate Past(raw: seq<Fill>, k: nat, seen: seq<Fill>)
    requires k < |raw|
  {
    && (forall j :: 0 <= j < |raw| ==> (raw[j] in seen <==> TimedBefore(raw, j, k)))
    && (forall f :: f in seen ==> f in raw)
    && TimeSorted(seen) && DistinctIds(seen)
    && forall i, j :: 0 <= i < |raw| && 0 <= j < |raw| && raw[i] in seen && raw[j] in seen && TimedBefore(raw, i, j) ==>
         Sorting.Precedes(seen, raw[i], raw[j])
  }

  lemma PlacedInTime(raw: seq<Fill>, k: nat) returns (i: nat)
    requires k < |raw| && DistinctIds(raw)
    ensures i < |ByTime(raw)| && ByTime(raw)[i] == raw[k] && DistinctIds(ByTime(raw))
    ensures Past(raw, k, ByTime(raw)[..i])
  {
    var sorted := ByTime(raw);
    SortedMembers(raw);
    SortedIds(raw);
    OldestFirst(raw);
    assert raw[k] in sorted;
    i :| 0 <= i < |sorted| && sorted[i] == raw[k];
    forall j | 0 <= j < |raw| ensures raw[j] in sorted[..i] <==> TimedBefore(raw, j, k) {
      BeforeInTime(raw, j, k, i);
    }
    forall f | f in sorted[..i] ensures f in raw { assert f in sorted; }
    forall a, b | 0 <= a < |raw| && 0 <= b < |raw| && raw[a] in sorted[..i] && raw[b] in sorted[..i]
                  && TimedBefore(raw, a, b)
      ensures Sorting.Precedes(sorted[..i], raw[a], raw[b])
    {
      PrecedesWithin(sorted, i, raw[a], raw[b]);
    }
  }

  lemma PrecedesWithin(sorted: seq<Fill>, i: nat, f: Fill, g: Fill)
    requires DistinctIds(sorted) && i <= |sorted| && Sorting.Precedes(sorted, f, g) && g in sorted[..i]
    ensures Sorting.Precedes(sorted[..i], f, g)
  {
    var a, b :| 0 <= a < b < |sorted| && sorted[a] == f && sorted[b] == g;
    var c :| 0 <= c < i && sorted[..i][c] == g;
    assert b == c;
    assert sorted[..i][a] == f && sorted[..i][b] == g;
  }

  lemma BeforeInTime(raw: seq<Fill>, j: nat, k: nat, i: nat)
    requires j < |raw| && k < |raw| && DistinctIds(raw) && DistinctIds(ByTime(raw))
    requires i < |ByTime(raw)| && ByTime(raw)[i] == raw[k]
    ensures raw[j] in ByTime(raw)[..i] <==> TimedBefore(raw, j, k)
  {
    var sorted := ByTime(raw);
    OldestFirst(raw);
    if TimedBefore(raw, j, k) {
      var a, b :| 0 <= a < b < |sorted| && sorted[a] == raw[j] && sorted[b] == raw[k];
      assert b == i && sorted[..i][a] == raw[j];
    } else if j != k {
      assert TimedBefore(raw, k, j);
      var b, a :| 0 <= b < a < |sorted| && sorted[b] == raw[k] && sorted[a] == raw[j];
      assert b == i;
      forall c | 0 <= c < i ensures sorted[..i][c] != raw[j] { assert sorted[c].id != sorted[a].id; }
    } else {
      forall c | 0 <= c < i ensures sorted[..i][c] != raw[j] { assert sorted[c].id != sorted[i].id; }
    }
  }

  function Opposite(close: Side): Side { if close == Sell then Buy else Sell }

  /** With every opening fill of some quantity the head is what the rule names, whatever the times. */
  lemma PositiveByRule(fills: seq<Fill>, open: Side, close: Side)
    requires open != close && PositiveLots(Opens(fills, open))
    ensures ByRule(Opens(fills, open), Closed(fills, open, close), HeadTime(Queue(fills, open, close)))
  {
    var opens, c := Opens(fills, open), Closed(fills, open, close);
    QueueIsRemainder(fills, open, close);
    ClosedWithinOpened(fills, open, close);
    if c < Total(opens) {
      var k := HeadOf(opens, c);
      assert Holds(opens, c, k);
    } else {
      ConsumeAll(opens, c);
    }
  }

  /** The dictionary over all symbols, for the fills as they are reported: unless a later symbol closes under its id,
      the entry of a close is the time the rule names for the fills of its symbol that come before it, exactly when
      their queue is empty or its head is not; so always when every opening fill has a quantity. Whatever the
      quantities, it is 0 or a time no later than the close's own. */
  lemma EveryCloseAttributed(symbols: seq<seq<Fill>>, s: nat, k: nat) returns (seen: seq<Fill>)
    requires s < |symbols| && k < |symbols[s]| && DistinctIds(symbols[s]) && symbols[s][k].side != OtherSide
    requires NoneLater(symbols, s, symbols[s][k].id)
    ensures Past(symbols[s], k, seen) && symbols[s][k].id in AllTimes(symbols)
    ensures var f := symbols[s][k];
      var open, time := Opposite(f.side), AllTimes(symbols)[f.id];
      var opens, closed, queue := Opens(seen, open), Closed(seen, open, f.side), Queue(seen, open, f.side);
      && time == HeadTime(queue)
      && (PositiveLots(opens) ==> ByRule(opens, closed, time))
      && (DistinctTimes(opens) && NonZeroTimes(opens) ==>
            (ByRule(opens, closed, time) <==> queue == [] || queue[0].qty > 0))
      && (time == 0 || time <= f.time)
  {
    var f := symbols[s][k];
    var open := Opposite(f.side);
    var i := PlacedInTime(symbols[s], k);
    seen := ByTime(symbols[s])[..i];
    HeadAttributed(symbols, s, i);
    if PositiveLots(Opens(seen, open)) { PositiveByRule(seen, open, f.side); }
    if DistinctTimes(Opens(seen, open)) && NonZeroTimes(Opens(seen, open)) {
      AttributedExactlyWhen(seen, open, f.side);
    }
    OldestFirst(symbols[s]);
    if Queue(seen, open, f.side) != [] { OpenBeforeClose(ByTime(symbols[s]), i, open, f.side); }
  }

  /** Of two closes of one side the later one is never given an earlier opening time. */
  lemma EntriesNeverDecrease(symbols: seq<seq<Fill>>, s: nat, k: nat, m: nat)
    requires s < |symbols| && k < |symbols[s]| && m < |symbols[s]| && DistinctIds(symbols[s])
    requires symbols[s][k].side == symbols[s][m].side != OtherSide && TimedBefore(symbols[s], k, m)
    requires NoneLater(symbols, s, symbols[s][k].id) && NoneLater(symbols, s, symbols[s][m].id)
    ensures symbols[s][k].id in AllTimes(symbols) && symbols[s][m].id in AllTimes(symbols)
    ensures var first, second := AllTimes(symbols)[symbols[s][k].id], AllTimes(symbols)[symbols[s][m].id];
      first != 0 && second != 0 ==> first <= second
  {
    var raw, sorted, close := symbols[s], ByTime(symbols[s]), symbols[s][k].side;
    var open := Opposite(close);
    var a := PlacedInTime(raw, k);
    var b := PlacedInTime(raw, m);
    HeadAttributed(symbols, s, a);
    HeadAttributed(symbols, s, b);
    OldestFirst(raw);
    EarlierPlace(raw, k, m, a, b);
    assert sorted[..b][..a] == sorted[..a];
    if Queue(sorted[..a], open, close) != [] && Queue(sorted[..b], open, close) != [] {
      OpenTimesNeverDecrease(sorted[..b], a, open, close);
    }
  }

  lemma EarlierPlace(raw: seq<Fill>, k: nat, m: nat, a: nat, b: nat)
    requires k < |raw| && m < |raw| && TimedBefore(raw, k, m) && a < |ByTime(raw)| && b < |ByTime(raw)|
    requires ByTime(raw)[a] == raw[k] && ByTime(raw)[b] == raw[m] && DistinctIds(ByTime(raw))
    requires Past(raw, m, ByTime(raw)[..b])
    ensures a < b
  {
    var seen := ByTime(raw)[..b];
    assert raw[k] in seen;
    var c :| 0 <= c < b && seen[c] == raw[k];
    assert c == a;
  }

  /** Whatever symbols share an id, its entry is that of the last symbol that closes under it: an earlier symbol's
      fill finds the head of a queue it never met. */
  lemma LaterSymbolWins(symbols: seq<seq<Fill>>, r: nat, j: nat, s: nat, k: nat) returns (seen: seq<Fill>)
    requires r <= s < |symbols| && j < |symbols[r]| && k < |symbols[s]|
    requires DistinctIds(symbols[s]) && NoneLater(symbols, s, symbols[s][k].id)
    requires ClosesUnder(symbols[s][k], symbols[r][j].id)
    ensures Past(symbols[s], k, seen) && symbols[r][j].id in AllTimes(symbols)
    ensures var close := symbols[s][k].side;
      AllTimes(symbols)[symbols[r][j].id] == HeadTime(Queue(seen, Opposite(close), close))
  {
    seen := EveryCloseAttributed(symbols, s, k);
  }

  /** An empty opening fill stays at the head and lends its time to what the next one opened. */
  lemma EmptyFillBreaksRule()
    ensures var fills := [Fill("a", Buy, 0, 10), Fill("b", Buy, 5, 20)];
      && HeadTime(Queue(fills, Buy, Sell)) == 10
      && !ByRule(Opens(fills, Buy), Closed(fills, Buy, Sell), 10)
  {
    var a, b := Fill("a", Buy, 0, 10), Fill("b", Buy, 5, 20);
    OneMore([], a);
    OneMore([a], b);
    assert [a, b] == [a] + [b] && [a] == [] + [a];
    var lots := Opens([a, b], Buy);
    assert lots == [Lot(10, 0), Lot(20, 5)];
    assert CumOpen(lots, 1) == 0 && CumOpen(lots, 2) == 5;
    AttributedExactlyWhen([a, b], Buy, Sell);
  }

  lemma OneMore(fills: seq<Fill>, f: Fill)
    requires f.side == Buy
    ensures Queue(fills + [f], Buy, Sell) == Queue(fills, Buy, Sell) + [Lot(f.time, f.qty)]
    ensures Opens(fills + [f], Buy) == Opens(fills, Buy) + [Lot(f.time, f.qty)]
    ensures Closed(fills + [f], Buy, Sell) == Closed(fills, Buy, Sell)
  {
    assert (fills + [f])[..|fills|] == fills;
  }

  lemma OneClose(fills: seq<Fill>, f: Fill)
    requires f.side == Sell
    ensures Queue(fills + [f], Buy, Sell) == Consume(Queue(fills, Buy, Sell), f.qty)
    ensures Opens(fills + [f], Buy) == Opens(fills, Buy)
    ensures Closed(fills + [f], Buy, Sell) == MinInt(Closed(fills, Buy, Sell) + f.qty, Opened(fills, Buy))
  {
    assert (fills + [f])[..|fills|] == fills;
  }

  /** With nothing left open, an empty opening fill still lends its time: the next close gets 20, the rule says 0. */
  lemma EmptyFillOutlastsClose()
    ensures var fills := [Fill("a", Buy, 5, 10), Fill("b", Buy, 0, 20), Fill("c", Sell, 5, 30)];
      && NoIdleLot(Opens(fills, Buy)) && Closed(fills, Buy, Sell) == Opened(fills, Buy)
      && HeadTime(Queue(fills, Buy, Sell)) == 20
      && !ByRule(Opens(fills, Buy), Closed(fills, Buy, Sell), 20)
  {
    var a, b, c := Fill("a", Buy, 5, 10), Fill("b", Buy, 0, 20), Fill("c", Sell, 5, 30);
    OneMore([], a);
    OneMore([a], b);
    OneClose([a, b], c);
    assert [] + [a] == [a] && [a] + [b] == [a, b] && [a, b] + [c] == [a, b, c];
    var lots := [Lot(10, 5), Lot(20, 0)];
    assert Opens([a, b, c], Buy) == lots && Queue([a, b], Buy, Sell) == lots;
    assert CumOpen(lots, 1) == 5 && CumOpen(lots, 2) == 5;
    assert Consume(lots, 5) == Consume(lots[1..], 0) == [Lot(20, 0)];
  }
}
