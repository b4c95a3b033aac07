/**
 Equity history rebuilt from income events, walking back from the current equity, then trimmed
 of the pre-deposit era and filled so that no gap exceeds a day and a half.
 */
module EquityBackfill {
  import opened Numerics
  import Sorting

  datatype Kind = RealizedPnl | FundingFee | Transfer | OtherKind

  datatype Event = Event(time: int, kind: Kind, income: real)

  datatype Record = Record(ts: int, equity: real)

  const MS_PER_DAY := 86400000
  const HALF_DAY := 43200000

  function Pnl(e: Event): real { if e.kind.RealizedPnl? || e.kind.FundingFee? then e.income else 0.0 }

  function Pnls(events: seq<Event>): (p: seq<real>)
    ensures |p| == |events|
    ensures forall i :: 0 <= i < |p| ==> p[i] == Pnl(events[i])
  {
    seq(|events|, i requires 0 <= i < |events| => Pnl(events[i]))
  }

  // ---------- walking back ----------

  function Newest(e: Event): real { -(e.time as real) }

  function Oldest(r: Record): real { r.ts as real }

  /** The equity reported at the i-th event of the walk: the event itself is already deducted. */
  function EquityAt(current: real, walk: seq<Event>, i: nat): real
    requires i < |walk|
  {
    RoundTo(current - Sum(Pnls(walk[..i + 1])), FOUR_DIGITS)
  }

  /** Records of the first n events of the walk; an event at which equity would be negative is skipped. */
  function Walk(current: real, walk: seq<Event>, n: nat): seq<Record>
    requires n <= |walk|
  {
    if n == 0 then []
    else
      var equity := EquityAt(current, walk, n - 1);
      Walk(current, walk, n - 1) + if equity < 0.0 then [] else [Record(walk[n - 1].time, equity)]
  }

  function Transfers(current: real, walk: seq<Event>, n: nat): seq<Record>
    requires n <= |walk|
  {
    if n == 0 then []
    else
      var e := walk[n - 1];
      Transfers(current, walk, n - 1) +
      if EquityAt(current, walk, n - 1) < 0.0 || !e.kind.Transfer? then [] else [Record(e.time, e.income)]
  }

  lemma PnlsNext(walk: seq<Event>, i: nat)
    requires i < |walk|
    ensures Sum(Pnls(walk[..i + 1])) == Sum(Pnls(walk[..i])) + Pnl(walk[i])
  {
    assert Pnls(walk[..i + 1])[..i] == Pnls(walk[..i]);
  }

  method WalkBack(walk: seq<Event>, current: real) returns (records: seq<Record>, cashflow: seq<Record>)
    ensures records == Walk(current, walk, |walk|) && cashflow == Transfers(current, walk, |walk|)
  {
    records, cashflow := [], [];
    var deduct := 0.0;
    assert walk[..0] == [];
    for i := 0 to |walk|
      invariant records == Walk(current, walk, i) && cashflow == Transfers(current, walk, i)
      invariant deduct == Sum(Pnls(walk[..i]))
    {
      PnlsNext(walk, i);
      var event := walk[i];
      if event.kind.RealizedPnl? || event.kind.FundingFee? {
        deduct := deduct + event.income;
      }
      var equity := RoundTo(current - deduct, FOUR_DIGITS);
      WalkNext(current, walk, i, deduct);
      if equity < 0.0 {
        continue;
      }
      records := records + [Record(event.time, equity)];
      if event.kind.Transfer? {
        cashflow := cashflow + [Record(event.time, event.income)];
      }
    }
  }

  lemma WalkNext(current: real, walk: seq<Event>, i: nat, deduct: real)
    requires i < |walk| && deduct == Sum(Pnls(walk[..i + 1]))
    ensures var equity, e := RoundTo(current - deduct, FOUR_DIGITS), walk[i];
      && Walk(current, walk, i + 1) == Walk(current, walk, i) + (if equity < 0.0 then [] else [Record(e.time, equity)])
      && Transfers(current, walk, i + 1) == Transfers(current, walk, i)
           + (if equity < 0.0 || !e.kind.Transfer? then [] else [Record(e.time, e.income)])
  {
  }

  // ---------- trimming ----------

  function MaxEquity(records: seq<Record>): real
    requires records != []
  {
    var n := |records| - 1;
    if n == 0 then records[0].equity else Max(MaxEquity(records[..n]), records[n].equity)
  }

  lemma {:induction false} MaxEquityIs(records: seq<Record>)
    requires records != []
    ensures forall i :: 0 <= i < |records| ==> records[i].equity <= MaxEquity(records)
    ensures exists i :: 0 <= i < |records| && records[i].equity == MaxEquity(records)
  {
    var n := |records| - 1;
    if n == 0 {
      assert records[0].equity == MaxEquity(records);
    } else {
      MaxEquityIs(records[..n]);
      var i :| 0 <= i < n && records[..n][i].equity == MaxEquity(records[..n]);
      assert records[i].equity == MaxEquity(records) || records[n].equity == MaxEquity(records);
    }
  }

  ghost predicate AllBelow(records: seq<Record>, k: nat, threshold: real)
    requires k <= |records|
  {
    forall i :: 0 <= i < k ==> records[i].equity < threshold
  }

  function Threshold(records: seq<Record>): real
    requires records != []
  {
    MaxEquity(records) * 0.02
  }

  ghost predicate CutAt(records: seq<Record>, kept: seq<Record>, k: int) {
    0 <= k < |records| && kept == records[k..] && AllBelow(records, k, Threshold(records))
  }

  /** What is left is the records from the first one that reaches 2% of the highest. */
  ghost predicate Trimmed(records: seq<Record>, kept: seq<Record>) {
    kept != [] && records != [] && kept[0].equity >= Threshold(records) && exists k :: CutAt(records, kept, k)
  }

  /** Drops the leading records below 2% of the highest one; what is left is never empty. */
  method Trim(records: seq<Record>) returns (kept: seq<Record>)
    requires records != [] && forall i :: 0 <= i < |records| ==> records[i].equity >= 0.0
    ensures Trimmed(records, kept)
  {
    var threshold := Threshold(records);
    MaxEquityIs(records);
    var first := 0;
    while first < |records| && records[first].equity < threshold
      invariant 0 <= first <= |records|
      invariant forall i :: 0 <= i < first ==> records[i].equity < threshold
    {
      first := first + 1;
    }
    var top :| 0 <= top < |records| && records[top].equity == MaxEquity(records);
    assert records[top].equity >= threshold;
    kept := records[first..];
    assert CutAt(records, kept, first);
  }

  /** Fifty times the first equity kept reaches every equity, and fifty times any dropped stays below some. */
  lemma TrimMeans(records: seq<Record>, kept: seq<Record>) returns (k: nat)
    requires Trimmed(records, kept)
    ensures k < |records| && kept == records[k..]
    ensures forall i :: 0 <= i < |records| ==> records[i].equity <= 50.0 * records[k].equity
    ensures forall i :: 0 <= i < k ==> exists j :: 0 <= j < |records| && 50.0 * records[i].equity < records[j].equity
  {
    MaxEquityIs(records);
    k :| CutAt(records, kept, k);
    var top :| 0 <= top < |records| && records[top].equity == MaxEquity(records);
    forall i | 0 <= i < k ensures 50.0 * records[i].equity < records[top].equity {
    }
  }

  lemma TrimmedInOrder(records: seq<Record>, kept: seq<Record>)
    requires InOrder(records) && Trimmed(records, kept)
    ensures InOrder(kept)
  {
  }

  // ---------- filling idle gaps ----------

  function Gap(equity: real, from: int, next: int): seq<Record>
    decreases next - from
  {
    if from < next - HALF_DAY then [Record(from, equity)] + Gap(equity, from + MS_PER_DAY, next) else []
  }

  /** A record and its daily copies up to the next record. */
  function Stretch(equity: real, ts: int, next: int): seq<Record> {
    [Record(ts, equity)] + Gap(equity, ts + MS_PER_DAY, next)
  }

  /** The copies follow day by day, up to the last that is more than half a day before the next record. */
  lemma {:induction false} GapIsDaily(equity: real, from: int, next: int)
    ensures var g := Gap(equity, from, next);
      && (forall i :: 0 <= i < |g| ==> g[i] == Record(from + i * 86400000, equity))
      && (g != [] ==> from + (|g| - 1) * 86400000 < next - 43200000)
      && from + |g| * 86400000 >= next - 43200000
    decreases next - from
  {
    if from < next - HALF_DAY {
      GapIsDaily(equity, from + MS_PER_DAY, next);
      var rest := Gap(equity, from + MS_PER_DAY, next);
      assert forall i :: 0 <= i < |rest| ==> rest[i] == Record(from + (i + 1) * 86400000, equity);
    }
  }

  /** What the n-th record contributes: itself, with its copies unless it is the last one. */
  function Block(records: seq<Record>, n: nat): seq<Record>
    requires 0 < n <= |records|
  {
    var r := records[n - 1];
    if n < |records| then Stretch(r.equity, r.ts, records[n].ts) else [r]
  }

  function Filled(records: seq<Record>, n: nat): seq<Record>
    requires n <= |records|
  {
    if n == 0 then [] else Filled(records, n - 1) + Block(records, n)
  }

  method FillGaps(records: seq<Record>) returns (filled: seq<Record>)
    ensures filled == Filled(records, |records|)
  {
    filled := [];
    for i := 0 to |records|
      invariant filled == Filled(records, i)
    {
      ghost var before := filled;
      if i + 1 < |records| {
        filled := AppendStretch(filled, records[i], records[i + 1].ts);
      } else {
        filled := filled + [records[i]];
      }
      FilledNext(records, i, before, filled);
    }
  }

  lemma FilledNext(records: seq<Record>, i: nat, before: seq<Record>, filled: seq<Record>)
    requires i < |records| && before == Filled(records, i)
    requires filled == before
      + if i + 1 < |records| then Stretch(records[i].equity, records[i].ts, records[i + 1].ts) else [records[i]]
    ensures filled == Filled(records, i + 1)
  {
  }

  method AppendStretch(before: seq<Record>, r: Record, next: int) returns (filled: seq<Record>)
    ensures filled == before + Stretch(r.equity, r.ts, next)
  {
    filled := before + [r];
    var fillTs := r.ts + MS_PER_DAY;
    while fillTs < next - HALF_DAY
      invariant filled + Gap(r.equity, fillTs, next) == before + Stretch(r.equity, r.ts, next)
      decreases next - fillTs
    {
      filled := filled + [Record(fillTs, r.equity)];
      fillTs := fillTs + MS_PER_DAY;
    }
  }

  ghost predicate InOrder(records: seq<Record>) {
    forall i, j :: 0 <= i < j < |records| ==> records[i].ts <= records[j].ts
  }

  predicate Near(a: int, b: int) { a <= b <= a + MS_PER_DAY + HALF_DAY }

  /** Neighbours are in order and at most a day and a half apart. */
  ghost predicate Tight(records: seq<Record>) {
    |records| <= 1 || (Near(records[0].ts, records[1].ts) && Tight(records[1..]))
  }

  lemma {:induction false} TightMeans(records: seq<Record>, i: nat)
    requires Tight(records) && i + 1 < |records|
    ensures Near(records[i].ts, records[i + 1].ts)
  {
    if i > 0 { TightMeans(records[1..], i - 1); }
  }

  lemma {:induction false} TightJoin(a: seq<Record>, b: seq<Record>)
    requires Tight(a) && Tight(b)
    requires a != [] && b != [] ==> Near(a[|a| - 1].ts, b[0].ts)
    ensures Tight(a + b)
  {
    if a == [] {
      assert a + b == b;
    } else {
      TightJoin(a[1..], b);
      assert (a + b)[1..] == a[1..] + b;
    }
  }

  /** They reach to within a day and a half of the next record. */
  lemma {:induction false} StretchReaches(equity: real, ts: int, next: int)
    requires ts <= next
    ensures var s := Stretch(equity, ts, next); Tight(s) && s[0].ts == ts && Near(s[|s| - 1].ts, next)
    decreases next - ts
  {
    var s := Stretch(equity, ts, next);
    if ts + MS_PER_DAY < next - HALF_DAY {
      StretchReaches(equity, ts + MS_PER_DAY, next);
      assert s[1..] == Stretch(equity, ts + MS_PER_DAY, next);
    } else {
      assert s == [Record(ts, equity)];
    }
  }

  /** In order, without long gaps, and ending near the given time. */
  ghost predicate Reaches(records: seq<Record>, next: int) {
    records != [] && Tight(records) && Near(records[|records| - 1].ts, next)
  }

  function NextTime(records: seq<Record>, n: nat): int
    requires 0 < n <= |records|
  {
    if n < |records| then records[n].ts else records[n - 1].ts
  }

  lemma ReachesGrow(before: seq<Record>, s: seq<Record>, next: int)
    requires Reaches(s, next) && (before == [] || Reaches(before, s[0].ts))
    ensures Reaches(before + s, next)
  {
    TightJoin(before, s);
  }

  lemma BlockReaches(records: seq<Record>, n: nat)
    requires InOrder(records) && 0 < n <= |records|
    ensures Reaches(Block(records, n), NextTime(records, n)) && Block(records, n)[0].ts == records[n - 1].ts
  {
    var r := records[n - 1];
    if n < |records| { StretchReaches(r.equity, r.ts, records[n].ts); }
  }

  /** The filled history is in order, has no gap above a day and a half, and reaches the next record. */
  lemma {:induction false} FilledReaches(records: seq<Record>, n: nat)
    requires InOrder(records) && 0 < n <= |records|
    ensures Reaches(Filled(records, n), NextTime(records, n))
  {
    BlockReaches(records, n);
    if n > 1 { FilledReaches(records, n - 1); }
    ReachesGrow(Filled(records, n - 1), Block(records, n), NextTime(records, n));
  }

  /** The equity in force at time t: that of the last record at or before it. */
  function StepAt(records: seq<Record>, t: int): Option<real> {
    if records == [] then None
    else if records[|records| - 1].ts <= t then Some(records[|records| - 1].equity)
    else StepAt(records[..|records| - 1], t)
  }

  lemma {:induction false} StepAppend(a: seq<Record>, b: seq<Record>, t: int)
    ensures StepAt(a + b, t) == if StepAt(b, t).Some? then StepAt(b, t) else StepAt(a, t)
    decreases |b|
  {
    if b == [] {
      assert a + b == a;
    } else {
      assert (a + b)[..|a + b| - 1] == a + b[..|b| - 1];
      StepAppend(a, b[..|b| - 1], t);
    }
  }

  lemma {:induction false} StepInGap(equity: real, from: int, next: int, t: int)
    ensures StepAt(Gap(equity, from, next), t) == Some(equity) || StepAt(Gap(equity, from, next), t) == None
    ensures t < from ==> StepAt(Gap(equity, from, next), t) == None
    decreases next - from
  {
    if from < next - HALF_DAY {
      StepInGap(equity, from + MS_PER_DAY, next, t);
      StepAppend([Record(from, equity)], Gap(equity, from + MS_PER_DAY, next), t);
      assert [Record(from, equity)][..0] == [];
    }
  }

  lemma StepOne(before: seq<Record>, r: Record, t: int)
    ensures StepAt(before + [r], t) == if r.ts <= t then Some(r.equity) else StepAt(before, t)
  {
    assert (before + [r])[..|before|] == before;
  }

  lemma StepBlock(records: seq<Record>, n: nat, t: int)
    requires 0 < n <= |records|
    ensures StepAt(Block(records, n), t) == if records[n - 1].ts <= t then Some(records[n - 1].equity) else None
  {
    var r := records[n - 1];
    StepOne([], r, t);
    assert [] + [r] == [r];
    if n < |records| {
      StepInGap(r.equity, r.ts + MS_PER_DAY, records[n].ts, t);
      StepAppend([r], Gap(r.equity, r.ts + MS_PER_DAY, records[n].ts), t);
    }
  }

  /** Filling never changes the equity in force at any time. */
  lemma {:induction false} FillingKeepsSteps(records: seq<Record>, n: nat, t: int)
    requires n <= |records|
    ensures StepAt(Filled(records, n), t) == StepAt(records[..n], t)
  {
    if n > 0 {
      FillingKeepsSteps(records, n - 1, t);
      StepBlock(records, n, t);
      FilledSplits(records, n);
      StepGrow(Filled(records, n - 1), Block(records, n), records[..n - 1], records[n - 1], t, Filled(records, n),
        records[..n]);
    }
  }

  lemma FilledSplits(records: seq<Record>, n: nat)
    requires 0 < n <= |records|
    ensures Filled(records, n) == Filled(records, n - 1) + Block(records, n)
    ensures records[..n] == records[..n - 1] + [records[n - 1]]
  {
    TakeSplits(records, n);
  }

  lemma TakeSplits<T>(s: seq<T>, n: nat)
    requires 0 < n <= |s|
    ensures s[..n] == s[..n - 1] + [s[n - 1]]
  {
  }

  lemma StepGrow(filled: seq<Record>, block: seq<Record>, records: seq<Record>, r: Record, t: int,
                 filled': seq<Record>, records': seq<Record>)
    requires StepAt(filled, t) == StepAt(records, t)
    requires StepAt(block, t) == if r.ts <= t then Some(r.equity) else None
    requires filled' == filled + block && records' == records + [r]
    ensures StepAt(filled', t) == StepAt(records', t)
  {
    StepAppend(filled, block, t);
    StepOne(records, r, t);
  }

  // ---------- the whole reconstruction ----------

  function WalkOrder(events: seq<Event>): seq<Event> { Sorting.SortBy(events, Newest) }

  /** The records before trimming, oldest first. */
  function Rebuilt(events: seq<Event>, current: real): seq<Record> {
    Sorting.SortBy(Walk(current, WalkOrder(events), |WalkOrder(events)|), Oldest)
  }

  function Cashflow(events: seq<Event>, current: real): seq<Record> {
    Sorting.SortBy(Transfers(current, WalkOrder(events), |WalkOrder(events)|), Oldest)
  }

  ghost predicate TrimmedAndFilled(records: seq<Record>, filled: seq<Record>) {
    exists kept :: Trimmed(records, kept) && filled == Filled(kept, |kept|)
  }

  method BuildEquityBackfill(events: seq<Event>, current: real) returns (filled: seq<Record>, cashflow: seq<Record>)
    ensures current == 0.0 || Rebuilt(events, current) == [] ==> filled == [] && cashflow == []
    ensures current != 0.0 && Rebuilt(events, current) != [] ==>
      && filled != [] && Tight(filled) && cashflow == Cashflow(events, current)
      && TrimmedAndFilled(Rebuilt(events, current), filled)
  {
    if current == 0.0 || events == [] {
      return [], [];
    }
    var walk := Sorting.SortBy(events, Newest);
    var records;
    records, cashflow := WalkBack(walk, current);
    if records == [] {
      return [], [];
    }
    RebuiltShape(events, current);
    records := Sorting.SortBy(records, Oldest);
    cashflow := Sorting.SortBy(cashflow, Oldest);
    var kept := Trim(records);
    filled := FillGaps(kept);
    TrimmedInOrder(records, kept);
    FilledReaches(kept, |kept|);
  }

  lemma {:induction false} WalkNonNegative(current: real, walk: seq<Event>, n: nat)
    requires n <= |walk|
    ensures forall r :: r in Walk(current, walk, n) ==> r.equity >= 0.0
  {
    if n > 0 { WalkNonNegative(current, walk, n - 1); }
  }

  lemma RebuiltShape(events: seq<Event>, current: real)
    ensures InOrder(Rebuilt(events, current))
    ensures forall i :: 0 <= i < |Rebuilt(events, current)| ==> Rebuilt(events, current)[i].equity >= 0.0
    ensures |Rebuilt(events, current)| == |Walk(current, WalkOrder(events), |WalkOrder(events)|)|
  {
    var w := Walk(current, WalkOrder(events), |WalkOrder(events)|);
    WalkNonNegative(current, WalkOrder(events), |WalkOrder(events)|);
    Sorting.SortByIsSort(w, Oldest);
    Sorting.SortElements(w, Oldest);
    var s := Sorting.SortBy(w, Oldest);
    forall i, j | 0 <= i < j < |s| ensures s[i].ts <= s[j].ts { assert Oldest(s[i]) <= Oldest(s[j]); }
    forall i | 0 <= i < |s| ensures s[i].equity >= 0.0 { assert s[i] in s; }
  }

  /** Event i of the walk is a transfer, and the equity left at it is not negative. */
  predicate Counts(current: real, walk: seq<Event>, i: nat)
    requires i < |walk|
  {
    walk[i].kind.Transfer? && EquityAt(current, walk, i) >= 0.0
  }

  function CountedTo(current: real, walk: seq<Event>, n: nat): set<nat>
    requires n <= |walk|
  {
    set i: nat | i < n && Counts(current, walk, i)
  }

  /** The record of one of them. */
  ghost predicate RecordsOne(current: real, walk: seq<Event>, n: nat, r: Record)
    requires n <= |walk|
  {
    exists i: nat :: i < n && Counts(current, walk, i) && r == Record(walk[i].time, walk[i].income)
  }

  lemma {:induction false} TransfersCount(current: real, walk: seq<Event>, n: nat)
    requires n <= |walk|
    ensures |Transfers(current, walk, n)| == |CountedTo(current, walk, n)|
  {
    if n == 0 {
      assert CountedTo(current, walk, n) == {};
    } else {
      TransfersCount(current, walk, n - 1);
      CountedNext(current, walk, n);
    }
  }

  lemma CountedNext(current: real, walk: seq<Event>, n: nat)
    requires 0 < n <= |walk|
    ensures var before := CountedTo(current, walk, n - 1);
      |CountedTo(current, walk, n)| == if Counts(current, walk, n - 1) then |before| + 1 else |before|
  {
    OneMore(CountedTo(current, walk, n - 1), CountedTo(current, walk, n), n - 1, Counts(current, walk, n - 1));
  }

  lemma OneMore(before: set<nat>, after: set<nat>, x: nat, counted: bool)
    requires x !in before && forall y :: y in after <==> y in before || (y == x && counted)
    ensures |after| == if counted then |before| + 1 else |before|
  {
    assert after == if counted then before + {x} else before;
  }

  lemma {:induction false} TransfersAre(current: real, walk: seq<Event>, n: nat)
    requires n <= |walk|
    ensures forall r :: r in Transfers(current, walk, n) <==> RecordsOne(current, walk, n, r)
  {
    if n > 0 {
      TransfersAre(current, walk, n - 1);
      forall r ensures r in Transfers(current, walk, n) <==> RecordsOne(current, walk, n, r) {
        assert RecordsOne(current, walk, n, r) <==> (RecordsOne(current, walk, n - 1, r)
          || (Counts(current, walk, n - 1) && r == Record(walk[n - 1].time, walk[n - 1].income)));
      }
    }
  }

  /** The cash flow is that of the transfers at which equity is not negative, one record each, oldest first. */
  lemma CashflowIsTransfers(events: seq<Event>, current: real)
    ensures var flow, walk := Cashflow(events, current), WalkOrder(events);
      && (forall i, j :: 0 <= i < j < |flow| ==> flow[i].ts <= flow[j].ts)
      && |flow| == |CountedTo(current, walk, |walk|)|
      && (forall r :: r in flow <==> RecordsOne(current, walk, |walk|, r))
  {
    var flow, walk := Cashflow(events, current), WalkOrder(events);
    var found := Transfers(current, walk, |walk|);
    TransfersCount(current, walk, |walk|);
    TransfersAre(current, walk, |walk|);
    Sorting.SortByIsSort(found, Oldest);
    forall i, j | 0 <= i < j < |flow| ensures flow[i].ts <= flow[j].ts { assert Oldest(flow[i]) <= Oldest(flow[j]); }
    forall r ensures r in flow <==> r in found { assert r in flow <==> r in multiset(flow); }
  }

  // ---------- what a record means ----------

  function Since(t: int): Event -> bool { (e: Event) => e.time >= t }

  /** Profit and funding of the events at time t and later. */
  function PnlSince(events: seq<Event>, t: int): real { Sum(Pnls(Sorting.Keep(events, Since(t)))) }

  lemma PnlsPermutation(a: seq<Event>, b: seq<Event>)
    requires multiset(a) == multiset(b)
    ensures Sum(Pnls(a)) == Sum(Pnls(b))
  {
    TotalPermutation(a, b, Pnl);
    assert Pnls(a) == Amounts(a, Pnl) && Pnls(b) == Amounts(b, Pnl);
  }

  lemma PnlSinceSorted(events: seq<Event>, t: int)
    ensures PnlSince(WalkOrder(events), t) == PnlSince(events, t)
  {
    Sorting.KeepSort(events, Newest, Since(t));
    Sorting.SortByIsSort(Sorting.Keep(events, Since(t)), Newest);
    PnlsPermutation(Sorting.Keep(WalkOrder(events), Since(t)), Sorting.Keep(events, Since(t)));
  }

  ghost predicate DistinctTimes(events: seq<Event>) {
    forall e, f :: e in events && f in events && e.time == f.time ==> e == f
  }

  ghost predicate NoRepeats(events: seq<Event>) { forall e: Event :: multiset(events)[e] <= 1 }

  /** In a walk of distinct times, what has been deducted at event i is everything at its time or later. */
  lemma DeductedIsSince(walk: seq<Event>, i: nat)
    requires Sorting.Sorted(walk, Newest) && i < |walk|
    requires forall j, k :: 0 <= j < k < |walk| ==> walk[j].time != walk[k].time
    ensures Sorting.Keep(walk, Since(walk[i].time)) == walk[..i + 1]
  {
    forall j | 0 <= j < |walk| ensures Since(walk[i].time)(walk[j]) <==> 0 <= j < i + 1 {
      if j < i { assert Newest(walk[j]) <= Newest(walk[i]); }
      if i < j { assert Newest(walk[i]) <= Newest(walk[j]); }
    }
    Sorting.KeepWindow(walk, Since(walk[i].time), 0, i + 1);
  }

  lemma {:induction false} WalkOrigin(current: real, walk: seq<Event>, n: nat, r: Record) returns (i: nat)
    requires n <= |walk| && r in Walk(current, walk, n)
    ensures i < n && r == Record(walk[i].time, EquityAt(current, walk, i))
  {
    if r in Walk(current, walk, n - 1) {
      i := WalkOrigin(current, walk, n - 1, r);
    } else {
      i := n - 1;
    }
  }

  lemma DistinctWalk(events: seq<Event>)
    requires DistinctTimes(events) && NoRepeats(events)
    ensures forall j, k :: 0 <= j < k < |WalkOrder(events)| ==> WalkOrder(events)[j].time != WalkOrder(events)[k].time
  {
    Sorting.SortByIsSort(events, Newest);
    Sorting.SortElements(events, Newest);
    var w := WalkOrder(events);
    forall j, k | 0 <= j < k < |w| ensures w[j].time != w[k].time {
      assert w[j] in w && w[k] in w;
      Sorting.TwiceCounted(w, j, k);
    }
  }

  /** Event i of the walk, and the time and equity of a record, to within half a unit of the fourth decimal. */
  ghost predicate ShowsEvent(events: seq<Event>, current: real, r: Record, i: nat) {
    && i < |WalkOrder(events)| && r.ts == WalkOrder(events)[i].time
    && Abs(r.equity + Sum(Pnls(WalkOrder(events)[..i + 1])) - current) <= 0.00005
  }

  /**
   Whatever the times, every rebuilt record stands at an event and shows, to within half a unit of the
   fourth decimal, the current equity less all profit and funding walked back by then: that of all later
   events, and of those at its own time up to this one. With distinct times that is all from its time on.
   */
  lemma RecordMeaning(events: seq<Event>, current: real, r: Record)
    requires r in Rebuilt(events, current)
    ensures r.equity >= 0.0 && exists i :: ShowsEvent(events, current, r, i)
    ensures forall i, j :: 0 <= i < j < |WalkOrder(events)| ==> WalkOrder(events)[j].time <= WalkOrder(events)[i].time
    ensures DistinctTimes(events) && NoRepeats(events) ==> Abs(r.equity + PnlSince(events, r.ts) - current) <= 0.00005
  {
    var walk := WalkOrder(events);
    RebuiltNonNegative(events, current, r);
    Sorting.SortByIsSort(events, Newest);
    forall i, j | 0 <= i < j < |walk| ensures walk[j].time <= walk[i].time {
      assert Newest(walk[i]) <= Newest(walk[j]);
    }
    var k := WalkOrigin(current, walk, |walk|, r);
    RoundClose(current - Sum(Pnls(walk[..k + 1])), FOUR_DIGITS);
    assert ShowsEvent(events, current, r, k);
    if DistinctTimes(events) && NoRepeats(events) { DeductedAt(events, k); }
  }

  lemma RebuiltNonNegative(events: seq<Event>, current: real, r: Record)
    requires r in Rebuilt(events, current)
    ensures r.equity >= 0.0 && r in Walk(current, WalkOrder(events), |WalkOrder(events)|)
  {
    Sorting.SortElements(Walk(current, WalkOrder(events), |WalkOrder(events)|), Oldest);
    WalkNonNegative(current, WalkOrder(events), |WalkOrder(events)|);
  }

  /** With distinct times a record shows, rounded, current equity less the profit and funding from its time on. */
  lemma RecordRounds(events: seq<Event>, current: real, r: Record)
    requires DistinctTimes(events) && NoRepeats(events) && r in Rebuilt(events, current)
    ensures r.equity == EquityThen(events, current, r.ts) && exists e :: e in events && e.time == r.ts
  {
    var walk := WalkOrder(events);
    RebuiltNonNegative(events, current, r);
    var i := WalkOrigin(current, walk, |walk|, r);
    DeductedAt(events, i);
    EquityMeets(events, current, r.ts, i + 1);
  }

  lemma DeductedAt(events: seq<Event>, i: nat)
    requires DistinctTimes(events) && NoRepeats(events) && i < |WalkOrder(events)|
    ensures Sum(Pnls(WalkOrder(events)[..i + 1])) == PnlSince(events, WalkOrder(events)[i].time)
    ensures WalkOrder(events)[i] in events
  {
    var walk := WalkOrder(events);
    Sorting.SortByIsSort(events, Newest);
    Sorting.SortElements(events, Newest);
    assert walk[i] in walk;
    DistinctWalk(events);
    DeductedIsSince(walk, i);
    PnlSinceSorted(events, walk[i].time);
  }

  // ---------- events at the same time ----------

  function At(t: int): Event -> bool { (e: Event) => e.time == t }

  function Stands(t: int): Record -> bool { (r: Record) => r.ts == t }

  function Standing(records: seq<Record>, t: int): seq<Record> { Sorting.Keep(records, Stands(t)) }

  /** Profit and funding of the events at exactly time t. */
  function PnlAt(events: seq<Event>, t: int): real { Sum(Pnls(Sorting.Keep(events, At(t)))) }

  lemma PnlSplits(events: seq<Event>, t: int)
    ensures PnlSince(events, t) == PnlAt(events, t) + PnlSince(events, t + 1)
  {
    Sorting.TotalSplits(events, At(t), Since(t + 1), Since(t), Pnl);
    PnlsAre(Sorting.Keep(events, At(t)));
    PnlsAre(Sorting.Keep(events, Since(t)));
    PnlsAre(Sorting.Keep(events, Since(t + 1)));
  }

  lemma PnlsAre(events: seq<Event>)
    ensures Sum(Pnls(events)) == Total(events, Pnl)
  {
    assert Pnls(events) == Amounts(events, Pnl);
  }

  /** In an ordered history the equity in force at a time with records is that of the last of them. */
  lemma {:induction false} StepAtRecords(records: seq<Record>, t: int)
    requires InOrder(records) && Standing(records, t) != []
    ensures var standing := Standing(records, t);
      StepAt(records, t) == Some(standing[|standing| - 1].equity)
  {
    var n := |records| - 1;
    var init, last := records[..n], records[n];
    assert records == init + [last];
    Sorting.KeepAppend(init, [last], Stands(t));
    if last.ts <= t {
      LastStands(records, t);
    } else {
      StepAtRecords(init, t);
    }
  }

  lemma LastStands(records: seq<Record>, t: int)
    requires InOrder(records) && Standing(records, t) != [] && records[|records| - 1].ts <= t
    ensures records[|records| - 1].ts == t
  {
    Sorting.KeepElements(records, Stands(t));
    var r := Standing(records, t)[0];
    assert r in Standing(records, t);
    var i :| 0 <= i < |records| && records[i] == r;
  }

  /** The last record at the time of event m - 1 is that event's, when no later event of the walk has its time. */
  lemma {:induction false} LastOfWalk(current: real, walk: seq<Event>, n: nat, m: nat)
    requires 0 < m <= n <= |walk| && EquityAt(current, walk, m - 1) >= 0.0
    requires forall i :: m <= i < n ==> walk[i].time != walk[m - 1].time
    ensures var t := walk[m - 1].time;
      var standing := Standing(Walk(current, walk, n), t);
      standing != [] && standing[|standing| - 1] == Record(t, EquityAt(current, walk, m - 1))
  {
    WalkStanding(current, walk, n, walk[m - 1].time);
    if m < n {
      LastOfWalk(current, walk, n - 1, m);
      assert walk[n - 1].time != walk[m - 1].time;
    }
  }

  lemma WalkStanding(current: real, walk: seq<Event>, n: nat, t: int)
    requires 0 < n <= |walk|
    ensures var equity := EquityAt(current, walk, n - 1);
      Standing(Walk(current, walk, n), t) == Standing(Walk(current, walk, n - 1), t)
        + if equity < 0.0 || walk[n - 1].time != t then [] else [Record(t, equity)]
  {
    var equity := EquityAt(current, walk, n - 1);
    var last := if equity < 0.0 then [] else [Record(walk[n - 1].time, equity)];
    Sorting.KeepAppend(Walk(current, walk, n - 1), last, Stands(t));
    KeepStanding(last, t);
  }

  lemma KeepStanding(last: seq<Record>, t: int)
    requires |last| <= 1
    ensures Standing(last, t) == if last != [] && last[0].ts == t then last else []
  {
    var none: seq<Record> := [];
    assert Sorting.Keep(none, Stands(t)) == none;
    if last != [] { assert last[1..] == none && last == [last[0]]; }
  }

  /** Of the walk, the events at time t or later come first. */
  lemma SinceIsPrefix(walk: seq<Event>, t: int) returns (m: nat)
    requires Sorting.Sorted(walk, Newest)
    ensures m <= |walk| && Sorting.Keep(walk, Since(t)) == walk[..m]
    ensures forall i :: 0 <= i < |walk| ==> (walk[i].time >= t <==> i < m)
  {
    m := |Sorting.Keep(walk, Since(t))|;
    Sorting.KeepPrefix(walk, Newest, -(t as real), Since(t));
    Sorting.KeepElements(walk, Since(t));
    forall i | 0 <= i < |walk| ensures walk[i].time >= t <==> i < m {
      if i < m { assert walk[..m][i] in walk[..m]; } else { assert Newest(walk[i]) > -(t as real); }
    }
  }

  ghost predicate HasEventAt(events: seq<Event>, t: int) { exists e :: e in events && e.time == t }

  /** Current equity less the profit and funding at time t and later, in four decimals. */
  function EquityThen(events: seq<Event>, current: real, t: int): real {
    RoundTo(current - PnlSince(events, t), FOUR_DIGITS)
  }

  /** Whatever times coincide: the equity in force at the time of an event is current equity less the profit and funding
      from that time on, unless that is negative. */
  lemma EquityInForce(events: seq<Event>, current: real, t: int)
    requires HasEventAt(events, t) && EquityThen(events, current, t) >= 0.0
    ensures StepAt(Rebuilt(events, current), t) == Some(EquityThen(events, current, t))
  {
    var walk := WalkOrder(events);
    var m := WalkMeets(events, t);
    EquityMeets(events, current, t, m);
    LastOfWalk(current, walk, |walk|, m);
    RebuiltStanding(events, current, t);
    RebuiltShape(events, current);
    StepAtRecords(Rebuilt(events, current), t);
  }

  /** The walk's last event at time t, by when exactly the profit and funding since t have been deducted. */
  lemma WalkMeets(events: seq<Event>, t: int) returns (m: nat)
    requires HasEventAt(events, t)
    ensures 0 < m <= |WalkOrder(events)| && WalkOrder(events)[m - 1].time == t
    ensures forall i :: m <= i < |WalkOrder(events)| ==> WalkOrder(events)[i].time != t
    ensures Sum(Pnls(WalkOrder(events)[..m])) == PnlSince(events, t)
  {
    var walk := WalkOrder(events);
    Sorting.SortByIsSort(events, Newest);
    m := SinceIsPrefix(walk, t);
    PnlSinceSorted(events, t);
    var i := EventInWalk(events, t);
    assert Newest(walk[i]) <= Newest(walk[m - 1]);
  }

  lemma EventInWalk(events: seq<Event>, t: int) returns (i: nat)
    requires HasEventAt(events, t)
    ensures i < |WalkOrder(events)| && WalkOrder(events)[i].time == t
  {
    Sorting.SortByIsSort(events, Newest);
    var e :| e in events && e.time == t;
    assert e in multiset(WalkOrder(events));
    i :| 0 <= i < |WalkOrder(events)| && WalkOrder(events)[i] == e;
  }

  lemma EquityMeets(events: seq<Event>, current: real, t: int, m: nat)
    requires 0 < m <= |WalkOrder(events)| && Sum(Pnls(WalkOrder(events)[..m])) == PnlSince(events, t)
    ensures EquityAt(current, WalkOrder(events), m - 1) == EquityThen(events, current, t)
  {
  }

  lemma RebuiltStanding(events: seq<Event>, current: real, t: int)
    ensures Standing(Rebuilt(events, current), t)
         == Standing(Walk(current, WalkOrder(events), |WalkOrder(events)|), t)
  {
    var records := Walk(current, WalkOrder(events), |WalkOrder(events)|);
    Sorting.KeepSort(records, Oldest, Stands(t));
    SortStanding(records, t);
  }

  lemma SortStanding(records: seq<Record>, t: int)
    ensures Sorting.SortBy(Standing(records, t), Oldest) == Standing(records, t)
  {
    var standing := Standing(records, t);
    Sorting.KeepElements(records, Stands(t));
    forall i | 0 <= i < |standing| ensures Oldest(standing[i]) == t as real { assert standing[i] in standing; }
    Sorting.SortConstant(standing, Oldest);
  }

  /** So it is in the returned history, from where the trimmed one starts. */
  lemma FilledEquityInForce(events: seq<Event>, current: real, filled: seq<Record>, t: int)
    requires TrimmedAndFilled(Rebuilt(events, current), filled) && StepAt(filled, t).Some?
    requires HasEventAt(events, t) && EquityThen(events, current, t) >= 0.0
    ensures StepAt(filled, t) == Some(EquityThen(events, current, t))
  {
    var records := Rebuilt(events, current);
    var kept :| Trimmed(records, kept) && filled == Filled(kept, |kept|);
    var k :| CutAt(records, kept, k);
    FillingKeepsSteps(kept, |kept|, t);
    assert kept[..|kept|] == kept && records == records[..k] + kept;
    StepAppend(records[..k], kept, t);
    EquityInForce(events, current, t);
  }

  // ---------- the documented formula ----------

  /** A whole number of units of the fourth decimal. */
  predicate FourDecimals(x: real) { x * FOUR_DIGITS == (x * FOUR_DIGITS).Floor as real }

  lemma FourDecimalsSum(a: real, b: real)
    requires FourDecimals(a) && FourDecimals(b)
    ensures FourDecimals(a + b) && FourDecimals(a - b)
  {
    var x, y := a * FOUR_DIGITS, b * FOUR_DIGITS;
    assert (a + b) * FOUR_DIGITS == x + y && (a - b) * FOUR_DIGITS == x - y;
    WholeSum(x, y);
  }

  lemma WholeSum(x: real, y: real)
    requires x == x.Floor as real && y == y.Floor as real
    ensures x + y == (x + y).Floor as real && x - y == (x - y).Floor as real
  {
    WholeFloor(x + y, x.Floor + y.Floor);
    WholeFloor(x - y, x.Floor - y.Floor);
  }

  lemma WholeFloor(x: real, n: int)
    requires x == n as real
    ensures x.Floor == n
  {
  }

  lemma {:induction false} FourDecimalsTotal(s: seq<real>)
    requires forall i :: 0 <= i < |s| ==> FourDecimals(s[i])
    ensures FourDecimals(Sum(s))
  {
    if s == [] {
      assert 0.0 * FOUR_DIGITS == 0.0;
    } else {
      FourDecimalsTotal(s[..|s| - 1]);
      FourDecimalsSum(Sum(s[..|s| - 1]), s[|s| - 1]);
    }
  }

  lemma RoundKeeps(x: real)
    requires FourDecimals(x)
    ensures RoundTo(x, FOUR_DIGITS) == x
  {
    RoundHit(x, FOUR_DIGITS, (x * FOUR_DIGITS).Floor);
    DivideBack(x, FOUR_DIGITS);
  }

  ghost predicate InFourDecimals(events: seq<Event>, current: real) {
    FourDecimals(current) && forall e :: e in events ==> FourDecimals(Pnl(e))
  }

  function Income(e: Event): real { e.income }

  /** Income that is neither profit nor funding, such as commissions and transfers. */
  function OtherIncome(e: Event): real { if e.kind.RealizedPnl? || e.kind.FundingFee? then 0.0 else e.income }

  /** All income later than t, of whatever kind, which the design note deducts. */
  function IncomeAfter(events: seq<Event>, t: int): real { Total(Sorting.Keep(events, Since(t + 1)), Income) }

  function OtherAfter(events: seq<Event>, t: int): real { Total(Sorting.Keep(events, Since(t + 1)), OtherIncome) }

  lemma IncomeSplits(events: seq<Event>, t: int)
    ensures IncomeAfter(events, t) == PnlSince(events, t + 1) + OtherAfter(events, t)
  {
    var later := Sorting.Keep(events, Since(t + 1));
    TotalPlus(later, Pnl, OtherIncome, Income);
    PnlsAre(later);
  }

  /** For amounts in four decimals the equity in force at an event is the documented one, current equity less all income
      later than it, if and only if the profit and funding at that very time equal the income later than it that is
      neither. */
  lemma DocumentedExactlyWhen(events: seq<Event>, current: real, t: int)
    requires InFourDecimals(events, current)
    requires HasEventAt(events, t) && current >= PnlSince(events, t)
    ensures StepAt(Rebuilt(events, current), t) == Some(current - IncomeAfter(events, t))
       <==> PnlAt(events, t) == OtherAfter(events, t)
    ensures StepAt(Rebuilt(events, current), t) == Some(current - PnlSince(events, t + 1) - PnlAt(events, t))
  {
    InForceExact(events, current, t);
    PnlSplits(events, t);
    IncomeSplits(events, t);
  }

  /** With distinct event times the same holds of every rebuilt record. */
  lemma RecordDocumentedExactlyWhen(events: seq<Event>, current: real, r: Record)
    requires DistinctTimes(events) && NoRepeats(events) && InFourDecimals(events, current)
    requires r in Rebuilt(events, current)
    ensures r.equity == current - IncomeAfter(events, r.ts) <==> PnlAt(events, r.ts) == OtherAfter(events, r.ts)
  {
    RecordExact(events, current, r);
    PnlSplits(events, r.ts);
    IncomeSplits(events, r.ts);
  }

  lemma RecordExact(events: seq<Event>, current: real, r: Record)
    requires DistinctTimes(events) && NoRepeats(events) && InFourDecimals(events, current)
    requires r in Rebuilt(events, current)
    ensures r.equity == current - PnlSince(events, r.ts)
  {
    RecordRounds(events, current, r);
    SinceInFourDecimals(events, current, r.ts);
    RoundKeeps(current - PnlSince(events, r.ts));
  }

  lemma SinceInFourDecimals(events: seq<Event>, current: real, t: int)
    requires InFourDecimals(events, current)
    ensures FourDecimals(current - PnlSince(events, t))
  {
    var since := Sorting.Keep(events, Since(t));
    Sorting.KeepElements(events, Since(t));
    forall i | 0 <= i < |since| ensures FourDecimals(Pnls(since)[i]) { assert since[i] in since; }
    FourDecimalsTotal(Pnls(since));
    FourDecimalsSum(current, PnlSince(events, t));
  }

  lemma InForceExact(events: seq<Event>, current: real, t: int)
    requires InFourDecimals(events, current) && HasEventAt(events, t) && current >= PnlSince(events, t)
    ensures StepAt(Rebuilt(events, current), t) == Some(current - PnlSince(events, t))
  {
    SinceInFourDecimals(events, current, t);
    RoundKeeps(current - PnlSince(events, t));
    EquityInForce(events, current, t);
  }

  /** Event i of the walk shows what was left before it was deducted exactly when it is no profit or funding of note. */
  lemma OwnIncomeExactlyWhen(current: real, walk: seq<Event>, i: nat)
    requires i < |walk| && InFourDecimals(walk, current)
    ensures EquityAt(current, walk, i) == current - Sum(Pnls(walk[..i])) <==> Pnl(walk[i]) == 0.0
  {
    var seen := walk[..i + 1];
    forall j | 0 <= j < |seen| ensures FourDecimals(Pnls(seen)[j]) { assert seen[j] in walk; }
    FourDecimalsTotal(Pnls(seen));
    FourDecimalsSum(current, Sum(Pnls(seen)));
    RoundKeeps(current - Sum(Pnls(seen)));
    PnlsNext(walk, i);
  }

  /** The event's own income counts as already gone, although the design note says "later than". */
  lemma OwnIncomeDeducted()
    ensures Walk(100.0, [Event(5, RealizedPnl, 30.0)], 1) == [Record(5, 70.0)]
  {
    var e := Event(5, RealizedPnl, 30.0);
    assert [e][..1] == [e] && Pnls([e]) == [30.0];
    SumOne(30.0);
    RoundWhole(700000, FOUR_DIGITS);
    assert 700000 as real / FOUR_DIGITS == 70.0;
  }

  /** A later commission is never deducted: with nothing earned at 5 the record there shows 100, the design note
      says 105. */
  lemma CommissionNotDeducted()
    ensures var events := [Event(5, RealizedPnl, 0.0), Event(10, OtherKind, -5.0)];
      && PnlAt(events, 5) == 0.0 && InFourDecimals(events, 100.0) && IncomeAfter(events, 5) == -5.0
      && StepAt(Rebuilt(events, 100.0), 5) == Some(100.0)
  {
    var e, c := Event(5, RealizedPnl, 0.0), Event(10, OtherKind, -5.0);
    var events := [e, c];
    KeepTwo(e, c, At(5));
    KeepTwo(e, c, Since(5));
    KeepTwo(e, c, Since(6));
    SumOne(0.0);
    SumOne(-5.0);
    assert Pnls([e]) == [0.0] && Pnls([c]) == [0.0] && Amounts([c], Income) == [-5.0];
    assert events[0] == e;
    FourDecimalsOf(100.0, 1000000);
    FourDecimalsOf(0.0, 0);
    PnlSplits(events, 5);
    assert HasEventAt(events, 5);
    InForceExact(events, 100.0, 5);
  }

  lemma KeepTwo(e: Event, c: Event, p: Event -> bool)
    ensures Sorting.Keep([e, c], p) == (if p(e) then [e] else []) + (if p(c) then [c] else [])
  {
    KeepOne(e, p);
    KeepOne(c, p);
    Sorting.KeepAppend([e], [c], p);
    assert [e] + [c] == [e, c];
  }

  lemma KeepOne(e: Event, p: Event -> bool)
    ensures Sorting.Keep([e], p) == if p(e) then [e] else []
  {
    assert [e][1..] == [];
  }

  lemma FourDecimalsOf(x: real, n: int)
    requires x * FOUR_DIGITS == n as real
    ensures FourDecimals(x)
  {
    WholeFloor(x * FOUR_DIGITS, n);
  }
}
