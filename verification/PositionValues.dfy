/** What each call of the position cache makes of a position and of the account, in prices, amounts and times. */
module PositionValues {
  import opened Numerics
  import opened Sorting
  import opened PositionCache
  import opened PositionRuns
  import opened Extremes

  // ---------- marks ----------

  /** What a position gains by a price: the amount times the way up from its average for a long, the way down else. */
  predicate GainsBy(p: Position, price: real, gain: real) {
    gain == p.amount * (if p.key.direction == "LONG" then price - p.average else p.average - price)
  }

  lemma UnrealizedIsGain(p: Position, price: real)
    ensures GainsBy(p, price, UnrealizedAt(p, price))
  {
  }

  /** A mark leaves a position of another ticker as it was; one of its ticker shows the price, its value at it and, with
      an average, its gain by it. */
  predicate Ticked(p: Position, ticker: string, mark: real, q: Position) {
    if p.key.ticker != ticker then q == p
    else
      && q.fair == mark && q.value == Abs(mark * p.amount * p.contractSize)
      && (p.average > 0.0 ==> GainsBy(p, mark, q.unrealized))
      && (p.average <= 0.0 ==> q.unrealized == p.unrealized && q.meta == p.meta)
      && q == p.(fair := q.fair, value := q.value, unrealized := q.unrealized,
                 meta := p.meta.(mfe := q.meta.mfe, mae := q.meta.mae))
  }

  lemma MarkedIsTicked(p: Position, ticker: string, mark: real)
    ensures Ticked(p, ticker, mark, Marked(p, ticker, mark))
  {
  }

  lemma TickOutcome(s: Cache, ticker: string, mark: real, k: Key)
    requires Lists(s.positions, k)
    ensures Lists(Step(s, Mark(ticker, mark)).positions, k) && Find(s.positions, k).value.key == k
    ensures Ticked(Find(s.positions, k).value, ticker, mark, Find(Step(s, Mark(ticker, mark)).positions, k).value)
  {
    MarkOutcome(s.positions, ticker, mark, k);
    FindIsMember(s.positions, k);
    MarkedIsTicked(Find(s.positions, k).value, ticker, mark);
  }

  // ---------- snapshots ----------

  /** What a snapshot makes of a position it lists: its report, with the metadata of the position listed before, with
      that one's id if the report has none and its unrealized PnL if it shows one; of a new one with the time it is
      seen at if the report has none. */
  predicate Taken(report: Position, before: Option<Position>, now: nat, q: Position) {
    && q == report.(id := q.id, unrealized := q.unrealized, meta := q.meta)
    && (before.None? ==>
          && q.id == report.id && q.unrealized == report.unrealized
          && q.meta == report.meta.(entryTime := if report.meta.entryTime == 0 then now else report.meta.entryTime))
    && (before.Some? ==>
          && q.meta == before.value.meta
          && (report.id != "" ==> q.id == report.id) && (report.id == "" ==> q.id == before.value.id)
          && (before.value.unrealized == 0.0 ==> q.unrealized == report.unrealized)
          && (before.value.unrealized != 0.0 ==> q.unrealized == before.value.unrealized))
  }

  lemma SnapshotTakes(s: Cache, c: Call, k: Key)
    requires c.Snapshot? && Accepted(s, c) && Unique(c.incoming) && Lists(c.incoming, k)
    ensures Lists(Step(s, c).positions, k)
    ensures Taken(Find(c.incoming, k).value, Find(s.positions, k), c.now, Find(Step(s, c).positions, k).value)
  {
    SnapshotOutcome(c.incoming, s.positions, c.now, k);
    FindIsMember(c.incoming, k);
  }

  /** After a snapshot positions are listed in the order they were entered in. */
  lemma SnapshotInEntryOrder(s: Cache, c: Call)
    requires c.Snapshot? && Accepted(s, c)
    ensures var ps := Step(s, c).positions;
      forall i, j :: 0 <= i < j < |ps| ==> ps[i].meta.entryTime <= ps[j].meta.entryTime
  {
    var ps := Step(s, c).positions;
    SortByIsSort(CarriedAll(c.incoming, s.positions, c.now), EntryTime);
    forall i, j | 0 <= i < j < |ps| ensures ps[i].meta.entryTime <= ps[j].meta.entryTime {
      assert EntryTime(ps[i]) <= EntryTime(ps[j]);
    }
  }

  // ---------- incremental updates ----------

  /** What a change makes of its key: nothing is left of a size of zero; a listed position takes size, unrealized PnL, a
      positive entry price and, when a mark is known, its value at it; a new one also its fair price, from the mark or
      else the entry price, and the time it is seen at. */
  predicate ChangedTo(before: Option<Position>, c: Change, marks: map<string, real>, now: nat, q: Option<Position>) {
    var known := c.key.ticker in marks && marks[c.key.ticker] != 0.0;
    if c.size == 0.0 then q == None
    else if before.Some? then
      && q.Some?
      && q.value == before.value.(amount := c.size, unrealized := c.unrealized,
                                  average := q.value.average, value := q.value.value)
      && q.value.average == (if c.entryPrice > 0.0 then c.entryPrice else before.value.average)
      && q.value.value == (if known then c.size * marks[c.key.ticker] else before.value.value)
    else
      && q.Some?
      && q.value.key == c.key && q.value.id == "" && q.value.amount == c.size && q.value.contractSize == 1.0
      && q.value.average == c.entryPrice && q.value.unrealized == c.unrealized && q.value.marginUsed == 0.0
      && q.value.fair == (if known then marks[c.key.ticker] else c.entryPrice)
      && q.value.value == c.size * q.value.fair
      && q.value.meta == Meta("", false, 0.0, 0.0, 0.0, 0.0, 0, now, 0.0, 0.0, 0.0)
  }

  lemma UpdateChanges(s: Cache, c: Call, i: nat)
    requires c.Incremental? && Unique(s.positions) && DistinctKeys(c.changes) && i < |c.changes|
    ensures var k := c.changes[i].key;
      ChangedTo(Find(s.positions, k), c.changes[i], s.marks, c.now, Find(Step(s, c).positions, k))
  {
    BatchOutcome(s.positions, c.changes, s.marks, c.now);
    OutcomeIsChange(Find(s.positions, c.changes[i].key), c.changes[i], s.marks, c.now);
    assert Find(Step(s, c).positions, c.changes[i].key)
      == Outcome(Find(s.positions, c.changes[i].key), c.changes[i], s.marks, c.now);
  }

  lemma OutcomeIsChange(before: Option<Position>, c: Change, marks: map<string, real>, now: nat)
    ensures ChangedTo(before, c, marks, now, Outcome(before, c, marks, now))
  {
  }

  // ---------- versions ----------

  /** An accepted write of positions, or of the balance or account, moves that version on by one and gives it its source
      and time; nothing else moves a version. */
  lemma VersionsMove(s: Cache, c: Call)
    requires Accepted(s, c)
    ensures var after := Step(s, c);
      && after.version == (match c
           case Snapshot(source, _, time, _, _) => Version(s.version.sequence + 1, source, time)
           case Incremental(source, _, _, time, _) => Version(s.version.sequence + 1, source, time)
           case _ => s.version)
      && after.accountVersion == (match c
           case Incremental(source, _, balance, time, _) =>
             if balance == None then s.accountVersion else Version(s.accountVersion.sequence + 1, source, time)
           case AccountRest(_, time) => Version(s.accountVersion.sequence + 1, Rest, time)
           case AccountPlatform(_, time) => Version(s.accountVersion.sequence + 1, Platform, time)
           case _ => s.accountVersion)
  {
  }

  // ---------- the account ----------

  /** An update with balances sets the balance; every update sums up the unrealized PnL of the positions it leaves. */
  lemma UpdateSums(s: Cache, c: Call)
    requires c.Incremental?
    ensures var before, after := s.account, Step(s, c).account;
      && after.unrealized == Sum(Unrealized(Step(s, c).positions)) && after.equity == before.equity
      && after.balance == (if c.balance.Some? then c.balance.value else before.balance)
      && after.available == before.available
  {
  }

  /** Without a balance a mark leaves equity and available margin as they are. */
  lemma TickWithoutBalance(s: Cache, ticker: string, mark: real)
    requires s.account.balance <= 0.0
    ensures var before, after := s.account, Step(s, Mark(ticker, mark)).account;
      && after.unrealized == Sum(Unrealized(Step(s, Mark(ticker, mark)).positions))
      && after.equity == before.equity && after.available == before.available
  {
  }

  /** A report of the exchange gives the account its figures, equity as balance too; one of the platform its own
      balance, and as margin used what equity has above the available margin. */
  lemma ReportsTaken(s: Cache, c: Call)
    requires c.AccountRest? || c.AccountPlatform?
    ensures var a, r := Step(s, c).account, c.report;
      Accepted(s, c) ==>
        && a.equity == r.equity && a.available == r.available && a.unrealized == r.unrealized
        && a.marginRatio == r.marginRatio && a.positionValue == s.account.positionValue
        && a.balance == (if c.AccountRest? then r.equity else r.balance)
        && (c.AccountRest? ==> a.marginUsed == r.marginUsed)
        && (c.AccountPlatform? ==> a.marginUsed >= 0.0 && a.marginUsed + a.available >= a.equity)
        && (c.AccountPlatform? ==> a.marginUsed == 0.0 || a.marginUsed + a.available == a.equity)
    ensures Accepted(s, c) <==> (c.AccountRest? ==> ShouldAccept(s.accountVersion, Rest, c.time))
  {
  }

  /** Whether a call is the first report of the exchange, which sets the baselines. */
  predicate FirstReport(s: Cache, c: Call) { c.AccountRest? && s.account.bodEquity == 0.0 }

  lemma ExtremesMove(s: Cache, c: Call)
    requires Accepted(s, c)
    ensures var a, b := s.account, Step(s, c).account;
      && (FirstReport(s, c) ==> b.maxEquity == b.minEquity == b.bodEquity == b.ddEquity == b.equity == c.report.equity)
      && (!FirstReport(s, c) ==>
            && b.bodEquity == a.bodEquity && b.ddEquity == a.ddEquity
            && b.maxEquity == (if b.equity > a.maxEquity then b.equity else a.maxEquity)
            && b.minEquity == (if a.minEquity > 0.0 && a.minEquity < b.equity then a.minEquity else b.equity))
      && b.sowEquity == (if c.AccountRest? && a.sowEquity == 0.0 then c.report.equity else a.sowEquity)
  {
  }

  ghost predicate Counted(s: Cache, calls: seq<Call>, i: nat)
    requires i < |calls|
  {
    Accepted(Run(s, calls[..i]), calls[i])
  }

  function EquityAfter(s: Cache, calls: seq<Call>, i: nat): real
    requires i < |calls|
  {
    Run(s, calls[..i + 1]).account.equity
  }

  ghost predicate Within(s: Cache, calls: seq<Call>, low: real, high: real) {
    forall i :: 0 <= i < |calls| && Counted(s, calls, i) ==> low <= EquityAfter(s, calls, i) <= high
  }

  ghost predicate Reached(s: Cache, calls: seq<Call>, start: real, value: real) {
    value == start || exists i :: 0 <= i < |calls| && EquityAfter(s, calls, i) == value
  }

  /** The recorded extremes, once the baselines stand and while equity is positive, are the highest and the lowest of
      the extremes at the start and of the equities of all accepted calls since. */
  ghost predicate ExtremesReached(s: Cache, calls: seq<Call>) {
    var a, b := s.account, Run(s, calls).account;
    && a.maxEquity <= b.maxEquity && b.minEquity <= a.minEquity
    && Within(s, calls, b.minEquity, b.maxEquity)
    && Reached(s, calls, a.maxEquity, b.maxEquity) && Reached(s, calls, a.minEquity, b.minEquity)
  }

  lemma {:induction false} ExtremesAreReached(s: Cache, calls: seq<Call>)
    requires s.account.bodEquity != 0.0 && s.account.minEquity > 0.0
    requires forall i :: 0 <= i < |calls| ==> EquityAfter(s, calls, i) > 0.0
    ensures ExtremesReached(s, calls)
    ensures Run(s, calls).account.minEquity > 0.0 && Run(s, calls).account.bodEquity != 0.0
  {
    if calls != [] {
      var n := |calls| - 1;
      forall i | 0 <= i < n ensures EquityAfter(s, calls[..n], i) == EquityAfter(s, calls, i) {
        assert calls[..n][..i + 1] == calls[..i + 1];
      }
      ExtremesAreReached(s, calls[..n]);
      assert calls[..n + 1] == calls && EquityAfter(s, calls, n) > 0.0;
      var before := Run(s, calls[..n]);
      if Accepted(before, calls[n]) { ExtremesMove(before, calls[n]); }
      var a, b := before.account, Run(s, calls).account;
      WithinMore(s, calls, a.minEquity, a.maxEquity, b.minEquity, b.maxEquity);
      ReachedMore(s, calls, s.account.maxEquity, a.maxEquity, b.maxEquity);
      ReachedMore(s, calls, s.account.minEquity, a.minEquity, b.minEquity);
    }
  }

  lemma WithinMore(s: Cache, calls: seq<Call>, low: real, high: real, lower: real, higher: real)
    requires calls != [] && Within(s, calls[..|calls| - 1], low, high) && lower <= low && high <= higher
    requires Counted(s, calls, |calls| - 1) ==> lower <= EquityAfter(s, calls, |calls| - 1) <= higher
    ensures Within(s, calls, lower, higher)
  {
    var n := |calls| - 1;
    forall i | 0 <= i < n
      ensures EquityAfter(s, calls[..n], i) == EquityAfter(s, calls, i)
      ensures Counted(s, calls[..n], i) <==> Counted(s, calls, i)
    {
      assert calls[..n][..i] == calls[..i] && calls[..n][..i + 1] == calls[..i + 1];
    }
  }

  lemma ReachedMore(s: Cache, calls: seq<Call>, start: real, before: real, value: real)
    requires calls != [] && Reached(s, calls[..|calls| - 1], start, before)
    requires value == before || value == EquityAfter(s, calls, |calls| - 1)
    ensures Reached(s, calls, start, value)
  {
    var n := |calls| - 1;
    if value == before && before != start {
      var i :| 0 <= i < n && EquityAfter(s, calls[..n], i) == before;
      assert calls[..n][..i + 1] == calls[..i + 1];
      assert EquityAfter(s, calls, i) == value;
    }
  }

  // ---------- extremes and prices ----------

  /** Call i of a run marks the position of a key, with an average, at a price that gains it so much. */
  ghost predicate MarkedAt(s: Cache, calls: seq<Call>, k: Key, i: int, gain: real) {
    && 0 <= i < |calls| && calls[i].Mark? && calls[i].ticker == k.ticker
    && Find(Run(s, calls[..i]).positions, k).Some?
    && Find(Run(s, calls[..i]).positions, k).value.average > 0.0
    && GainsBy(Find(Run(s, calls[..i]).positions, k).value, calls[i].mark, gain)
  }

  /** It has been listed from before that call to the end. */
  ghost predicate ListedFrom(s: Cache, calls: seq<Call>, k: Key, i: int) {
    forall j :: 0 <= i <= j <= |calls| ==> Lists(Run(s, calls[..j]).positions, k)
  }

  lemma {:induction false} TicksAreMarks(s: Cache, calls: seq<Call>, k: Key, u: real)
    requires u in Ticks(s, calls, k)
    ensures exists i :: MarkedAt(s, calls, k, i, u) && ListedFrom(s, calls, k, i)
  {
    var n := |calls| - 1;
    var before := Find(Run(s, calls[..n]).positions, k);
    assert calls[..n + 1] == calls;
    FindIsMember(Run(s, calls[..n]).positions, k);
    if u in Ticks(s, calls[..n], k) {
      TicksAreMarks(s, calls[..n], k, u);
      var i :| MarkedAt(s, calls[..n], k, i, u) && ListedFrom(s, calls[..n], k, i);
      MarkedLater(s, calls, k, i, u);
    } else {
      UnrealizedIsGain(before.value, calls[n].mark);
      ListedAtEnd(s, calls, k);
      assert MarkedAt(s, calls, k, n, u);
    }
  }

  lemma ListedAtEnd(s: Cache, calls: seq<Call>, k: Key)
    requires calls != [] && Lists(Run(s, calls[..|calls| - 1]).positions, k) && Lists(Run(s, calls).positions, k)
    ensures ListedFrom(s, calls, k, |calls| - 1)
  {
    forall j | |calls| - 1 <= j <= |calls| ensures Lists(Run(s, calls[..j]).positions, k) {
      if j == |calls| { assert calls[..j] == calls; }
    }
  }

  lemma MarkedLater(s: Cache, calls: seq<Call>, k: Key, i: int, gain: real)
    requires calls != [] && Lists(Run(s, calls).positions, k)
    requires MarkedAt(s, calls[..|calls| - 1], k, i, gain) && ListedFrom(s, calls[..|calls| - 1], k, i)
    ensures MarkedAt(s, calls, k, i, gain) && ListedFrom(s, calls, k, i)
  {
    var n := |calls| - 1;
    assert calls[..n][..i] == calls[..i];
    forall j | i <= j <= |calls| ensures Lists(Run(s, calls[..j]).positions, k) {
      if j <= n { assert calls[..n][..j] == calls[..j]; } else { assert calls[..j] == calls; }
    }
  }

  lemma {:induction false} MaeIsTick(m: Meta, us: seq<real>)
    ensures AfterFrom(m, us).mae == m.mae || exists u :: u in us && Cents(u) == AfterFrom(m, us).mae
    ensures AfterFrom(m, us).mfe == m.mfe || exists u :: u in us && Cents(u) == AfterFrom(m, us).mfe
  {
    if us != [] {
      var n := |us| - 1;
      MaeIsTick(m, us[..n]);
      assert us[n] in us && forall u :: u in us[..n] ==> u in us;
    }
  }

  /** An extreme of an open position that is not the one it was opened with is, in cents, what some mark since then
      gained it. */
  lemma ExtremesComeFromPrices(s: Cache, calls: seq<Call>, k: Key)
    requires Unique(s.positions) && Batches(calls) && Lists(Run(s, calls).positions, k)
    ensures var m, first := Find(Run(s, calls).positions, k).value.meta, OpenedWith(s, calls, k);
      && (m.mfe != first.mfe ==>
            exists i, gain :: MarkedAt(s, calls, k, i, gain) && ListedFrom(s, calls, k, i) && m.mfe == Cents(gain))
      && (m.mae != first.mae ==>
            exists i, gain :: MarkedAt(s, calls, k, i, gain) && ListedFrom(s, calls, k, i) && m.mae == Cents(gain))
  {
    var m, us := OpenedWith(s, calls, k), Ticks(s, calls, k);
    RunExtremes(s, calls, k);
    MaeIsTick(m, us);
    if AfterFrom(m, us).mfe != m.mfe {
      var u :| u in us && Cents(u) == AfterFrom(m, us).mfe;
      TicksAreMarks(s, calls, k, u);
    }
    if AfterFrom(m, us).mae != m.mae {
      var u :| u in us && Cents(u) == AfterFrom(m, us).mae;
      TicksAreMarks(s, calls, k, u);
    }
  }

  /** A price above the average of a long, or below that of any other position. */
  predicate Favours(p: Position, price: real) {
    if p.key.direction == "LONG" then price > p.average else price < p.average
  }

  predicate Disfavours(p: Position, price: real) {
    if p.key.direction == "LONG" then price < p.average else price > p.average
  }

  /** A gain that shows in cents, for a positive amount, is made on the position's side of its average; a loss on the
      other. */
  lemma GainsOnItsSide(p: Position, price: real, gain: real)
    requires GainsBy(p, price, gain) && p.amount > 0.0
    ensures Cents(gain) > 0.0 ==> Favours(p, price)
    ensures Cents(gain) < 0.0 ==> Disfavours(p, price)
  {
    RoundZero(CENTS);
    if gain <= 0.0 { RoundMonotone(gain, 0.0, CENTS); }
    if gain >= 0.0 { RoundMonotone(0.0, gain, CENTS); }
    SideOf(p.amount, if p.key.direction == "LONG" then price - p.average else p.average - price, gain);
  }

  lemma SideOf(amount: real, way: real, gain: real)
    requires amount > 0.0 && gain == amount * way
    ensures (gain > 0.0 ==> way > 0.0) && (gain < 0.0 ==> way < 0.0)
  {
    if way <= 0.0 { ProductMonotone(way, 0.0, amount); }
    if way >= 0.0 { ProductMonotone(0.0, way, amount); }
  }

  /** Some call since its last opening marks the position at a favourable, or at an adverse, price. */
  ghost predicate SeenAtPrice(s: Cache, calls: seq<Call>, k: Key, favourable: bool) {
    exists i :: 0 <= i < |calls| && ListedFrom(s, calls, k, i) && calls[i].Mark? && calls[i].ticker == k.ticker
      && Find(Run(s, calls[..i]).positions, k).Some?
      && if favourable then Favours(Find(Run(s, calls[..i]).positions, k).value, calls[i].mark)
         else Disfavours(Find(Run(s, calls[..i]).positions, k).value, calls[i].mark)
  }

  /** While its amount is positive a position's favourable extreme rises above what it was opened with only by a price
      on its own side of its average at that time, and its adverse one falls below zero only by one on the other. */
  lemma ExtremesNeedPrices(s: Cache, calls: seq<Call>, k: Key)
    requires Unique(s.positions) && Batches(calls) && Lists(Run(s, calls).positions, k)
    requires OpenedWith(s, calls, k).mfe >= 0.0 && OpenedWith(s, calls, k).mae >= 0.0
    requires forall i :: 0 <= i < |calls| && Lists(Run(s, calls[..i]).positions, k) ==>
      Find(Run(s, calls[..i]).positions, k).value.amount > 0.0
    ensures var m := Find(Run(s, calls).positions, k).value.meta;
      && (m.mfe > OpenedWith(s, calls, k).mfe ==> SeenAtPrice(s, calls, k, true))
      && (m.mae < 0.0 ==> SeenAtPrice(s, calls, k, false))
  {
    var m := Find(Run(s, calls).positions, k).value.meta;
    ExtremesComeFromPrices(s, calls, k);
    if m.mfe > OpenedWith(s, calls, k).mfe {
      var i, gain :| MarkedAt(s, calls, k, i, gain) && ListedFrom(s, calls, k, i) && m.mfe == Cents(gain);
      PriceSeen(s, calls, k, i, gain);
    }
    if m.mae < 0.0 {
      var i, gain :| MarkedAt(s, calls, k, i, gain) && ListedFrom(s, calls, k, i) && m.mae == Cents(gain);
      PriceSeen(s, calls, k, i, gain);
    }
  }

  lemma PriceSeen(s: Cache, calls: seq<Call>, k: Key, i: int, gain: real)
    requires MarkedAt(s, calls, k, i, gain) && ListedFrom(s, calls, k, i)
    requires Find(Run(s, calls[..i]).positions, k).value.amount > 0.0
    ensures Cents(gain) > 0.0 ==> SeenAtPrice(s, calls, k, true)
    ensures Cents(gain) < 0.0 ==> SeenAtPrice(s, calls, k, false)
  {
    GainsOnItsSide(Find(Run(s, calls[..i]).positions, k).value, calls[i].mark, gain);
  }
}
