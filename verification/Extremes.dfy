/** What the running extremes of a position mean, over every tick since it was opened. */
module Extremes {
  import opened Numerics
  import opened PositionCache
  import opened PositionRuns

  // ---------- the extremes of a sequence of unrealized values ----------

  /** The metadata after ticks with these unrealized values, starting from m. */
  function AfterFrom(m: Meta, us: seq<real>): Meta {
    if us == [] then m else WithExtremes(AfterFrom(m, us[..|us| - 1]), us[|us| - 1])
  }

  /** From the blank metadata of a new position. */
  function After(us: seq<real>): Meta { AfterFrom(BLANK, us) }

  /** The largest value, and 0 if all are negative. */
  function Best(us: seq<real>): real {
    if us == [] then 0.0 else Max(Best(us[..|us| - 1]), us[|us| - 1])
  }

  function Worst(us: seq<real>): real
    requires us != []
  {
    if |us| == 1 then us[0] else Min(Worst(us[..|us| - 1]), us[|us| - 1])
  }

  lemma {:induction false} BestIsHighest(us: seq<real>)
    ensures Best(us) >= 0.0 && (forall i :: 0 <= i < |us| ==> us[i] <= Best(us))
    ensures Best(us) == 0.0 || exists i :: 0 <= i < |us| && us[i] == Best(us)
  {
    if us != [] {
      var n := |us| - 1;
      BestIsHighest(us[..n]);
      if Best(us) == Best(us[..n]) && Best(us) != 0.0 {
        var i :| 0 <= i < n && us[..n][i] == Best(us[..n]);
        assert us[i] == Best(us);
      }
    }
  }

  lemma {:induction false} WorstIsLowest(us: seq<real>)
    requires us != []
    ensures forall i :: 0 <= i < |us| ==> Worst(us) <= us[i]
    ensures exists i :: 0 <= i < |us| && us[i] == Worst(us)
  {
    var n := |us| - 1;
    if n == 0 {
      assert us[0] == Worst(us);
    } else {
      WorstIsLowest(us[..n]);
      var i :| 0 <= i < n && us[..n][i] == Worst(us[..n]);
      assert us[i] == Worst(us[..n]) && us[n] == us[n];
    }
  }

  function Cents(x: real): real { RoundTo(x, CENTS) }

  /** Comparing with a value already in cents and rounding afterwards agree. */
  lemma CentsAbove(u: real, m: real)
    requires Cents(m) == m
    ensures u > m ==> Cents(u) >= m
    ensures u <= m ==> Cents(u) <= m
  {
    if u > m { RoundMonotone(m, u, CENTS); } else { RoundMonotone(u, m, CENTS); }
  }

  /** The favourable extreme is the largest gain over all ticks in cents, although every tick is compared
      with an extreme that has been rounded before. */
  lemma {:induction false} MfeIsBest(us: seq<real>)
    ensures After(us).mfe == Cents(Best(us))
  {
    if us == [] {
      RoundZero(CENTS);
    } else {
      var init, u := us[..|us| - 1], us[|us| - 1];
      MfeIsBest(init);
      RoundIdempotent(Best(init), CENTS);
      CentsAbove(u, After(init).mfe);
      RoundMax(Best(init), u, CENTS);
    }
  }

  /** The adverse extreme is the lowest value over all ticks in cents exactly when that is not zero
      or the last tick reads zero: at zero the next tick is taken as the first. */
  lemma {:induction false} MaeIsWorstExactlyWhen(us: seq<real>)
    requires us != []
    ensures After(us).mae == Cents(Worst(us)) <==> Cents(Worst(us)) != 0.0 || Cents(us[|us| - 1]) == 0.0
    ensures Cents(Worst(us)) == 0.0 ==> After(us).mae >= 0.0
    ensures Cents(After(us).mae) == After(us).mae
  {
    var n := |us| - 1;
    var u := us[n];
    RoundIdempotent(u, CENTS);
    if n == 0 {
      assert us[..0] == [] && After([]) == BLANK;
      assert After(us) == WithExtremes(After(us[..0]), u);
    } else {
      var init := us[..n];
      MaeIsWorstExactlyWhen(init);
      RoundMin(Worst(init), u, CENTS);
      NextMae(After(init), u, Cents(Worst(init)));
    }
  }

  lemma NextMae(m: Meta, u: real, worst: real)
    requires Cents(m.mae) == m.mae && (worst != 0.0 ==> m.mae == worst) && (worst == 0.0 ==> m.mae >= 0.0)
    ensures var mae, low := WithExtremes(m, u).mae, Min(worst, Cents(u));
      && (mae == low <==> low != 0.0 || Cents(u) == 0.0)
      && (low == 0.0 ==> mae >= 0.0)
      && (mae == m.mae || mae == Cents(u))
  {
    CentsAbove(u, m.mae);
    RoundZero(CENTS);
    CentsAbove(u, 0.0);
  }

  /** A losing position: the adverse extreme is its worst loss over all ticks, in cents. */
  lemma MaeIsWorstLoss(us: seq<real>)
    requires us != [] && Cents(Worst(us)) < 0.0
    ensures After(us).mae == Cents(Worst(us))
  {
    MaeIsWorstExactlyWhen(us);
  }

  /** The sentinel shows: a position that has only gained reports a positive adverse extreme,
      and one that opened flat forgets it. */
  lemma SentinelShows()
    ensures After([5.0]).mae == 5.0
    ensures Cents(Worst([0.0, 5.0])) == 0.0 && After([0.0, 5.0]).mae == 5.0
  {
    assert [5.0][..0] == [] && [0.0, 5.0][..1] == [0.0] && [0.0][..0] == [];
    RoundZero(CENTS);
    RoundHit(5.0, CENTS, 500);
    assert After([5.0]) == WithExtremes(BLANK, 5.0);
    assert After([0.0]) == WithExtremes(BLANK, 0.0);
    assert After([0.0, 5.0]) == WithExtremes(After([0.0]), 5.0);
  }

  // ---------- runs of the cache ----------

  /** The unrealized values the ticks of a run give a key since it was last opened. */
  function Ticks(s: Cache, calls: seq<Call>, k: Key): seq<real> {
    if calls == [] then []
    else
      var init, c := calls[..|calls| - 1], calls[|calls| - 1];
      var before := Find(Run(s, init).positions, k);
      if before.None? || !Lists(Step(Run(s, init), c).positions, k) then []
      else if c.Mark? && k.ticker == c.ticker && before.value.average > 0.0
      then Ticks(s, init, k) + [UnrealizedAt(before.value, c.mark)]
      else Ticks(s, init, k)
  }

  /** The metadata a listed position came with when it was last opened, or at the start of the run. */
  function OpenedWith(s: Cache, calls: seq<Call>, k: Key): Meta
    requires Lists(Run(s, calls).positions, k)
  {
    if calls == [] || !Lists(Run(s, calls[..|calls| - 1]).positions, k) then Find(Run(s, calls).positions, k).value.meta
    else OpenedWith(s, calls[..|calls| - 1], k)
  }

  /** What a position comes with: what the snapshot reports, stamped if it has no time; nothing from an update. */
  function Brought(c: Call, k: Key): Meta
    requires c.Snapshot? ==> Lists(c.incoming, k)
  {
    match c
    case Snapshot(_, incoming, _, _, now) =>
      var m := Find(incoming, k).value.meta;
      if m.entryTime == 0 then m.(entryTime := now) else m
    case Incremental(_, _, _, _, now) => BLANK.(entryTime := now)
    case _ => BLANK
  }

  /** So positions reported by the exchange start without extremes, while a platform's report of a position it matched
      by its id under another key brings the extremes that position had. */
  lemma OpenedAsBrought(s: Cache, c: Call, k: Key)
    requires Unique(s.positions) && Batch(c) && !Lists(s.positions, k) && Lists(Step(s, c).positions, k)
    ensures c.Snapshot? ==> Lists(c.incoming, k)
    ensures Find(Step(s, c).positions, k).value.meta == Brought(c, k)
  {
    match c
    case Snapshot(_, incoming, _, _, now) =>
      SnapshotOutcome(incoming, s.positions, now, k);
      FindIsMember(incoming, k);
    case Incremental(_, cs, _, _, now) => OpenedIsBlank(s, cs, now, k);
    case Mark(ticker, mark) => MarkOutcome(s.positions, ticker, mark, k);
    case _ =>
  }

  lemma OpenedIsBlank(s: Cache, cs: seq<Change>, now: nat, k: Key)
    requires Unique(s.positions) && DistinctKeys(cs) && !Lists(s.positions, k)
    requires Lists(AppliedAll(s.positions, cs, s.positions, s.marks, now), k)
    ensures Find(AppliedAll(s.positions, cs, s.positions, s.marks, now), k).value.meta == BLANK.(entryTime := now)
  {
    BatchOutcome(s.positions, cs, s.marks, now);
    assert exists i :: 0 <= i < |cs| && cs[i].key == k;
    var i :| 0 <= i < |cs| && cs[i].key == k;
    assert Find(AppliedAll(s.positions, cs, s.positions, s.marks, now), k)
      == Outcome(Find(s.positions, k), cs[i], s.marks, now);
  }

  lemma ListedKeepsExtremes(s: Cache, c: Call, k: Key)
    requires Unique(s.positions) && Batch(c) && Lists(s.positions, k) && Lists(Step(s, c).positions, k)
    ensures var p, q := Find(s.positions, k).value, Find(Step(s, c).positions, k).value;
      q.meta == if c.Mark? && k.ticker == c.ticker && p.average > 0.0
                then WithExtremes(p.meta, UnrealizedAt(p, c.mark)) else p.meta
  {
    FindIsMember(s.positions, k);
    match c
    case Snapshot(_, incoming, _, _, now) =>
      SnapshotOutcome(incoming, s.positions, now, k);
      FindIsMember(incoming, k);
    case Incremental(_, cs, _, _, now) => ChangeKeepsMeta(s, cs, now, k);
    case Mark(ticker, mark) => MarkOutcome(s.positions, ticker, mark, k);
    case _ =>
  }

  /** Over any run, however ticks, snapshots and updates interleave, an open position's metadata is what it was opened
      with, changed by the ticks since and by nothing else. */
  lemma {:induction false} RunExtremes(s: Cache, calls: seq<Call>, k: Key)
    requires Unique(s.positions) && Batches(calls) && Lists(Run(s, calls).positions, k)
    ensures Find(Run(s, calls).positions, k).value.meta == AfterFrom(OpenedWith(s, calls, k), Ticks(s, calls, k))
  {
    if calls != [] {
      var n := |calls| - 1;
      var before, c := Run(s, calls[..n]), calls[n];
      RunsKeepUnique(s, calls[..n]);
      if Lists(before.positions, k) {
        RunExtremes(s, calls[..n], k);
        ListedKeepsExtremes(before, c, k);
        TickNext(OpenedWith(s, calls[..n], k), Ticks(s, calls[..n], k),
                 UnrealizedAt(Find(before.positions, k).value, if c.Mark? then c.mark else 0.0));
      }
    }
  }

  lemma TickNext(m: Meta, us: seq<real>, u: real)
    ensures AfterFrom(m, us + [u]) == WithExtremes(AfterFrom(m, us), u)
  {
    assert (us + [u])[..|us|] == us;
  }

  /** The fold looks at the extremes only. */
  lemma {:induction false} FoldFromSame(m: Meta, n: Meta, us: seq<real>)
    requires m.mfe == n.mfe && m.mae == n.mae
    ensures AfterFrom(m, us).mfe == AfterFrom(n, us).mfe && AfterFrom(m, us).mae == AfterFrom(n, us).mae
  {
    if us != [] { FoldFromSame(m, n, us[..|us| - 1]); }
  }

  ghost predicate LowestOf(low: real, first: real, us: seq<real>) {
    && low <= first && (forall i :: 0 <= i < |us| ==> low <= Cents(us[i]))
    && (low == first || exists i :: 0 <= i < |us| && Cents(us[i]) == low)
  }

  ghost predicate HighestOf(high: real, first: real, us: seq<real>) {
    && first <= high && (forall i :: 0 <= i < |us| ==> Cents(us[i]) <= high)
    && (high == first || exists i :: 0 <= i < |us| && Cents(us[i]) == high)
  }

  /** Extremes a position brought along are kept: the favourable one is the highest of it and the ticks since, in cents,
      and an adverse one below zero is the lowest of it and them. */
  lemma {:induction false} BroughtExtremes(m: Meta, us: seq<real>)
    requires Cents(m.mfe) == m.mfe && Cents(m.mae) == m.mae
    ensures HighestOf(AfterFrom(m, us).mfe, m.mfe, us) && Cents(AfterFrom(m, us).mfe) == AfterFrom(m, us).mfe
    ensures m.mae < 0.0 ==> LowestOf(AfterFrom(m, us).mae, m.mae, us)
    ensures Cents(AfterFrom(m, us).mae) == AfterFrom(m, us).mae
  {
    if us != [] {
      var n := |us| - 1;
      var init := AfterFrom(m, us[..n]);
      BroughtExtremes(m, us[..n]);
      NextExtremes(init, us[n]);
      HighestNext(init.mfe, m.mfe, us[..n], us[n]);
      if m.mae < 0.0 { LowestNext(init.mae, m.mae, us[..n], us[n]); }
      assert us == us[..n] + [us[n]];
    }
  }

  lemma NextExtremes(m: Meta, u: real)
    requires Cents(m.mfe) == m.mfe && Cents(m.mae) == m.mae
    ensures WithExtremes(m, u).mfe == Max(m.mfe, Cents(u)) && Cents(WithExtremes(m, u).mfe) == WithExtremes(m, u).mfe
    ensures m.mae < 0.0 ==> WithExtremes(m, u).mae == Min(m.mae, Cents(u))
    ensures Cents(WithExtremes(m, u).mae) == WithExtremes(m, u).mae
  {
    RoundIdempotent(u, CENTS);
    CentsAbove(u, m.mfe);
    CentsAbove(u, m.mae);
  }

  lemma HighestNext(high: real, first: real, us: seq<real>, u: real)
    requires HighestOf(high, first, us)
    ensures HighestOf(Max(high, Cents(u)), first, us + [u])
  {
    var more := us + [u];
    assert more[|us|] == u && forall i :: 0 <= i < |us| ==> more[i] == us[i];
    if high != first && high >= Cents(u) {
      var i :| 0 <= i < |us| && Cents(us[i]) == high;
      assert Cents(more[i]) == high;
    }
  }

  lemma LowestNext(low: real, first: real, us: seq<real>, u: real)
    requires LowestOf(low, first, us)
    ensures LowestOf(Min(low, Cents(u)), first, us + [u])
  {
    var more := us + [u];
    assert more[|us|] == u && forall i :: 0 <= i < |us| ==> more[i] == us[i];
    if low != first && low <= Cents(u) {
      var i :| 0 <= i < |us| && Cents(us[i]) == low;
      assert Cents(more[i]) == low;
    }
  }

  /** The claim for a run: an open position's favourable extreme is its best tick since opening in cents,
      never below zero, and its adverse extreme is its worst loss. */
  lemma OpenPositionExtremes(s: Cache, calls: seq<Call>, k: Key)
    requires Unique(s.positions) && Batches(calls) && Lists(Run(s, calls).positions, k)
    requires NoExtremes(OpenedWith(s, calls, k))
    ensures var m, us := Find(Run(s, calls).positions, k).value.meta, Ticks(s, calls, k);
      && m.mfe == Cents(Best(us))
      && (us == [] ==> m.mae == 0.0)
      && (us != [] && Cents(Worst(us)) < 0.0 ==> m.mae == Cents(Worst(us)))
      && (us != [] && Cents(Worst(us)) >= 0.0 ==> m.mae >= 0.0)
  {
    var us := Ticks(s, calls, k);
    RunExtremes(s, calls, k);
    FoldFromSame(OpenedWith(s, calls, k), BLANK, us);
    MfeIsBest(us);
    if us != [] { MaeIsWorstExactlyWhen(us); }
  }

  ghost predicate NoExtremes(m: Meta) { m.mfe == 0.0 && m.mae == 0.0 }
}
