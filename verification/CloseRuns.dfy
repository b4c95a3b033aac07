/**
 What the stored close rows of a position add up to, over every run in which fills arrive and rows are built in between.
 */
module CloseRuns {
  import opened Numerics
  import opened Sorting
  import opened OrderTable
  import opened OrderFills
  import opened CloseRows

  // ---------- runs ----------

  ghost predicate DistinctIds(fills: seq<Fill>) {
    forall i, j :: 0 <= i < j < |fills| ==> fills[i].id != fills[j].id
  }

  /** A fill that arrives twice arrives as it was; rows are built for closing fills that have arrived. */
  predicate Proper(b: Book, a: Act) {
    match a
    case Arrive(f) => Knows(b.fills, f.id) ==> f in b.fills
    case Build(f, _) => f in b.fills && f.isClose
  }

  ghost predicate ProperRun(acts: seq<Act>) { forall i :: 0 <= i < |acts| ==> Proper(Run(EMPTY, acts[..i]), acts[i]) }

  /** A stored row is what it was made of, and that is a part of the fills stored now. */
  ghost predicate SoundRow(b: Book, t: int)
    requires t in b.made && t in b.rows
  {
    var m := b.made[t];
    && m.closes != [] && t == Latest(m.closes) && b.rows[t] == RowOf(m.opens, m.closes, m.average)
    && m.closes <= Closes(b.fills, m.group) && m.opens <= Opens(b.fills)
  }

  ghost predicate SoundRows(b: Book) {
    b.rows.Keys == b.made.Keys && forall t :: t in b.made ==> SoundRow(b, t)
  }

  /** A group that waits for no build has been built whole: its exit time has a row, and if the row is the group's own,
      it holds all of it. */
  ghost predicate Served(b: Book, g: Group) {
    var closes := Closes(b.fills, g);
    g !in b.due && closes != [] ==>
      && Latest(closes) in b.made
      && (b.made[Latest(closes)].group == g ==> b.made[Latest(closes)].closes == closes)
  }

  ghost predicate Sound(b: Book) { DistinctIds(b.fills) && SoundRows(b) && forall g :: Served(b, g) }

  lemma {:induction false} ReplaceSame(fills: seq<Fill>, f: Fill)
    requires DistinctIds(fills) && (f in fills || forall i :: 0 <= i < |fills| ==> fills[i].id != f.id)
    ensures Replace(fills, f) == fills
  {
    if fills != [] {
      var init, last := fills[..|fills| - 1], fills[|fills| - 1];
      assert fills == init + [last];
      ReplaceSame(init, f);
    }
  }

  lemma ArriveKeepsSound(b: Book, f: Fill)
    requires Sound(b) && Proper(b, Arrive(f))
    ensures Sound(Step(b, Arrive(f)))
  {
    var after := Step(b, Arrive(f));
    if Knows(b.fills, f.id) {
      ReplaceSame(b.fills, f);
      forall g ensures Served(after, g) { assert Served(b, g); }
      forall t | t in after.made ensures SoundRow(after, t) { assert SoundRow(b, t); }
    } else {
      KeepGrows(b.fills, f, Opening());
      forall g ensures Served(after, g) {
        KeepGrows(b.fills, f, InGroup(g));
        assert Served(b, g);
      }
      forall t | t in after.made ensures SoundRow(after, t) {
        KeepGrows(b.fills, f, InGroup(b.made[t].group));
        assert SoundRow(b, t);
      }
    }
  }

  /** A fill without an order is its own group. */
  lemma ClosesForIsGroup(fills: seq<Fill>, f: Fill)
    requires DistinctIds(fills) && f in fills && f.isClose
    ensures ClosesFor(fills, f) == Closes(fills, GroupOf(f)) && Closes(fills, GroupOf(f)) != []
  {
    KeepElements(fills, InGroup(GroupOf(f)));
    assert f in Closes(fills, GroupOf(f));
    if f.orderId == "" {
      var i :| 0 <= i < |fills| && fills[i] == f;
      KeepWindow(fills, InGroup(GroupOf(f)), i, i + 1);
    }
  }

  lemma BuildKeepsSound(b: Book, f: Fill, average: real)
    requires Sound(b) && Proper(b, Build(f, average))
    ensures Sound(Step(b, Build(f, average)))
  {
    ClosesForIsGroup(b.fills, f);
    var after := Step(b, Build(f, average));
    forall g ensures Served(after, g) { assert Served(b, g); }
    forall t | t in after.made ensures SoundRow(after, t) {
      if t in b.made { assert SoundRow(b, t); }
    }
  }

  /** Every reachable book is sound. */
  lemma {:induction false} RunsAreSound(acts: seq<Act>)
    requires ProperRun(acts)
    ensures Sound(Run(EMPTY, acts))
  {
    if acts != [] {
      var n := |acts| - 1;
      forall i | 0 <= i < n ensures Proper(Run(EMPTY, acts[..n][..i]), acts[..n][i]) {
        assert acts[..n][..i] == acts[..i];
        assert Proper(Run(EMPTY, acts[..i]), acts[i]);
      }
      RunsAreSound(acts[..n]);
      assert Proper(Run(EMPTY, acts[..n]), acts[n]);
      match acts[n]
      case Arrive(f) => ArriveKeepsSound(Run(EMPTY, acts[..n]), f);
      case Build(f, average) => BuildKeepsSound(Run(EMPTY, acts[..n]), f, average);
    }
  }

  // ---------- each closing fill in one row ----------

  ghost predicate InRow(b: Book, f: Fill, t: int) { t in b.made && f in b.made[t].closes }

  /** The fill is in exactly one stored row. */
  ghost predicate InOneRow(b: Book, f: Fill) { exists t :: InRow(b, f, t) && forall u :: InRow(b, f, u) ==> u == t }

  ghost predicate CountedOnce(b: Book) { forall f :: f in b.fills && f.isClose ==> InOneRow(b, f) }

  /** When a group's last fill was executed; 0 when it has none. */
  function ExitOf(b: Book, g: Group): int {
    var closes := Closes(b.fills, g);
    if closes == [] then 0 else Latest(closes)
  }

  /** No two close orders end at the same instant. */
  ghost predicate ExitsApart(b: Book) {
    forall f, g :: f in b.fills && g in b.fills && f.isClose && g.isClose && GroupOf(f) != GroupOf(g)
      ==> ExitOf(b, GroupOf(f)) != ExitOf(b, GroupOf(g))
  }

  /** Every stored row ends where its own close order ends: none built early has been left standing. */
  ghost predicate RowsFinal(b: Book) { forall t :: t in b.made ==> t == ExitOf(b, b.made[t].group) }

  lemma RowMembers(b: Book, t: int)
    requires Sound(b) && t in b.made
    ensures Closes(b.fills, b.made[t].group) != []
    ensures forall f :: f in b.made[t].closes ==> f in b.fills && f.isClose && GroupOf(f) == b.made[t].group
  {
    var m := b.made[t];
    assert SoundRow(b, t);
    KeepElements(b.fills, InGroup(m.group));
    forall f | f in m.closes ensures f in Closes(b.fills, m.group) {
      var i :| 0 <= i < |m.closes| && m.closes[i] == f;
      assert Closes(b.fills, m.group)[i] == f;
    }
  }

  lemma {:induction false} KeepDistinct(fills: seq<Fill>, p: Fill -> bool)
    requires DistinctIds(fills)
    ensures DistinctIds(Keep(fills, p))
  {
    if fills != [] {
      KeepDistinct(fills[1..], p);
      KeepElements(fills[1..], p);
      var rest := Keep(fills[1..], p);
      forall i | 0 <= i < |rest| ensures rest[i].id != fills[0].id {
        assert rest[i] in rest;
        var j :| 0 <= j < |fills| - 1 && fills[1..][j] == rest[i];
        assert fills[j + 1] == rest[i];
      }
    }
  }

  /** A part from the front that holds the last element is the whole. */
  lemma WholeFromLast(part: seq<Fill>, whole: seq<Fill>)
    requires DistinctIds(whole) && part <= whole && whole != [] && whole[|whole| - 1] in part
    ensures part == whole
  {
    var i :| 0 <= i < |part| && part[i] == whole[|whole| - 1];
    assert whole[i] == whole[|whole| - 1];
  }

  /** If a group's last fill is in some row, the group's exit time has its own row, holding all of it. */
  lemma OwnsExit(b: Book, f: Fill)
    requires Sound(b) && f in b.fills && f.isClose && CountedOnce(b)
    ensures var g := GroupOf(f);
      ExitOf(b, g) in b.made && b.made[ExitOf(b, g)].group == g && b.made[ExitOf(b, g)].closes == Closes(b.fills, g)
  {
    var g := GroupOf(f);
    var closes := Closes(b.fills, g);
    KeepElements(b.fills, InGroup(g));
    KeepDistinct(b.fills, InGroup(g));
    assert f in closes;
    var last := closes[|closes| - 1];
    assert last in closes && InOneRow(b, last);
    var t :| InRow(b, last, t);
    RowMembers(b, t);
    assert SoundRow(b, t);
    WholeFromLast(b.made[t].closes, closes);
  }

  lemma CountedOnceApart(b: Book)
    requires Sound(b) && CountedOnce(b)
    ensures ExitsApart(b)
  {
    forall f, g | f in b.fills && g in b.fills && f.isClose && g.isClose && GroupOf(f) != GroupOf(g)
      ensures ExitOf(b, GroupOf(f)) != ExitOf(b, GroupOf(g))
    {
      OwnsExit(b, f);
      OwnsExit(b, g);
    }
  }

  lemma CountedOnceFinal(b: Book)
    requires Sound(b) && CountedOnce(b)
    ensures RowsFinal(b)
  {
    forall t | t in b.made ensures t == ExitOf(b, b.made[t].group) {
      assert SoundRow(b, t);
      RowMembers(b, t);
      var f := b.made[t].closes[0];
      assert f in b.made[t].closes;
      OwnsExit(b, f);
      KeepElements(b.fills, InGroup(GroupOf(f)));
      assert InRow(b, f, t) && InRow(b, f, ExitOf(b, GroupOf(f))) && InOneRow(b, f);
    }
  }

  /** With exits apart and rows final, a settled group's row is at its exit time and holds all of it. */
  lemma FinalRow(b: Book, f: Fill)
    requires Sound(b) && b.due == {} && ExitsApart(b) && RowsFinal(b) && f in b.fills && f.isClose
    ensures var g := GroupOf(f);
      ExitOf(b, g) in b.made && b.made[ExitOf(b, g)].group == g && b.made[ExitOf(b, g)].closes == Closes(b.fills, g)
  {
    var g := GroupOf(f);
    KeepElements(b.fills, InGroup(g));
    assert f in Closes(b.fills, g);
    assert Served(b, g);
    var e := ExitOf(b, g);
    RowMembers(b, e);
    assert SoundRow(b, e);
    var h := b.made[e].closes[0];
    assert h in b.made[e].closes && e == ExitOf(b, GroupOf(h));
  }

  lemma FinalIsOnce(b: Book, f: Fill)
    requires Sound(b) && b.due == {} && ExitsApart(b) && RowsFinal(b) && f in b.fills && f.isClose
    ensures InOneRow(b, f)
  {
    FinalRow(b, f);
    var e := ExitOf(b, GroupOf(f));
    KeepElements(b.fills, InGroup(GroupOf(f)));
    assert InRow(b, f, e);
    forall u | InRow(b, f, u) ensures u == e { RowMembers(b, u); }
  }

  lemma SoundCountedOnceExactlyWhen(b: Book)
    requires Sound(b) && b.due == {}
    ensures CountedOnce(b) <==> ExitsApart(b) && RowsFinal(b)
  {
    if CountedOnce(b) {
      CountedOnceApart(b);
      CountedOnceFinal(b);
    }
    if ExitsApart(b) && RowsFinal(b) {
      forall f | f in b.fills && f.isClose ensures InOneRow(b, f) { FinalIsOnce(b, f); }
    }
  }

  /** Over every run whose deferred builds have all been made: each closing fill is in exactly one stored row if and
      only if no two close orders end at the same instant and no row built before its order's end is left standing. */
  lemma CountedOnceExactlyWhen(acts: seq<Act>)
    requires ProperRun(acts) && Run(EMPTY, acts).due == {}
    ensures CountedOnce(Run(EMPTY, acts)) <==> ExitsApart(Run(EMPTY, acts)) && RowsFinal(Run(EMPTY, acts))
  {
    RunsAreSound(acts);
    SoundCountedOnceExactlyWhen(Run(EMPTY, acts));
  }

  // ---------- what the rows add up to ----------

  function FeesIn(rows: map<int, CloseRow>): map<int, real> { map t | t in rows :: rows[t].fees }
  function NetIn(rows: map<int, CloseRow>): map<int, real> { map t | t in rows :: rows[t].net }
  function Closed(made: map<int, Made>, f: Fill -> real): map<int, real> {
    map t | t in made :: Total(made[t].closes, f)
  }

  function Shares(made: map<int, Made>): map<int, real> { map t | t in made :: ShareOf(made[t].opens, made[t].closes) }

  ghost function StoredFees(b: Book): real { SumOf(FeesIn(b.rows)) }
  ghost function StoredNet(b: Book): real { SumOf(NetIn(b.rows)) }

  /** The entry fees the stored rows charge. */
  ghost function EntryCharged(b: Book): real { SumOf(Shares(b.made)) }

  /** Whatever the run, the stored rows charge the closing fees they were made of and their shares of the entry fees;
      their net PnL is the realized PnL they were made of less exactly those. */
  lemma RowsTotal(b: Book)
    requires Sound(b)
    ensures StoredFees(b) == SumOf(Closed(b.made, Fee)) + EntryCharged(b)
    ensures StoredNet(b) == SumOf(Closed(b.made, Pnl)) - StoredFees(b)
  {
    forall t | t in b.made
      ensures FeesIn(b.rows)[t] == Closed(b.made, Fee)[t] + Shares(b.made)[t]
      ensures Closed(b.made, Pnl)[t] == NetIn(b.rows)[t] + FeesIn(b.rows)[t]
    {
      assert SoundRow(b, t);
    }
    SumOfPlus(Closed(b.made, Fee), Shares(b.made), FeesIn(b.rows));
    SumOfPlus(NetIn(b.rows), FeesIn(b.rows), Closed(b.made, Pnl));
  }

  function Outside(g: Group): Fill -> bool { (f: Fill) => f.isClose && GroupOf(f) != g }

  /** The rows are made of these closing fills, each group in one of them. */
  ghost predicate Partitions(made: map<int, Made>, fills: seq<Fill>) {
    && (forall t :: t in made ==> made[t].closes == Closes(fills, made[t].group))
    && (forall t, u :: t in made && u in made && made[t].group == made[u].group ==> t == u)
    && (forall f :: f in fills ==> f.isClose && exists t :: t in made && made[t].group == GroupOf(f))
  }

  lemma PartitionShrinks(made: map<int, Made>, fills: seq<Fill>, t: int)
    requires Partitions(made, fills) && t in made
    ensures Partitions(made - {t}, Keep(fills, Outside(made[t].group)))
  {
    var g, rest := made[t].group, Keep(fills, Outside(made[t].group));
    KeepElements(fills, Outside(g));
    forall u | u in made - {t} ensures made[u].closes == Closes(rest, made[u].group) {
      KeepKeep(fills, Outside(g), InGroup(made[u].group));
    }
    forall f | f in rest ensures exists u :: u in made - {t} && made[u].group == GroupOf(f) {
      var u :| u in made && made[u].group == GroupOf(f);
      assert u in made - {t};
    }
  }

  lemma GroupTotal(fills: seq<Fill>, g: Group, f: Fill -> real)
    requires forall x :: x in fills ==> x.isClose
    ensures Total(fills, f) == Total(Closes(fills, g), f) + Total(Keep(fills, Outside(g)), f)
  {
    TotalSplits(fills, InGroup(g), Outside(g), Closing(), f);
    forall i | 0 <= i < |fills| ensures Closing()(fills[i]) { assert fills[i] in fills; }
    KeepAll(fills, Closing());
  }

  lemma ClosedWithout(made: map<int, Made>, t: int, f: Fill -> real)
    requires t in made
    ensures SumOf(Closed(made, f)) == Total(made[t].closes, f) + SumOf(Closed(made - {t}, f))
  {
    SumOfRemove(Closed(made, f), t);
    assert Closed(made, f) - {t} == Closed(made - {t}, f);
  }

  lemma NoneMade(made: map<int, Made>, fills: seq<Fill>)
    requires Partitions(made, fills) && forall t :: t !in made
    ensures fills == []
  {
    if fills != [] { SomeMember(fills); }
  }

  lemma SomeMember(fills: seq<Fill>)
    requires fills != []
    ensures exists f :: f in fills
  {
    assert fills[0] in fills;
  }

  lemma {:induction false} PartitionTotal(made: map<int, Made>, fills: seq<Fill>, f: Fill -> real)
    requires Partitions(made, fills)
    ensures SumOf(Closed(made, f)) == Total(fills, f)
    decreases |made|
  {
    if exists t :: t in made {
      var t :| t in made;
      PartitionShrinks(made, fills, t);
      PartitionTotal(made - {t}, Keep(fills, Outside(made[t].group)), f);
      GroupTotal(fills, made[t].group, f);
      ClosedWithout(made, t, f);
    } else {
      NoneMade(made, fills);
      TotalNext(fills, f);
      assert Closed(made, f) == map[];
    }
  }

  lemma FinalPartitions(b: Book)
    requires Sound(b) && b.due == {} && ExitsApart(b) && RowsFinal(b)
    ensures Partitions(b.made, Keep(b.fills, Closing()))
  {
    var closing := Keep(b.fills, Closing());
    KeepElements(b.fills, Closing());
    forall t | t in b.made ensures b.made[t].closes == Closes(closing, b.made[t].group) {
      assert SoundRow(b, t);
      RowMembers(b, t);
      var f := b.made[t].closes[0];
      assert f in b.made[t].closes;
      FinalRow(b, f);
      KeepKeep(b.fills, Closing(), InGroup(b.made[t].group));
    }
    forall f | f in closing ensures exists t :: t in b.made && b.made[t].group == GroupOf(f) {
      FinalRow(b, f);
    }
  }

  /** Then the stored rows hold all closing fees, all realized PnL and all closed quantity, each once. */
  lemma ClosingConserved(b: Book)
    requires Sound(b) && b.due == {} && ExitsApart(b) && RowsFinal(b)
    ensures var closing := Keep(b.fills, Closing());
      && StoredFees(b) == Total(closing, Fee) + EntryCharged(b)
      && StoredNet(b) == Total(closing, Pnl) - StoredFees(b)
      && SumOf(Closed(b.made, Quantity)) == Total(closing, Quantity)
  {
    RowsTotal(b);
    FinalPartitions(b);
    PartitionTotal(b.made, Keep(b.fills, Closing()), Fee);
    PartitionTotal(b.made, Keep(b.fills, Closing()), Pnl);
    PartitionTotal(b.made, Keep(b.fills, Closing()), Quantity);
  }

  // ---------- entry fees ----------

  /** Entry fees per unit opened. */
  function Rate(opens: seq<Fill>): real {
    var open := Total(opens, Quantity);
    if open == 0.0 then 0.0 else Total(opens, Fee) / open
  }

  function CappedOf(m: Made): real { Capped(Total(m.opens, Quantity), Total(m.closes, Quantity)) }

  /** What the rows close of what was opened when each was built. */
  function CappedIn(made: map<int, Made>): map<int, real> { map t | t in made :: CappedOf(made[t]) }

  /** How far each row's share is above what it closes at the rate of `opens`. */
  function Drifts(made: map<int, Made>, opens: seq<Fill>): map<int, real> {
    map t | t in made :: Drift(made[t], opens)
  }

  function Drift(m: Made, opens: seq<Fill>): real { Priced(CappedOf(m), Rate(m.opens) - Rate(opens)) }

  function Priced(quantity: real, rate: real): real { quantity * rate }

  function AtRate(made: map<int, Made>, rate: real): map<int, real> {
    map t | t in made :: Priced(CappedOf(made[t]), rate)
  }

  lemma ShareIsRate(opens: seq<Fill>, closes: seq<Fill>)
    ensures ShareOf(opens, closes) == Priced(Capped(Total(opens, Quantity), Total(closes, Quantity)), Rate(opens))
  {
    var open, fees := Total(opens, Quantity), Total(opens, Fee);
    if open != 0.0 { ShareRate(fees, Capped(open, Total(closes, Quantity)), open); }
  }

  lemma ShareRate(fees: real, part: real, open: real)
    requires open != 0.0
    ensures Share(fees, part, open) == Priced(part, fees / open)
  {
    var x, y := part / open, fees / open;
    DivideBack(part, open);
    DivideBack(fees, open);
    Shuffle(x, y, open);
  }

  lemma Shuffle(x: real, y: real, z: real)
    ensures y * z * x == x * z * y
  {
  }

  predicate Scaled(x: real, y: real, rate: real) { y == Priced(x, rate) }

  function AtPrice(rate: real): real -> real { (x: real) => Priced(x, rate) }

  lemma PriceIsAdditive(rate: real)
    ensures Additive(AtPrice(rate))
  {
    forall a, b ensures AtPrice(rate)(Plus(a, b)) == AtPrice(rate)(a) + AtPrice(rate)(b) { PricedPlus(a, b, rate); }
  }

  lemma PricedPlus(a: real, b: real, rate: real)
    ensures Priced(a + b, rate) == Priced(a, rate) + Priced(b, rate)
  {
  }

  lemma ScaleSum<K>(m: map<K, real>, n: map<K, real>, rate: real)
    requires m.Keys == n.Keys && forall k :: k in m ==> Scaled(m[k], n[k], rate)
    ensures Scaled(SumOf(m), SumOf(n), rate)
  {
    PriceIsAdditive(rate);
    SumOfAdditive(m, n, AtPrice(rate));
  }

  /** The rows charge what they close at the current rate, and their drifts from it. */
  lemma ChargedIsRateAndDrift(b: Book, opens: seq<Fill>)
    ensures EntryCharged(b) == Priced(SumOf(CappedIn(b.made)), Rate(opens)) + SumOf(Drifts(b.made, opens))
  {
    var rate := Rate(opens);
    ScaleSum(CappedIn(b.made), AtRate(b.made, rate), rate);
    forall t | t in b.made ensures Shares(b.made)[t] == AtRate(b.made, rate)[t] + Drifts(b.made, opens)[t] {
      ShareDrifts(b.made[t], opens);
    }
    SumOfPlus(AtRate(b.made, rate), Drifts(b.made, opens), Shares(b.made));
  }

  lemma ShareDrifts(m: Made, opens: seq<Fill>)
    ensures ShareOf(m.opens, m.closes) == Priced(CappedOf(m), Rate(opens)) + Drift(m, opens)
  {
    ShareIsRate(m.opens, m.closes);
    DriftSplits(CappedOf(m), Rate(m.opens), Rate(opens));
  }

  lemma DriftSplits(part: real, built: real, now: real)
    ensures Priced(part, built) == Priced(part, now) + Priced(part, built - now)
  {
  }

  lemma RateOfWhole(opens: seq<Fill>)
    requires Total(opens, Quantity) != 0.0
    ensures Priced(Total(opens, Quantity), Rate(opens)) == Total(opens, Fee)
  {
    DivideBack(Total(opens, Fee), Total(opens, Quantity));
  }

  /** The rows close exactly what was opened, each capped at what was open when it was built. */
  ghost predicate ClosesAll(b: Book) { SumOf(CappedIn(b.made)) == Total(Opens(b.fills), Quantity) != 0.0 }

  /** The fees of a position are conserved, when its rows close exactly what was opened, if and only if the changes of
      the entry-fee rate since each row was built, weighted with what the row closed, cancel out. */
  lemma FeesConservedExactlyWhen(b: Book)
    requires Sound(b) && b.due == {} && ExitsApart(b) && RowsFinal(b)
    requires ClosesAll(b)
    ensures StoredFees(b) == Total(Keep(b.fills, Closing()), Fee) + Total(Opens(b.fills), Fee)
       <==> SumOf(Drifts(b.made, Opens(b.fills))) == 0.0
  {
    ClosingConserved(b);
    ChargedIsRateAndDrift(b, Opens(b.fills));
    RateOfWhole(Opens(b.fills));
  }

  /** Every surviving row was built at the current entry-fee rate. */
  ghost predicate SteadyRate(b: Book) { forall t :: t in b.made ==> Rate(b.made[t].opens) == Rate(Opens(b.fills)) }

  lemma SteadyHasNoDrift(b: Book)
    requires SteadyRate(b)
    ensures SumOf(Drifts(b.made, Opens(b.fills))) == 0.0
  {
    var drifts := Drifts(b.made, Opens(b.fills));
    forall t | t in b.made ensures Scaled(CappedIn(b.made)[t], drifts[t], 0.0) {
      NoDrift(CappedOf(b.made[t]), Rate(b.made[t].opens), Rate(Opens(b.fills)));
    }
    ScaleSum(CappedIn(b.made), drifts, 0.0);
    NoDrift(SumOf(CappedIn(b.made)), 0.0, 0.0);
  }

  lemma NoDrift(part: real, built: real, now: real)
    requires built == now
    ensures Priced(part, built - now) == Priced(part, 0.0) == 0.0
  {
  }

  /** The whole position: with no two orders ending at once, no early row standing and the rate steady, rows that close
      exactly what was opened charge all closing and all entry fees, each once, and net what was realized less them. */
  lemma PartitionConserves(b: Book)
    requires Sound(b) && b.due == {} && ExitsApart(b) && RowsFinal(b) && SteadyRate(b)
    requires ClosesAll(b)
    ensures var closing, opens := Keep(b.fills, Closing()), Opens(b.fills);
      && StoredFees(b) == Total(closing, Fee) + Total(opens, Fee)
      && StoredNet(b) == Total(closing, Pnl) - Total(closing, Fee) - Total(opens, Fee)
  {
    SteadyHasNoDrift(b);
    FeesConservedExactlyWhen(b);
    ClosingConserved(b);
  }

  /** What the rows close is the whole closed quantity when no row closes more than was open when it was built. */
  lemma CappedIsClosed(b: Book)
    requires Sound(b) && b.due == {} && ExitsApart(b) && RowsFinal(b)
    requires forall t :: t in b.made ==> Total(b.made[t].closes, Quantity) <= Total(b.made[t].opens, Quantity)
    ensures SumOf(CappedIn(b.made)) == Total(Keep(b.fills, Closing()), Quantity)
  {
    ClosingConserved(b);
    SameQuantities(b.made);
  }

  lemma SameQuantities(made: map<int, Made>)
    requires forall t :: t in made ==> Total(made[t].closes, Quantity) <= Total(made[t].opens, Quantity)
    ensures CappedIn(made) == Closed(made, Quantity)
  {
    forall t | t in made ensures CappedIn(made)[t] == Closed(made, Quantity)[t] {
      NotCapped(Total(made[t].opens, Quantity), Total(made[t].closes, Quantity));
    }
  }

  lemma NotCapped(open: real, closed: real)
    requires closed <= open
    ensures Capped(open, closed) == closed
  {
  }

  /** At a steady rate the stored rows together charge at most the entry fees if and only if what they close, each
      capped by itself, stays within what was opened. */
  lemma RowsShareBoundedExactlyWhen(b: Book)
    requires SteadyRate(b) && Total(Opens(b.fills), Quantity) > 0.0 && Total(Opens(b.fills), Fee) > 0.0
    ensures EntryCharged(b) <= Total(Opens(b.fills), Fee)
      <==> SumOf(CappedIn(b.made)) <= Total(Opens(b.fills), Quantity)
  {
    var opens := Opens(b.fills);
    SteadyHasNoDrift(b);
    ChargedIsRateAndDrift(b, opens);
    ShareRate(Total(opens, Fee), SumOf(CappedIn(b.made)), Total(opens, Quantity));
    ShareWithin(Total(opens, Fee), SumOf(CappedIn(b.made)), Total(opens, Quantity));
  }

  // ---------- runs in which fills arrive in time ----------

  /** A fill arrives that is not stored yet. */
  ghost predicate New(acts: seq<Act>, j: nat)
    requires j < |acts|
  {
    acts[j].Arrive? && !Knows(Run(EMPTY, acts[..j]).fills, acts[j].fill.id)
  }

  /** No opening fill arrives after a row has been built. */
  ghost predicate NoLateOpens(acts: seq<Act>) {
    forall i, j :: 0 <= i < j < |acts| && acts[i].Build? && New(acts, j) ==> acts[j].fill.isClose
  }

  /** No closing fill arrives after its group's row has been built. */
  ghost predicate NoLateCloses(acts: seq<Act>) {
    forall i, j :: 0 <= i < j < |acts| && acts[i].Build? && New(acts, j) && acts[j].fill.isClose
      ==> GroupOf(acts[i].fill) != GroupOf(acts[j].fill)
  }

  ghost predicate BuiltFor(acts: seq<Act>, i: int, g: Group) {
    0 <= i < |acts| && acts[i].Build? && GroupOf(acts[i].fill) == g
  }

  lemma {:induction false} MadeWasBuilt(acts: seq<Act>, t: int)
    requires t in Run(EMPTY, acts).made
    ensures exists i :: BuiltFor(acts, i, Run(EMPTY, acts).made[t].group)
  {
    var n := |acts| - 1;
    if t in Run(EMPTY, acts[..n]).made && Run(EMPTY, acts).made[t] == Run(EMPTY, acts[..n]).made[t] {
      MadeWasBuilt(acts[..n], t);
      var i :| BuiltFor(acts[..n], i, Run(EMPTY, acts[..n]).made[t].group);
      assert BuiltFor(acts, i, Run(EMPTY, acts).made[t].group);
    } else {
      assert BuiltFor(acts, n, Run(EMPTY, acts).made[t].group);
    }
  }

  /** Each row was made of all opening fills stored now. */
  ghost predicate OpensWhole(b: Book) { forall t :: t in b.made ==> b.made[t].opens == Opens(b.fills) }

  /** Each row was made of all closing fills of its group stored now. */
  ghost predicate ClosesWhole(b: Book) {
    forall t :: t in b.made ==> b.made[t].closes == Closes(b.fills, b.made[t].group)
  }

  lemma WithoutLast(acts: seq<Act>)
    requires acts != [] && ProperRun(acts)
    ensures var init := acts[..|acts| - 1];
      && ProperRun(init) && Proper(Run(EMPTY, init), acts[|acts| - 1])
      && (NoLateOpens(acts) ==> NoLateOpens(init)) && (NoLateCloses(acts) ==> NoLateCloses(init))
  {
    var n := |acts| - 1;
    var init := acts[..n];
    forall i | 0 <= i < n
      ensures Proper(Run(EMPTY, init[..i]), init[i]) && (New(init, i) <==> New(acts, i))
    {
      assert init[..i] == acts[..i];
      assert Proper(Run(EMPTY, acts[..i]), acts[i]);
    }
    assert Proper(Run(EMPTY, acts[..n]), acts[n]);
  }

  lemma NewAfterRowCloses(acts: seq<Act>, t: int)
    requires acts != [] && NoLateOpens(acts) && New(acts, |acts| - 1) && t in Run(EMPTY, acts[..|acts| - 1]).made
    ensures acts[|acts| - 1].fill.isClose
  {
    var n := |acts| - 1;
    MadeWasBuilt(acts[..n], t);
    var i :| BuiltFor(acts[..n], i, Run(EMPTY, acts[..n]).made[t].group);
    assert acts[i].Build? && acts[i] == acts[..n][i];
  }

  lemma NewAfterRowIsApart(acts: seq<Act>, t: int)
    requires acts != [] && NoLateCloses(acts) && New(acts, |acts| - 1) && t in Run(EMPTY, acts[..|acts| - 1]).made
    requires acts[|acts| - 1].fill.isClose
    ensures Run(EMPTY, acts[..|acts| - 1]).made[t].group != GroupOf(acts[|acts| - 1].fill)
  {
    var n := |acts| - 1;
    MadeWasBuilt(acts[..n], t);
    var i :| BuiltFor(acts[..n], i, Run(EMPTY, acts[..n]).made[t].group);
    assert acts[i].Build? && acts[i] == acts[..n][i];
  }

  /** A fill that arrives again changes nothing stored; a new one is appended. */
  lemma ArrivedFills(b: Book, f: Fill)
    requires Sound(b) && Proper(b, Arrive(f))
    ensures Step(b, Arrive(f)).fills == if Knows(b.fills, f.id) then b.fills else b.fills + [f]
    ensures Step(b, Arrive(f)).made == b.made
  {
    if Knows(b.fills, f.id) { ReplaceSame(b.fills, f); }
  }

  /** When no opening fill comes late, every stored row was made of all of them. */
  lemma {:induction false} RowsSeeAllOpens(acts: seq<Act>)
    requires ProperRun(acts) && NoLateOpens(acts)
    ensures OpensWhole(Run(EMPTY, acts))
  {
    if acts != [] {
      var n := |acts| - 1;
      WithoutLast(acts);
      RowsSeeAllOpens(acts[..n]);
      RunsAreSound(acts[..n]);
      if acts[n].Arrive? {
        ArrivedKeepsOpens(acts);
      } else {
        BuildKeepsOpens(Run(EMPTY, acts[..n]), acts[n].fill, acts[n].average);
      }
    }
  }

  lemma BuildKeepsOpens(b: Book, f: Fill, average: real)
    requires OpensWhole(b)
    ensures OpensWhole(Step(b, Build(f, average)))
  {
  }

  lemma ArrivedKeepsOpens(acts: seq<Act>)
    requires acts != [] && acts[|acts| - 1].Arrive? && NoLateOpens(acts)
    requires var before := Run(EMPTY, acts[..|acts| - 1]);
      Sound(before) && OpensWhole(before) && Proper(before, acts[|acts| - 1])
    ensures OpensWhole(Run(EMPTY, acts))
  {
    var n := |acts| - 1;
    var before := Run(EMPTY, acts[..n]);
    ArrivedFills(before, acts[n].fill);
    KeepGrows(before.fills, acts[n].fill, Opening());
    forall t | t in before.made ensures before.made[t].opens == Opens(Run(EMPTY, acts).fills) {
      if New(acts, n) { NewAfterRowCloses(acts, t); }
    }
  }

  /** When no closing fill comes after its group's row, every stored row holds its whole group. */
  lemma {:induction false} RowsSeeAllCloses(acts: seq<Act>)
    requires ProperRun(acts) && NoLateCloses(acts)
    ensures ClosesWhole(Run(EMPTY, acts))
  {
    if acts != [] {
      var n := |acts| - 1;
      WithoutLast(acts);
      RowsSeeAllCloses(acts[..n]);
      RunsAreSound(acts[..n]);
      if acts[n].Arrive? {
        ArrivedKeepsCloses(acts);
      } else {
        BuildKeepsCloses(Run(EMPTY, acts[..n]), acts[n].fill, acts[n].average);
      }
    }
  }

  lemma ArrivedKeepsCloses(acts: seq<Act>)
    requires acts != [] && acts[|acts| - 1].Arrive? && NoLateCloses(acts)
    requires var before := Run(EMPTY, acts[..|acts| - 1]);
      Sound(before) && ClosesWhole(before) && Proper(before, acts[|acts| - 1])
    ensures ClosesWhole(Run(EMPTY, acts))
  {
    var n := |acts| - 1;
    var before, f := Run(EMPTY, acts[..n]), acts[n].fill;
    ArrivedFills(before, f);
    forall t | t in before.made
      ensures before.made[t].closes == Closes(Run(EMPTY, acts).fills, before.made[t].group)
    {
      KeepGrows(before.fills, f, InGroup(before.made[t].group));
      if New(acts, n) && f.isClose { NewAfterRowIsApart(acts, t); }
    }
  }

  lemma BuildKeepsCloses(b: Book, f: Fill, average: real)
    requires Sound(b) && Proper(b, Build(f, average)) && ClosesWhole(b)
    ensures ClosesWhole(Step(b, Build(f, average)))
  {
    ClosesForIsGroup(b.fills, f);
  }

  /** So late fills are the only reason for an early row that stands, and late opening fills for an unsteady rate. */
  lemma InTimeIsFinal(acts: seq<Act>)
    requires ProperRun(acts)
    ensures NoLateCloses(acts) ==> RowsFinal(Run(EMPTY, acts))
    ensures NoLateOpens(acts) ==> SteadyRate(Run(EMPTY, acts))
  {
    var b := Run(EMPTY, acts);
    RunsAreSound(acts);
    if NoLateOpens(acts) { RowsSeeAllOpens(acts); }
    if NoLateCloses(acts) {
      RowsSeeAllCloses(acts);
      forall t | t in b.made ensures t == ExitOf(b, b.made[t].group) { assert SoundRow(b, t); }
    }
  }

  /** Closed in parts or whole, never beyond what was opened. */
  ghost predicate WithinOpened(fills: seq<Fill>) {
    && (forall f :: f in fills ==> f.quantity >= 0.0)
    && Total(Keep(fills, Closing()), Quantity) <= Total(Opens(fills), Quantity)
    && Total(Opens(fills), Quantity) > 0.0
  }

  lemma {:induction false} TotalNonNegative(fills: seq<Fill>)
    requires forall f :: f in fills ==> f.quantity >= 0.0
    ensures Total(fills, Quantity) >= 0.0
  {
    TotalNext(fills, Quantity);
    if fills != [] {
      assert fills[|fills| - 1] in fills;
      TotalNonNegative(fills[..|fills| - 1]);
    }
  }

  lemma RowWithinTotal(made: map<int, Made>, t: int)
    requires t in made && forall u :: u in made ==> Total(made[u].closes, Quantity) >= 0.0
    ensures Total(made[t].closes, Quantity) <= SumOf(Closed(made, Quantity))
  {
    var others := Closed(made - {t}, Quantity);
    ClosedWithout(made, t, Quantity);
    assert forall u :: u in others ==> others[u] == Total(made[u].closes, Quantity) >= 0.0;
    SumOfNonNegative(others);
  }

  /** No row closes more than was opened, since all of them together do not. */
  lemma NoRowOverfills(b: Book)
    requires Sound(b) && b.due == {} && ExitsApart(b) && RowsFinal(b) && OpensWhole(b) && WithinOpened(b.fills)
    ensures forall t :: t in b.made ==> Total(b.made[t].closes, Quantity) <= Total(b.made[t].opens, Quantity)
  {
    ClosingConserved(b);
    forall t | t in b.made ensures Total(b.made[t].closes, Quantity) >= 0.0 {
      RowMembers(b, t);
      TotalNonNegative(b.made[t].closes);
    }
    forall t | t in b.made ensures Total(b.made[t].closes, Quantity) <= Total(b.made[t].opens, Quantity) {
      RowWithinTotal(b.made, t);
    }
  }

  /** At a steady rate the rows charge the entry fees in proportion to what they close. */
  lemma SteadyShare(b: Book)
    requires SteadyRate(b) && Total(Opens(b.fills), Quantity) > 0.0
    ensures var opens := Opens(b.fills);
      EntryCharged(b) == Share(Total(opens, Fee), SumOf(CappedIn(b.made)), Total(opens, Quantity))
  {
    var opens := Opens(b.fills);
    SteadyHasNoDrift(b);
    ChargedIsRateAndDrift(b, opens);
    ShareRate(Total(opens, Fee), SumOf(CappedIn(b.made)), Total(opens, Quantity));
  }

  lemma ShareIsAll(entry: real, part: real, open: real)
    requires open != 0.0
    ensures Share(entry, part, open) == entry <==> entry == 0.0 || part == open
  {
    var x := part / open;
    DivideBack(part, open);
    if x == 1.0 {
      assert part == open;
    } else {
      if part == open { DivideIs(part, open, 1.0); }
      NotTheWhole(entry, x);
    }
  }

  lemma NotTheWhole(a: real, x: real)
    requires x != 1.0
    ensures a * x == a <==> a == 0.0
  {
    if a * x == a { assert a * (x - 1.0) == 0.0; }
  }

  /** Over every run whose deferred builds have all been made, in which no close orders end at one instant, no opening
      fill arrives after a build and no closing fill after its group's build, and which does not close more than it
      opened: the stored rows charge all closing fees and the closed part of the entry fees, and net what was realized
      less that. So they hold every fee once if and only if all that was opened is closed, or opening was free. */
  lemma RunConserves(acts: seq<Act>)
    requires ProperRun(acts) && NoLateOpens(acts) && NoLateCloses(acts)
    requires var b := Run(EMPTY, acts); b.due == {} && ExitsApart(b) && WithinOpened(b.fills)
    ensures var b := Run(EMPTY, acts);
      var closing, opens := Keep(b.fills, Closing()), Opens(b.fills);
      var closed, open := Total(closing, Quantity), Total(opens, Quantity);
      && StoredFees(b) == Total(closing, Fee) + Share(Total(opens, Fee), closed, open)
      && StoredNet(b) == Total(closing, Pnl) - StoredFees(b)
      && (StoredFees(b) == Total(closing, Fee) + Total(opens, Fee) <==> Total(opens, Fee) == 0.0 || closed == open)
  {
    var b := Run(EMPTY, acts);
    RunsAreSound(acts);
    RowsSeeAllOpens(acts);
    InTimeIsFinal(acts);
    ClosingConserved(b);
    NoRowOverfills(b);
    CappedIsClosed(b);
    SteadyShare(b);
    ShareIsAll(Total(Opens(b.fills), Fee), Total(Keep(b.fills, Closing()), Quantity), Total(Opens(b.fills), Quantity));
  }

  // ---------- scaling in between closes ----------

  /** Every surviving row was built at one of two rates: an earlier one, or the current one. */
  ghost predicate OneScaleIn(b: Book, early: set<int>, rate: real) {
    && early <= b.made.Keys
    && forall t :: t in b.made ==> Rate(b.made[t].opens) == if t in early then rate else Rate(Opens(b.fills))
  }

  function EarlyIn(made: map<int, Made>, early: set<int>): map<int, real> {
    map t | t in made :: if t in early then CappedOf(made[t]) else 0.0
  }

  /** A position scaled into once between its closes: its fees are conserved if and only if nothing was closed before,
      or the fills added came at the rate of those before. */
  lemma ScaleInConservesExactlyWhen(b: Book, early: set<int>, rate: real)
    requires Sound(b) && b.due == {} && ExitsApart(b) && RowsFinal(b) && OneScaleIn(b, early, rate)
    requires ClosesAll(b)
    ensures StoredFees(b) == Total(Keep(b.fills, Closing()), Fee) + Total(Opens(b.fills), Fee)
       <==> SumOf(EarlyIn(b.made, early)) == 0.0 || rate == Rate(Opens(b.fills))
  {
    FeesConservedExactlyWhen(b);
    DriftsCancelExactlyWhen(b, early, rate);
  }

  lemma DriftsCancelExactlyWhen(b: Book, early: set<int>, rate: real)
    requires OneScaleIn(b, early, rate)
    ensures SumOf(Drifts(b.made, Opens(b.fills))) == 0.0
       <==> SumOf(EarlyIn(b.made, early)) == 0.0 || rate == Rate(Opens(b.fills))
  {
    var opens := Opens(b.fills);
    EarlyDrifts(b, early, rate, opens, rate - Rate(opens));
    ScaledZero(SumOf(EarlyIn(b.made, early)), SumOf(Drifts(b.made, opens)), rate - Rate(opens));
  }

  lemma EarlyDrifts(b: Book, early: set<int>, rate: real, opens: seq<Fill>, change: real)
    requires OneScaleIn(b, early, rate) && opens == Opens(b.fills) && change == rate - Rate(opens)
    ensures Scaled(SumOf(EarlyIn(b.made, early)), SumOf(Drifts(b.made, opens)), change)
  {
    forall t | t in b.made ensures Scaled(EarlyIn(b.made, early)[t], Drifts(b.made, opens)[t], change) {
      EarlyDrift(CappedOf(b.made[t]), Rate(b.made[t].opens), rate, Rate(opens), t in early);
    }
    ScaleSum(EarlyIn(b.made, early), Drifts(b.made, opens), change);
  }

  lemma EarlyDrift(part: real, built: real, rate: real, now: real, early: bool)
    requires built == if early then rate else now
    ensures Priced(part, built - now) == Priced(if early then part else 0.0, rate - now)
  {
  }

  lemma ScaledZero(x: real, y: real, change: real)
    requires Scaled(x, y, change)
    ensures y == 0.0 <==> x == 0.0 || change == 0.0
  {
  }

  // ---------- two runs that do not conserve ----------

  /** Two close orders that end at one instant: the second build leaves the table as if the first had never been. */
  lemma SameInstantLosesRow(b: Book, f: Fill, g: Fill, x: real, y: real)
    requires ClosesFor(b.fills, f) != [] && ClosesFor(b.fills, g) != [] && GroupOf(f) != GroupOf(g)
    requires Latest(ClosesFor(b.fills, f)) == Latest(ClosesFor(b.fills, g))
    ensures Step(Step(b, Build(f, x)), Build(g, y)).rows == Step(b, Build(g, y)).rows
    ensures Latest(ClosesFor(b.fills, f)) in Step(Step(b, Build(f, x)), Build(g, y)).made
    ensures Step(Step(b, Build(f, x)), Build(g, y)).made[Latest(ClosesFor(b.fills, f))].group == GroupOf(g)
  {
  }

  ghost predicate RunsTo(acts: seq<Act>, b: Book) { ProperRun(acts) && Run(EMPTY, acts) == b }

  lemma RunNext(acts: seq<Act>, b: Book, a: Act)
    requires RunsTo(acts, b) && Proper(b, a)
    ensures RunsTo(acts + [a], Step(b, a))
  {
    var more := acts + [a];
    assert more[..|acts|] == acts;
    forall i | 0 <= i < |more| ensures Proper(Run(EMPTY, more[..i]), more[i]) {
      if i < |acts| {
        assert more[..i] == acts[..i];
        assert Proper(Run(EMPTY, acts[..i]), acts[i]);
      }
    }
  }

  /** One fill opens, one closes, and its row is built. */
  function Leg(open: Fill, close: Fill): seq<Act> { [Arrive(open)] + [Arrive(close)] + [Build(close, 0.0)] }

  /** Opened, closed in part, scaled in, closed in full. */
  function ScaledIn(o: Fill, c: Fill, p: Fill, d: Fill): seq<Act> { Leg(o, c) + Leg(p, d) }

  lemma LegFills(b: Book, open: Fill, close: Fill)
    requires !Knows(b.fills, open.id) && !Knows(b.fills, close.id) && open.id != close.id
    ensures var one := Step(b, Arrive(open));
      var two := Step(one, Arrive(close));
      && one.fills == b.fills + [open] && !Knows(one.fills, close.id) && two.fills == b.fills + [open] + [close]
      && two.rows == b.rows && two.made == b.made
  {
    var one := b.fills + [open];
    forall i | 0 <= i < |one| ensures one[i].id != close.id {
      if i < |b.fills| { assert b.fills[i].id != close.id; }
    }
  }

  lemma LegCloses(fills: seq<Fill>, open: Fill, close: Fill)
    requires !open.isClose && close.isClose && close.orderId != ""
    requires forall i :: 0 <= i < |fills| ==> fills[i].orderId != close.orderId
    ensures var more := fills + [open] + [close];
      Opens(more) == Opens(fills) + [open] && ClosesFor(more, close) == [close]
  {
    KeepGrows(fills, open, Opening());
    KeepGrows(fills + [open], close, Opening());
    KeepGrows(fills, open, InGroup(GroupOf(close)));
    KeepGrows(fills + [open], close, InGroup(GroupOf(close)));
    KeepNone(fills, InGroup(GroupOf(close)));
  }

  lemma LegRun(acts: seq<Act>, b: Book, open: Fill, close: Fill) returns (after: Book)
    requires RunsTo(acts, b) && !open.isClose && close.isClose && close.orderId != "" && open.id != close.id
    requires !Knows(b.fills, open.id) && !Knows(b.fills, close.id)
    requires forall i :: 0 <= i < |b.fills| ==> b.fills[i].orderId != close.orderId
    ensures RunsTo(acts + Leg(open, close), after)
    ensures after.fills == b.fills + [open] + [close] && after.due == b.due - {GroupOf(close)}
    ensures after.made == b.made[close.time := Made(GroupOf(close), Opens(b.fills) + [open], [close], 0.0)]
  {
    var one := Step(b, Arrive(open));
    var two := Step(one, Arrive(close));
    after := Step(two, Build(close, 0.0));
    LegSteps(b, open, close);
    LegActs(acts, b, open, close);
  }

  lemma LegActs(acts: seq<Act>, b: Book, open: Fill, close: Fill)
    requires RunsTo(acts, b) && Proper(b, Arrive(open)) && Proper(Step(b, Arrive(open)), Arrive(close))
    requires Proper(Step(Step(b, Arrive(open)), Arrive(close)), Build(close, 0.0))
    ensures RunsTo(acts + Leg(open, close), Step(Step(Step(b, Arrive(open)), Arrive(close)), Build(close, 0.0)))
  {
    var one := acts + [Arrive(open)];
    var two := one + [Arrive(close)];
    RunNext(acts, b, Arrive(open));
    RunNext(one, Step(b, Arrive(open)), Arrive(close));
    RunNext(two, Step(Step(b, Arrive(open)), Arrive(close)), Build(close, 0.0));
    assert acts + Leg(open, close) == two + [Build(close, 0.0)];
  }

  lemma LegSteps(b: Book, open: Fill, close: Fill)
    requires !open.isClose && close.isClose && close.orderId != "" && open.id != close.id
    requires !Knows(b.fills, open.id) && !Knows(b.fills, close.id)
    requires forall i :: 0 <= i < |b.fills| ==> b.fills[i].orderId != close.orderId
    ensures var one := Step(b, Arrive(open));
      var two := Step(one, Arrive(close));
      var after := Step(two, Build(close, 0.0));
      && Proper(b, Arrive(open)) && Proper(one, Arrive(close)) && Proper(two, Build(close, 0.0))
      && after.fills == b.fills + [open] + [close] && after.due == b.due - {GroupOf(close)}
      && after.made == b.made[close.time := Made(GroupOf(close), Opens(b.fills) + [open], [close], 0.0)]
  {
    LegFills(b, open, close);
    LegCloses(b.fills, open, close);
  }

  lemma ScaledInBook(o: Fill, c: Fill, p: Fill, d: Fill)
    requires DistinctIds([o, c, p, d]) && !o.isClose && c.isClose && !p.isClose && d.isClose
    requires c.orderId != "" && d.orderId != "" && c.orderId != d.orderId && o.orderId != d.orderId && c.time != d.time
    ensures ProperRun(ScaledIn(o, c, p, d))
    ensures Run(EMPTY, ScaledIn(o, c, p, d)).due == {} && Run(EMPTY, ScaledIn(o, c, p, d)).fills == [o, c, p, d]
    ensures Run(EMPTY, ScaledIn(o, c, p, d)).made
         == map[c.time := Made(GroupOf(c), [o], [c], 0.0), d.time := Made(GroupOf(d), [o, p], [d], 0.0)]
  {
    var all := [o, c, p, d];
    assert all[0].id != all[1].id && all[0].id != all[2].id && all[0].id != all[3].id;
    assert all[1].id != all[2].id && all[1].id != all[3].id && all[2].id != all[3].id;
    var first := FirstLeg(o, c);
    var b := SecondLeg(Leg(o, c), first, o, c, p, d);
  }

  lemma FirstLeg(o: Fill, c: Fill) returns (b: Book)
    requires !o.isClose && c.isClose && c.orderId != "" && o.id != c.id
    ensures RunsTo(Leg(o, c), b) && b.due == {} && b.fills == [o, c]
    ensures b.made == map[c.time := Made(GroupOf(c), [o], [c], 0.0)]
  {
    var none, fills: seq<Fill> := [], [];
    b := LegRun(none, EMPTY, o, c);
    assert none + Leg(o, c) == Leg(o, c);
    assert fills + [o] + [c] == [o, c] && Opens(fills) + [o] == [o];
  }

  lemma SecondLeg(acts: seq<Act>, first: Book, o: Fill, c: Fill, p: Fill, d: Fill) returns (b: Book)
    requires RunsTo(acts, first) && first.due == {} && first.fills == [o, c]
    requires !o.isClose && c.isClose && !p.isClose && d.isClose && d.orderId != "" && p.id != d.id
    requires p.id != o.id && p.id != c.id && d.id != o.id && d.id != c.id
    requires d.orderId != o.orderId && d.orderId != c.orderId
    ensures RunsTo(acts + Leg(p, d), b) && b.due == {} && b.fills == [o, c, p, d]
    ensures b.made == first.made[d.time := Made(GroupOf(d), [o, p], [d], 0.0)]
  {
    NotAmong(o, c, p);
    NotAmong(o, c, d);
    Two(o, c);
    Joined(o, c, p, d);
    b := LegRun(acts, first, p, d);
  }

  lemma NotAmong(o: Fill, c: Fill, f: Fill)
    requires f.id != o.id && f.id != c.id
    ensures !Knows([o, c], f.id)
  {
  }

  lemma Joined(o: Fill, c: Fill, p: Fill, d: Fill)
    ensures [o, c] + [p] + [d] == [o, c, p, d] && [o] + [p] == [o, p]
  {
  }

  lemma Two(open: Fill, close: Fill)
    requires !open.isClose && close.isClose
    ensures Opens([open, close]) == [open] && Closes([open, close], GroupOf(close)) == [close]
  {
    var none: seq<Fill> := [];
    assert none + [open] == [open] && [open] + [close] == [open, close];
    KeepGrows(none, open, Opening());
    KeepGrows([open], close, Opening());
    KeepGrows(none, open, InGroup(GroupOf(close)));
    KeepGrows([open], close, InGroup(GroupOf(close)));
  }

  lemma ScaledInTotals(o: Fill, c: Fill, p: Fill, d: Fill)
    requires DistinctIds([o, c, p, d]) && !o.isClose && c.isClose && !p.isClose && d.isClose
    requires c.orderId != "" && d.orderId != "" && c.orderId != d.orderId && o.orderId != d.orderId && c.time != d.time
    ensures var b := Run(EMPTY, ScaledIn(o, c, p, d));
      && Opens(b.fills) == [o, p] && EntryCharged(b) == ShareOf([o], [c]) + ShareOf([o, p], [d])
      && SumOf(CappedIn(b.made)) == Capped(Total([o], Quantity), Total([c], Quantity))
                                    + Capped(Total([o, p], Quantity), Total([d], Quantity))
  {
    ScaledInBook(o, c, p, d);
    Two(o, c);
    Two(p, d);
    KeepAppend([o, c], [p, d], Opening());
    assert [o, c] + [p, d] == [o, c, p, d] && [o] + [p] == [o, p];
    var made := Run(EMPTY, ScaledIn(o, c, p, d)).made;
    SumOfTwo(Shares(made), c.time, d.time);
    SumOfTwo(CappedIn(made), c.time, d.time);
  }

  /** Open 10 for a fee of 10, close 5, add 10 for nothing, close 15: the rows close exactly what was opened, each ends
      apart, and yet they charge 12.5 of entry fees. */
  lemma ScaleInOvercharges(o: Fill, c: Fill, p: Fill, d: Fill)
    requires DistinctIds([o, c, p, d]) && !o.isClose && c.isClose && !p.isClose && d.isClose
    requires c.orderId != "" && d.orderId != "" && c.orderId != d.orderId && o.orderId != d.orderId && c.time != d.time
    requires o.quantity == 10.0 && p.quantity == 10.0 && c.quantity == 5.0 && d.quantity == 15.0
    requires o.fee == 10.0 && p.fee == 0.0
    ensures var b := Run(EMPTY, ScaledIn(o, c, p, d));
      && ProperRun(ScaledIn(o, c, p, d)) && b.due == {} && Total(Opens(b.fills), Fee) == 10.0
      && SumOf(CappedIn(b.made)) == 20.0 == Total(Opens(b.fills), Quantity) && EntryCharged(b) == 12.5
  {
    ScaledInBook(o, c, p, d);
    ScaledInTotals(o, c, p, d);
    Few(o, p, Fee);
    LegShares(o, c, p, d);
  }

  lemma LegShares(o: Fill, c: Fill, p: Fill, d: Fill)
    requires o.quantity == 10.0 && p.quantity == 10.0 && c.quantity == 5.0 && d.quantity == 15.0
    requires o.fee == 10.0 && p.fee == 0.0
    ensures ShareOf([o], [c]) == 5.0 && ShareOf([o, p], [d]) == 7.5
    ensures Total([o, p], Quantity) == 20.0 && Total([o], Quantity) == 10.0
    ensures Total([c], Quantity) == 5.0 && Total([d], Quantity) == 15.0
  {
    Few(o, p, Quantity);
    Few(o, p, Fee);
    Few(c, d, Quantity);
    assert Share(10.0, 5.0, 10.0) == 5.0 && Share(10.0, 15.0, 20.0) == 7.5;
  }

  lemma Few(a: Fill, b: Fill, f: Fill -> real)
    ensures Total([a], f) == f(a) && Total([b], f) == f(b) && Total([a, b], f) == f(a) + f(b)
  {
    TotalNext([a, b], f);
    TotalNext([a], f);
    TotalNext([b], f);
    assert [a, b][..1] == [a] && [a][..0] == [] && [b][..0] == [];
    TotalNext([], f);
  }

  lemma SumOfTwo(m: map<int, real>, j: int, k: int)
    requires j != k && m.Keys == {j, k}
    ensures SumOf(m) == m[j] + m[k]
  {
    SumOfRemove(m, j);
    SumOfRemove(m - {j}, k);
    assert m - {j} - {k} == map[];
  }
}
