/** What fills make of their order: the running average and quantity, and how they compare with the fills stored. */
module OrderFills {
  import opened Numerics
  import opened OrderTable
  import opened CalcLinks
  import opened OrderManager
  import opened OrderProtocol

  // ---------- totals and averages ----------

  function Quantity(f: Fill): real { f.quantity }
  function Notional(f: Fill): real { f.price * f.quantity }
  function Fee(f: Fill): real { f.fee }
  function Pnl(f: Fill): real { f.pnl }

  function Vwap(fs: seq<Fill>): real {
    var quantity := Total(fs, Quantity);
    if quantity == 0.0 then 0.0 else Total(fs, Notional) / quantity
  }

  ghost predicate Traded(fs: seq<Fill>) { forall i :: 0 <= i < |fs| ==> fs[i].quantity > 0.0 }

  ghost predicate PricedWithin(fs: seq<Fill>, low: real, high: real) {
    forall i :: 0 <= i < |fs| ==> low <= fs[i].price <= high
  }

  lemma {:induction false} QuantityPositive(fs: seq<Fill>)
    requires Traded(fs)
    ensures Total(fs, Quantity) >= 0.0 && (fs != [] ==> Total(fs, Quantity) > 0.0)
  {
    TotalNext(fs, Quantity);
    if fs != [] { QuantityPositive(fs[..|fs| - 1]); }
  }

  lemma {:induction false} NotionalWithin(fs: seq<Fill>, low: real, high: real)
    requires Traded(fs) && PricedWithin(fs, low, high)
    ensures low * Total(fs, Quantity) <= Total(fs, Notional) <= high * Total(fs, Quantity)
  {
    TotalNext(fs, Quantity);
    TotalNext(fs, Notional);
    if fs != [] {
      var n := |fs| - 1;
      NotionalWithin(fs[..n], low, high);
      NotionalNext(fs[n], low, high, Total(fs[..n], Quantity), Total(fs[..n], Notional),
                   Total(fs, Quantity), Total(fs, Notional));
    }
  }

  lemma NotionalNext(f: Fill, low: real, high: real, quantity: real, notional: real,
                     quantity': real, notional': real)
    requires f.quantity > 0.0 && low <= f.price <= high
    requires low * quantity <= notional <= high * quantity
    requires quantity' == quantity + f.quantity && notional' == notional + Notional(f)
    ensures low * quantity' <= notional' <= high * quantity'
  {
    ProductMonotone(low, f.price, f.quantity);
    ProductMonotone(f.price, high, f.quantity);
    Spread(low, quantity, f.quantity);
    Spread(high, quantity, f.quantity);
  }

  lemma Spread(a: real, b: real, c: real)
    ensures a * (b + c) == a * b + a * c
  {
  }

  /** A volume-weighted price lies between any bounds on the prices traded. */
  lemma VwapWithin(fs: seq<Fill>, low: real, high: real)
    requires fs != [] && Traded(fs) && PricedWithin(fs, low, high)
    ensures low <= Vwap(fs) <= high
  {
    QuantityPositive(fs);
    NotionalWithin(fs, low, high);
    QuotientWithin(Total(fs, Notional), Total(fs, Quantity), low, high);
  }

  lemma QuotientWithin(notional: real, quantity: real, low: real, high: real)
    requires quantity > 0.0 && low * quantity <= notional <= high * quantity
    ensures low <= notional / quantity <= high
  {
    DivideMonotone(low * quantity, notional, quantity);
    DivideMonotone(notional, high * quantity, quantity);
    DivideBack(low, quantity);
    DivideBack(high, quantity);
  }

  // ---------- what a call writes over an order's fill columns ----------

  predicate Fills(c: Call, id: string) { c.FillArrives? && c.fill.orderId == id }

  /** The reports of a call that validation lets through. */
  function Reports(t: Orders, c: Call): seq<Order> {
    match c
    case BasicSnapshot(orders, _) => Accepted(t, orders)
    case AlgoSnapshot(orders, _) => orders
    case Update(o, _) => if Accepts(t, o) then [o] else []
    case _ => []
  }

  function ClockOf(c: Call): int {
    match c
    case BasicSnapshot(_, now) => now
    case AlgoSnapshot(_, now) => now
    case Update(_, env) => env.now
    case _ => 0
  }

  /** No report of a call is written over the row: each one naming it is rejected or older. */
  ghost predicate NoReportWrites(t: Orders, c: Call, id: string) {
    id in t && NoneApplies(t, Reports(t, c), ClockOf(c), id, 0, |Reports(t, c)|)
  }

  /** The last report a call writes over the row, or inserts it with. */
  ghost predicate WrittenBy(t: Orders, c: Call, id: string, o: Order) {
    exists i: nat :: WritesLast(t, Reports(t, c), ClockOf(c), id, i) && o == Reports(t, c)[i]
  }

  ghost predicate SameFillColumns(r: Row, q: Row) { r.filledQty == q.filledQty && r.avgFillPrice == q.avgFillPrice }

  /** Sweeps, enrichment, confirmations, refreshes and other orders' fills keep the two columns:
      they are what the call's reports leave. */
  lemma ReportsAt(s: Store, c: Call, id: string)
    requires !Fills(c, id)
    ensures var left, after := FoldAt(At(s.orders, id), Reports(s.orders, c), id, ClockOf(c)), StoreAfter(s, c).orders;
      (id in after <==> left.Some?) && (id in after ==> SameFillColumns(after[id], left.value))
  {
    match c
    case BasicSnapshot(orders, now) => SnapshotsAt(s.orders, orders, id, now);
    case AlgoSnapshot(orders, now) => SnapshotsAt(s.orders, orders, id, now);
    case Update(o, env) =>
      if Accepts(s.orders, o) { UpdateColumns(s.orders, o, env, id); }
    case _ =>
  }

  lemma UpdateColumns(t: Orders, o: Order, env: Env, id: string)
    requires Accepts(t, o)
    ensures var left, after := FoldAt(At(t, id), [o], id, env.now), UpdateTable(t, o, env);
      (id in after <==> left.Some?) && (id in after ==> SameFillColumns(after[id], left.value))
  {
    var upserted := Upsert(t, o, env.now);
    var enriched := Enriched(upserted, env, o);
    EnrichmentKeepsRows(upserted, env, o);
    EnrichmentKeepsRows(enriched, env, o);
    LinksKeepColumns(upserted, enriched, id);
    LinksKeepColumns(enriched, ParentEnriched(enriched, env, o), id);
    assert [o][..0] == [];
  }

  lemma LinksKeepColumns(before: Orders, after: Orders, id: string)
    requires SameButLinks(before, after)
    ensures id in before <==> id in after
    ensures id in before ==> SameFillColumns(after[id], before[id])
  {
  }

  lemma QuietCall(s: Store, c: Call, id: string)
    requires NoReportWrites(s.orders, c, id) && !Fills(c, id)
    ensures id in StoreAfter(s, c).orders && SameFillColumns(s.orders[id], StoreAfter(s, c).orders[id])
  {
    var reports := Reports(s.orders, c);
    var i := LastApplied(s.orders, reports, ClockOf(c), id, |reports|);
    assert reports[..|reports|] == reports;
    ReportsAt(s, c, id);
  }

  /** A report that is written sets both columns to its own. */
  lemma ReportSets(s: Store, c: Call, id: string, o: Order)
    requires WrittenBy(s.orders, c, id, o)
    ensures var after := StoreAfter(s, c);
      && id in after.orders && after.fills == s.fills
      && after.orders[id].filledQty == o.filledQty && after.orders[id].avgFillPrice == o.avgFillPrice
  {
    var reports := Reports(s.orders, c);
    var k: nat :| WritesLast(s.orders, reports, ClockOf(c), id, k) && o == reports[k];
    var i := LastApplied(s.orders, reports, ClockOf(c), id, |reports|);
    assert reports[..|reports|] == reports;
    assert i == k;
    ReportsAt(s, c, id);
  }

  // ---------- the running average of an order ----------

  /** The fills of an order among the calls of a run, in their order. */
  function Arrivals(calls: seq<Call>, id: string): seq<Fill> {
    if calls == [] then []
    else
      var init, c := Arrivals(calls[..|calls| - 1], id), calls[|calls| - 1];
      if Fills(c, id) then init + [c.fill] else init
  }

  ghost predicate QuietRun(s: State, calls: seq<Call>, id: string) {
    forall i :: 0 <= i < |calls| ==> NoReportWrites(Run(s, calls[..i]).store.orders, calls[i], id)
  }

  lemma QuietWithin(s: State, calls: seq<Call>, id: string)
    requires calls != [] && QuietRun(s, calls, id)
    ensures QuietRun(s, calls[..|calls| - 1], id)
    ensures NoReportWrites(Run(s, calls[..|calls| - 1]).store.orders, calls[|calls| - 1], id)
  {
    var n := |calls| - 1;
    forall i | 0 <= i < n ensures NoReportWrites(Run(s, calls[..n][..i]).store.orders, calls[..n][i], id) {
      assert calls[..n][..i] == calls[..i];
      assert NoReportWrites(Run(s, calls[..i]).store.orders, calls[i], id);
    }
  }

  lemma AverageNext(r: Row, notional: real, quantity: real, f: Fill, now: int)
    requires quantity > 0.0 && f.quantity > 0.0
    requires r.filledQty == quantity && r.avgFillPrice == notional / quantity
    ensures var after := WithFill(r, f.price, f.quantity, now);
      && after.filledQty == quantity + f.quantity
      && after.avgFillPrice == (notional + Notional(f)) / (quantity + f.quantity)
  {
    DivideBack(notional, quantity);
  }

  lemma FirstAverage(r: Row, f: Fill, now: int)
    requires r.filledQty == 0.0 && f.quantity > 0.0
    ensures var after := WithFill(r, f.price, f.quantity, now);
      after.filledQty == f.quantity && after.avgFillPrice == Notional(f) / f.quantity
  {
    DivideIs(Notional(f), f.quantity, f.price);
  }

  ghost predicate AverageOf(r: Row, fs: seq<Fill>) {
    r.filledQty == Total(fs, Quantity) && (fs != [] ==> r.avgFillPrice == Vwap(fs))
  }

  lemma AverageGrows(r: Row, fs: seq<Fill>, f: Fill, now: int)
    requires AverageOf(r, fs) && Traded(fs + [f])
    ensures AverageOf(WithFill(r, f.price, f.quantity, now), fs + [f])
  {
    var more := fs + [f];
    assert more[..|fs|] == fs && more[|fs|] == f;
    TotalNext(more, Quantity);
    TotalNext(more, Notional);
    TotalNext(fs, Quantity);
    TotalNext(fs, Notional);
    forall i | 0 <= i < |fs| ensures fs[i].quantity > 0.0 { assert more[i] == fs[i]; }
    QuantityPositive(fs);
    if fs == [] { FirstAverage(r, f, now); } else { AverageNext(r, Total(fs, Notional), Total(fs, Quantity), f, now); }
  }

  /** Whatever else happens in a run, as long as no report is written over the row: one statement at a time its quantity
      and average come out as the total and the VWAP of all the fills of the order. */
  lemma {:induction false} RunningAverageIsVwap(s: State, calls: seq<Call>, id: string)
    requires id != "" && id in s.store.orders && s.store.orders[id].filledQty == 0.0
    requires QuietRun(s, calls, id) && Traded(Arrivals(calls, id))
    ensures var after, fs := Run(s, calls).store.orders, Arrivals(calls, id);
      && id in after && after[id].filledQty == Total(fs, Quantity)
      && after[id].avgFillPrice == if fs == [] then s.store.orders[id].avgFillPrice else Vwap(fs)
  {
    if calls == [] {
      TotalNext(Arrivals(calls, id), Quantity);
    } else {
      var n := |calls| - 1;
      var fs, mid := Arrivals(calls[..n], id), Run(s, calls[..n]);
      QuietWithin(s, calls, id);
      forall i | 0 <= i < |fs| ensures fs[i].quantity > 0.0 { assert Arrivals(calls, id)[i] == fs[i]; }
      RunningAverageIsVwap(s, calls[..n], id);
      if Fills(calls[n], id) {
        AverageGrows(mid.store.orders[id], fs, calls[n].fill, calls[n].now);
      } else {
        QuietCall(mid.store, calls[n], id);
      }
    }
  }

  /** From any start, a written report included: the quantity grows by the total of the fills, and the notional it
      stands for at its average price by theirs. */
  lemma {:induction false} RunningNotional(s: State, calls: seq<Call>, id: string)
    requires id != "" && id in s.store.orders && s.store.orders[id].filledQty >= 0.0
    requires QuietRun(s, calls, id) && Traded(Arrivals(calls, id))
    ensures id in Run(s, calls).store.orders
    ensures Grown(s.store.orders[id], Run(s, calls).store.orders[id], Arrivals(calls, id))
  {
    if calls == [] {
      NoneGrown(s.store.orders[id]);
    } else {
      var n := |calls| - 1;
      var fs, mid := Arrivals(calls[..n], id), Run(s, calls[..n]);
      QuietWithin(s, calls, id);
      forall i | 0 <= i < |fs| ensures fs[i].quantity > 0.0 { assert Arrivals(calls, id)[i] == fs[i]; }
      RunningNotional(s, calls[..n], id);
      if Fills(calls[n], id) {
        assert Arrivals(calls, id)[|fs|] == calls[n].fill;
        GrownByFill(s.store.orders[id], mid.store.orders[id], fs, calls[n].fill, calls[n].now);
      } else {
        QuietCall(mid.store, calls[n], id);
        SameGrown(s.store.orders[id], mid.store.orders[id], Run(s, calls).store.orders[id], fs);
      }
    }
  }

  /** A row grown by fills: in quantity by their total, in notional by theirs. */
  ghost predicate Grown(start: Row, r: Row, fs: seq<Fill>) {
    && r.filledQty == start.filledQty + Total(fs, Quantity) && r.filledQty >= 0.0
    && Held(r) == Held(start) + Total(fs, Notional)
  }

  lemma NoneGrown(r: Row)
    requires r.filledQty >= 0.0
    ensures Grown(r, r, [])
  {
    var none: seq<Fill> := [];
    TotalNext(none, Quantity);
    TotalNext(none, Notional);
  }

  lemma SameGrown(start: Row, r: Row, q: Row, fs: seq<Fill>)
    requires Grown(start, r, fs) && SameFillColumns(r, q)
    ensures Grown(start, q, fs)
  {
  }

  lemma GrownByFill(start: Row, r: Row, fs: seq<Fill>, f: Fill, now: int)
    requires Grown(start, r, fs) && f.quantity > 0.0
    ensures Grown(start, WithFill(r, f.price, f.quantity, now), fs + [f])
  {
    var more := fs + [f];
    assert more[..|fs|] == fs;
    TotalNext(more, Quantity);
    TotalNext(more, Notional);
    HeldGrows(r, f, now);
  }

  /** Quantity at average price. */
  function Held(r: Row): real { r.avgFillPrice * r.filledQty }

  lemma HeldGrows(r: Row, f: Fill, now: int)
    requires r.filledQty >= 0.0 && f.quantity > 0.0
    ensures var after := WithFill(r, f.price, f.quantity, now);
      after.filledQty == r.filledQty + f.quantity && Held(after) == Held(r) + Notional(f)
  {
    if r.filledQty > 0.0 { DivideBack(Held(r) + Notional(f), r.filledQty + f.quantity); }
  }

  // ---------- the order against its stored fills ----------

  function QuantitiesOf(fills: OrderTable.Fills, id: string): map<string, real> {
    map f | f in fills && fills[f].orderId == id :: fills[f].quantity
  }

  /** The total of the stored fills of an order. */
  ghost function Stored(fills: OrderTable.Fills, id: string): real { SumOf(QuantitiesOf(fills, id)) }

  ghost predicate NonNegative(fills: OrderTable.Fills) { forall f :: f in fills ==> fills[f].quantity >= 0.0 }

  /** A fill that arrives under an id already stored names the order it is stored under. */
  predicate NamesStored(fills: OrderTable.Fills, f: Fill) { f.id in fills ==> fills[f.id].orderId == f.orderId }

  ghost predicate ProperFill(s: Store, c: Call) {
    c.FillArrives? ==> c.fill.quantity >= 0.0 && NamesStored(s.fills, c.fill)
  }

  /** The quantity stored under a fill's id so far. */
  function Before(fills: OrderTable.Fills, f: Fill): real { if f.id in fills then fills[f.id].quantity else 0.0 }

  /** What a call counts a second time: the quantity of a fill of the order that is stored already. */
  function CountedAgain(s: Store, c: Call, id: string): real { if Fills(c, id) then Before(s.fills, c.fill) else 0.0 }

  predicate CountsAgain(s: Store, c: Call, id: string) { CountedAgain(s, c, id) != 0.0 }

  lemma StoredAfterFill(s: Store, f: Fill, now: int, id: string)
    requires NamesStored(s.fills, f)
    ensures Stored(StoreAfter(s, FillArrives(f, now)).fills, id)
         == Stored(s.fills, id) + if f.orderId == id then f.quantity - Before(s.fills, f) else 0.0
  {
    QuantitiesAfterFill(s, f, now, id);
    SumOfSet(QuantitiesOf(s.fills, id), f.id, f.quantity);
  }

  lemma QuantitiesAfterFill(s: Store, f: Fill, now: int, id: string)
    requires NamesStored(s.fills, f)
    ensures var before := QuantitiesOf(s.fills, id);
      QuantitiesOf(StoreAfter(s, FillArrives(f, now)).fills, id)
        == if f.orderId == id then before[f.id := f.quantity] else before
  {
    FillsAfterFill(s, f, now);
    QuantitiesWith(s.fills, StoreAfter(s, FillArrives(f, now)).fills, f, id);
  }

  /** The stored fills after one arrives, in the columns that count. */
  ghost predicate WithArrived(before: OrderTable.Fills, after: OrderTable.Fills, f: Fill) {
    && after.Keys == before.Keys + {f.id} && after[f.id].orderId == f.orderId && after[f.id].quantity == f.quantity
    && forall g :: g in before && g != f.id ==> after[g] == before[g]
  }

  lemma FillsAfterFill(s: Store, f: Fill, now: int)
    requires NamesStored(s.fills, f)
    ensures WithArrived(s.fills, StoreAfter(s, FillArrives(f, now)).fills, f)
  {
  }

  lemma QuantitiesWith(before: OrderTable.Fills, after: OrderTable.Fills, f: Fill, id: string)
    requires WithArrived(before, after, f) && NamesStored(before, f)
    ensures QuantitiesOf(after, id)
         == if f.orderId == id then QuantitiesOf(before, id)[f.id := f.quantity] else QuantitiesOf(before, id)
  {
  }

  /** How far an order is ahead of its stored fills. */
  ghost function Ahead(s: Store, id: string): real
    requires id in s.orders
  {
    s.orders[id].filledQty - Stored(s.fills, id)
  }

  /** An arriving fill puts its order ahead of the stored fills by what was stored under its id before. */
  lemma FillPutsAhead(s: Store, f: Fill, now: int)
    requires f.orderId != "" && f.orderId in s.orders && s.orders[f.orderId].filledQty >= 0.0
    requires f.quantity >= 0.0 && NamesStored(s.fills, f)
    ensures f.orderId in StoreAfter(s, FillArrives(f, now)).orders
    ensures Ahead(StoreAfter(s, FillArrives(f, now)), f.orderId) == Ahead(s, f.orderId) + Before(s.fills, f)
  {
    StoredAfterFill(s, f, now, f.orderId);
  }

  /** One arrival adds to its order what it adds to the stored fills if and only if nothing was stored under its id. */
  lemma CountedOnceExactlyWhen(s: Store, f: Fill, now: int)
    requires f.orderId != "" && f.orderId in s.orders && s.orders[f.orderId].filledQty >= 0.0
    requires f.quantity >= 0.0 && NamesStored(s.fills, f)
    ensures var after := StoreAfter(s, FillArrives(f, now));
      && f.orderId in after.orders
      && (after.orders[f.orderId].filledQty - s.orders[f.orderId].filledQty
            == Stored(after.fills, f.orderId) - Stored(s.fills, f.orderId)
          <==> !CountsAgain(s, FillArrives(f, now), f.orderId))
  {
    FillPutsAhead(s, f, now);
  }

  lemma StepPutsAhead(s: Store, c: Call, id: string)
    requires id != "" && NoReportWrites(s.orders, c, id) && ProperFill(s, c) && s.orders[id].filledQty >= 0.0
    ensures var after := StoreAfter(s, c);
      && id in after.orders && after.orders[id].filledQty >= 0.0
      && Ahead(after, id) == Ahead(s, id) + CountedAgain(s, c, id)
      && (NonNegative(s.fills) ==> NonNegative(after.fills))
  {
    if c.FillArrives? {
      FillStep(s, c.fill, c.now, id);
    } else {
      QuietCall(s, c, id);
      assert StoreAfter(s, c).fills.Keys == s.fills.Keys;
      assert QuantitiesOf(StoreAfter(s, c).fills, id) == QuantitiesOf(s.fills, id);
    }
  }

  lemma FillStep(s: Store, f: Fill, now: int, id: string)
    requires id != "" && id in s.orders && ProperFill(s, FillArrives(f, now)) && s.orders[id].filledQty >= 0.0
    ensures var after := StoreAfter(s, FillArrives(f, now));
      && id in after.orders && after.orders[id].filledQty >= 0.0
      && Ahead(after, id) == Ahead(s, id) + CountedAgain(s, FillArrives(f, now), id)
      && (NonNegative(s.fills) ==> NonNegative(after.fills))
  {
    if f.orderId == id {
      FillPutsAhead(s, f, now);
    } else {
      StoredAfterFill(s, f, now, id);
    }
  }

  ghost predicate ProperRun(s: State, calls: seq<Call>) {
    forall i :: 0 <= i < |calls| ==> ProperFill(Run(s, calls[..i]).store, calls[i])
  }

  ghost predicate CountsAgainAt(s: State, calls: seq<Call>, id: string, i: int) {
    0 <= i < |calls| && CountsAgain(Run(s, calls[..i]).store, calls[i], id)
  }

  ghost predicate NeverCountsAgain(s: State, calls: seq<Call>, id: string) {
    forall i :: !CountsAgainAt(s, calls, id, i)
  }

  /** What the calls of a run count a second time for an order. */
  function CountedAgainIn(s: State, calls: seq<Call>, id: string): real {
    if calls == [] then 0.0
    else
      var init := calls[..|calls| - 1];
      CountedAgainIn(s, init, id) + CountedAgain(Run(s, init).store, calls[|calls| - 1], id)
  }

  /** The law of every run in which no report is written over the row, from any start: the order gains on its stored
      fills exactly what is counted again. */
  lemma {:induction false} AheadGrows(s: State, calls: seq<Call>, id: string)
    requires id != "" && id in s.store.orders && s.store.orders[id].filledQty >= 0.0
    requires QuietRun(s, calls, id) && ProperRun(s, calls)
    ensures var after := Run(s, calls).store;
      && id in after.orders && after.orders[id].filledQty >= 0.0
      && (NonNegative(s.store.fills) ==> NonNegative(after.fills))
      && Ahead(after, id) == Ahead(s.store, id) + CountedAgainIn(s, calls, id)
  {
    if calls != [] {
      QuietWithin(s, calls, id);
      ProperWithin(s, calls);
      AheadGrows(s, calls[..|calls| - 1], id);
      StepPutsAhead(Run(s, calls[..|calls| - 1]).store, calls[|calls| - 1], id);
    }
  }

  lemma {:induction false} CountedAgainZero(s: State, calls: seq<Call>, id: string)
    requires id != "" && id in s.store.orders && s.store.orders[id].filledQty >= 0.0 && NonNegative(s.store.fills)
    requires QuietRun(s, calls, id) && ProperRun(s, calls)
    ensures CountedAgainIn(s, calls, id) >= 0.0
    ensures CountedAgainIn(s, calls, id) == 0.0 <==> NeverCountsAgain(s, calls, id)
  {
    if calls != [] {
      var n := |calls| - 1;
      QuietWithin(s, calls, id);
      ProperWithin(s, calls);
      CountedAgainZero(s, calls[..n], id);
      AheadGrows(s, calls[..n], id);
      AgainStep(s, calls, id);
    }
  }

  lemma AgainStep(s: State, calls: seq<Call>, id: string)
    requires calls != [] && NonNegative(Run(s, calls[..|calls| - 1]).store.fills)
    ensures CountedAgain(Run(s, calls[..|calls| - 1]).store, calls[|calls| - 1], id) >= 0.0
    ensures NeverCountsAgain(s, calls, id)
       <==> NeverCountsAgain(s, calls[..|calls| - 1], id) && !CountsAgainAt(s, calls, id, |calls| - 1)
  {
    if !CountsAgainAt(s, calls, id, |calls| - 1) { AgainWithin(s, calls, id); }
  }

  /** So an order that agreed with its stored fills agrees with them after such a run if and only if no fill of it
      with a quantity arrived when it was stored already. */
  lemma FilledAgreesExactlyWhen(s: State, calls: seq<Call>, id: string)
    requires id != "" && id in s.store.orders && s.store.orders[id].filledQty >= 0.0 && NonNegative(s.store.fills)
    requires Ahead(s.store, id) == 0.0 && QuietRun(s, calls, id) && ProperRun(s, calls)
    ensures id in Run(s, calls).store.orders && Ahead(Run(s, calls).store, id) >= 0.0
    ensures Ahead(Run(s, calls).store, id) == 0.0 <==> NeverCountsAgain(s, calls, id)
  {
    AheadGrows(s, calls, id);
    CountedAgainZero(s, calls, id);
  }

  lemma ProperWithin(s: State, calls: seq<Call>)
    requires calls != [] && ProperRun(s, calls)
    ensures ProperRun(s, calls[..|calls| - 1]) && ProperFill(Run(s, calls[..|calls| - 1]).store, calls[|calls| - 1])
  {
    var n := |calls| - 1;
    forall i | 0 <= i < n ensures ProperFill(Run(s, calls[..n][..i]).store, calls[..n][i]) {
      assert calls[..n][..i] == calls[..i];
      assert ProperFill(Run(s, calls[..i]).store, calls[i]);
    }
  }

  lemma AgainWithin(s: State, calls: seq<Call>, id: string)
    requires calls != [] && !CountsAgainAt(s, calls, id, |calls| - 1)
    ensures NeverCountsAgain(s, calls, id) <==> NeverCountsAgain(s, calls[..|calls| - 1], id)
  {
    var n := |calls| - 1;
    forall i | i < n ensures CountsAgainAt(s, calls[..n], id, i) <==> CountsAgainAt(s, calls, id, i) {
      if 0 <= i { assert calls[..n][..i] == calls[..i]; }
    }
  }

  // ---------- runs in which reports are written ----------

  lemma {:induction false} RunSplits(s: State, calls: seq<Call>, n: nat)
    requires n <= |calls|
    ensures Run(s, calls) == Run(Run(s, calls[..n]), calls[n..])
    decreases |calls|
  {
    if n == |calls| {
      assert calls[..n] == calls && calls[n..] == [];
    } else {
      var m := |calls| - 1;
      RunSplits(s, calls[..m], n);
      SlicesMeet(calls, n, m);
    }
  }

  lemma SlicesMeet(calls: seq<Call>, n: nat, m: nat)
    requires n <= m == |calls| - 1
    ensures calls[..m][..n] == calls[..n] && calls[..m][n..] == calls[n..][..|calls[n..]| - 1]
    ensures calls[n..] != [] && calls[n..][|calls[n..]| - 1] == calls[m]
  {
  }

  /** The run after its n-th call, which writes a report over the order; none is written later. */
  ghost predicate LastReport(s: State, calls: seq<Call>, n: nat, id: string, o: Order) {
    && n < |calls| && WrittenBy(Run(s, calls[..n]).store.orders, calls[n], id, o)
    && QuietRun(Run(s, calls[..n + 1]), calls[n + 1..], id) && ProperRun(Run(s, calls[..n + 1]), calls[n + 1..])
  }

  /** Over every run with a report written over the order, by a snapshot or an update: afterwards the order agrees with
      its stored fills if and only if what its last report was ahead of those stored then, and what has been counted
      again since, come to nothing together. */
  lemma ReportedAgreesExactlyWhen(s: State, calls: seq<Call>, n: nat, id: string, o: Order)
    requires id != "" && o.filledQty >= 0.0 && LastReport(s, calls, n, id, o)
    ensures var after, mid := Run(s, calls).store, Run(s, calls[..n + 1]);
      var gap := o.filledQty - Stored(Run(s, calls[..n]).store.fills, id) + CountedAgainIn(mid, calls[n + 1..], id);
      && id in after.orders && Ahead(after, id) == gap
      && (after.orders[id].filledQty == Stored(after.fills, id) <==> gap == 0.0)
  {
    var before := Run(s, calls[..n]);
    assert calls[..n + 1][..n] == calls[..n];
    ReportSets(before.store, calls[n], id, o);
    AheadGrows(Run(s, calls[..n + 1]), calls[n + 1..], id);
    RunSplits(s, calls, n + 1);
  }

  /** And its quantity and average: what the last report gave, with all fills since. */
  lemma ReportedNotional(s: State, calls: seq<Call>, n: nat, id: string, o: Order)
    requires id != "" && o.filledQty >= 0.0 && LastReport(s, calls, n, id, o)
    requires Traded(Arrivals(calls[n + 1..], id))
    ensures var after, fs := Run(s, calls).store.orders, Arrivals(calls[n + 1..], id);
      && id in after && after[id].filledQty == o.filledQty + Total(fs, Quantity)
      && Held(after[id]) == HeldBy(o) + Total(fs, Notional)
  {
    assert calls[..n + 1][..n] == calls[..n];
    ReportSets(Run(s, calls[..n]).store, calls[n], id, o);
    SameHeld(Run(s, calls[..n + 1]).store.orders[id], o);
    RunningNotional(Run(s, calls[..n + 1]), calls[n + 1..], id);
    RunSplits(s, calls, n + 1);
  }

  function HeldBy(o: Order): real { o.avgFillPrice * o.filledQty }

  lemma SameHeld(r: Row, o: Order)
    requires r.filledQty == o.filledQty && r.avgFillPrice == o.avgFillPrice
    ensures Held(r) == HeldBy(o)
  {
  }

  /** So the first fill of an order counts twice when a report has already counted it. */
  lemma ReportedFillCountsTwice(s: Store, o: Order, env: Env, f: Fill, later: int)
    requires o.id != "" && o.id !in s.orders && f.orderId == o.id && f.id !in s.fills
    requires f.quantity > 0.0 && o.filledQty == f.quantity && Stored(s.fills, o.id) == 0.0
    ensures var after := StoreAfter(StoreAfter(s, Update(o, env)), FillArrives(f, later));
      && o.id in after.orders && after.orders[o.id].filledQty == f.quantity + f.quantity
      && Ahead(after, o.id) == f.quantity
  {
    var c, reported := Update(o, env), StoreAfter(s, Update(o, env));
    assert WritesLast(s.orders, Reports(s.orders, c), ClockOf(c), o.id, 0);
    ReportSets(s, c, o.id, o);
    FillPutsAhead(reported, f, later);
    StoredAfterFill(reported, f, later, o.id);
  }
}
