/** What runs of order updates, fills and confirmations keep about the links of orders and fills to calculations. */
module CalcLinkage {
  import opened Numerics
  import opened OrderTable
  import opened CalcLinks
  import opened OrderManager

  // ---------- orders ----------

  /** No two orders carry one link, and no link is empty. */
  ghost predicate Unique(t: Orders) {
    && (forall id :: id in t ==> t[id].calcId != Some(""))
    && (forall a, b :: a in t && b in t && t[a].calcId.Some? && t[a].calcId == t[b].calcId ==> a == b)
  }

  /** Orders stay, and a link once written stays as it is. */
  ghost predicate WrittenOnce(before: Orders, after: Orders) {
    forall id :: id in before ==> id in after && (before[id].calcId.Some? ==> after[id].calcId == before[id].calcId)
  }

  ghost predicate SameLinks(before: Orders, after: Orders) {
    && (forall id :: id in before ==> id in after && after[id].calcId == before[id].calcId)
    && (forall id :: id in after && id !in before ==> after[id].calcId == None)
  }

  lemma {:induction false} UpsertsKeepLinks(t: Orders, orders: seq<Order>, now: int)
    ensures SameLinks(t, UpsertBatch(t, orders, now))
  {
    if orders != [] {
      UpsertsKeepLinks(t, orders[..|orders| - 1], now);
    }
  }

  lemma SameLinksKeepUnique(before: Orders, after: Orders)
    requires Unique(before) && SameLinks(before, after)
    ensures Unique(after) && WrittenOnce(before, after)
  {
  }

  /** Writing an unused link to an unlinked order. */
  lemma LinkingKeepsUnique(t: Orders, id: string, r: Row, link: string)
    requires Unique(t) && id in t && t[id].calcId.None? && r.calcId == Some(link) && link != "" && !Used(t, link)
    ensures Unique(t[id := r]) && WrittenOnce(t, t[id := r])
  {
  }

  lemma LinkedKeepsUnique(t: Orders, env: Env, o: Order)
    requires Unique(t)
    ensures Unique(Linked(t, env, o)) && WrittenOnce(t, Linked(t, env, o))
  {
    if Linked(t, env, o) != t {
      var r := t[o.id];
      var i, tick := IntentOf(o, r), TickSize(env, o.symbol, r.price);
      var link := Correlated(i, tick, env.log, env.now, t);
      FirstFitIsFirst(Candidates(env.log, i, env.now - DAY_MS), i, tick, t);
      var k :| IsFirstFit(Candidates(env.log, i, env.now - DAY_MS), i, tick, t, k);
      LinkingKeepsUnique(t, o.id, r.(calcId := link), link.value);
    }
  }

  lemma EnrichedKeepsUnique(t: Orders, env: Env, o: Order)
    requires Unique(t)
    ensures Unique(Enriched(t, env, o)) && WrittenOnce(t, Enriched(t, env, o))
  {
    var populated := Populated(t, env.scan, o);
    assert SameLinks(t, populated);
    LinkedKeepsUnique(populated, env, o);
  }

  lemma UpdateKeepsUnique(t: Orders, o: Order, env: Env)
    requires Unique(t)
    ensures Unique(UpdateTable(t, o, env)) && WrittenOnce(t, UpdateTable(t, o, env))
  {
    var upserted := Upsert(t, o, env.now);
    assert SameLinks(t, upserted);
    EnrichedKeepsUnique(upserted, env, o);
    var enriched := Enriched(upserted, env, o);
    var parent := FirstEntry(enriched, env.scan, o.positionId);
    if parent.Some? && parent.value in enriched {
      EnrichedKeepsUnique(enriched, env, FromRow(parent.value, enriched[parent.value]));
    }
  }

  lemma SnapshotsKeepUnique(t: Orders, orders: seq<Order>, now: int)
    requires Unique(t)
    ensures Unique(BasicTable(t, orders, now)) && WrittenOnce(t, BasicTable(t, orders, now))
    ensures Unique(AlgoTable(t, orders, now)) && WrittenOnce(t, AlgoTable(t, orders, now))
  {
    UpsertsKeepLinks(t, Accepted(t, orders), now);
    UpsertsKeepLinks(t, orders, now);
    SameLinksKeepUnique(t, BasicTable(t, orders, now));
    SameLinksKeepUnique(t, AlgoTable(t, orders, now));
  }

  lemma StepKeepsUnique(s: Store, c: Call)
    requires Unique(s.orders)
    ensures Unique(StoreAfter(s, c).orders) && WrittenOnce(s.orders, StoreAfter(s, c).orders)
  {
    match c
    case BasicSnapshot(orders, now) => SnapshotsKeepUnique(s.orders, orders, now);
    case AlgoSnapshot(orders, now) => SnapshotsKeepUnique(s.orders, orders, now);
    case Update(o, env) => UpdateKeepsUnique(s.orders, o, env);
    case FillArrives(f, now) => assert SameLinks(s.orders, StoreAfter(s, c).orders);
    case Confirm(id, link) =>
      if Refused(s, id, link).None? { LinkingKeepsUnique(s.orders, id, s.orders[id].(calcId := Some(link)), link); }
    case Refresh =>
  }

  /** Over every interleaving an order's link is written once and never shared by another order. */
  lemma {:induction false} LinksWrittenOnceAndUnique(s: State, calls: seq<Call>)
    requires Unique(s.store.orders)
    ensures Unique(Run(s, calls).store.orders) && WrittenOnce(s.store.orders, Run(s, calls).store.orders)
  {
    if calls != [] {
      var n := |calls| - 1;
      LinksWrittenOnceAndUnique(s, calls[..n]);
      StepKeepsUnique(Run(s, calls[..n]).store, calls[n]);
    }
  }

  // ---------- fills ----------

  ghost predicate Carries(s: Store, f: string)
    requires f in s.fills
  {
    var row := s.fills[f];
    row.calcId.Some? ==> row.orderId in s.orders && s.orders[row.orderId].calcId == row.calcId
  }

  /** Every linked fill carries the link of the order its row names. */
  ghost predicate FillsCarry(s: Store) { forall f :: f in s.fills ==> Carries(s, f) }

  /** Fills stay with their order, and a fill's link once written stays as it is. */
  ghost predicate FillsWrittenOnce(before: Fills, after: Fills) {
    forall f :: f in before ==>
      f in after && after[f].orderId == before[f].orderId
      && (before[f].calcId.Some? ==> after[f].calcId == before[f].calcId)
  }

  /** A fill may name an order other than its stored row does only if nothing is propagated to it:
      the row is linked already, or the order named has no link to give. */
  predicate NamesItsOrder(s: Store, f: Fill) {
    || f.id !in s.fills
    || s.fills[f.id].orderId == f.orderId
    || f.id == "" || f.orderId == ""
    || s.fills[f.id].calcId.Some?
    || f.orderId !in s.orders || s.orders[f.orderId].calcId.None?
  }

  lemma OrdersOnly(s: Store, after: Orders)
    requires FillsCarry(s) && WrittenOnce(s.orders, after)
    ensures FillsCarry(Store(after, s.fills))
  {
    forall f | f in s.fills ensures Carries(Store(after, s.fills), f) { assert Carries(s, f); }
  }

  /** The fill's own row after it has been processed. */
  lemma FillRowAfter(s: Store, f: Fill, now: int)
    ensures var after := StoreAfter(s, FillArrives(f, now));
      && after.fills.Keys == s.fills.Keys + {f.id}
      && SameLinks(s.orders, after.orders) && after.orders.Keys == s.orders.Keys
      && (forall g :: g in s.fills && g != f.id ==> after.fills[g] == s.fills[g])
  {
  }

  /** Processing a fill keeps every fill with its order's link if and only if the fill names the order
      of its stored row, or nothing is propagated to it. */
  lemma FillCarriesExactlyWhen(s: Store, f: Fill, now: int)
    requires Unique(s.orders) && FillsCarry(s)
    ensures FillsCarry(StoreAfter(s, FillArrives(f, now))) <==> NamesItsOrder(s, f)
  {
    var after := StoreAfter(s, FillArrives(f, now));
    FillRowAfter(s, f, now);
    forall g | g in s.fills && g != f.id ensures Carries(after, g) {
      assert Carries(s, g);
    }
    OwnRow(s, f, now);
  }

  lemma OwnRow(s: Store, f: Fill, now: int)
    requires Unique(s.orders) && FillsCarry(s)
    ensures f.id in StoreAfter(s, FillArrives(f, now)).fills
    ensures Carries(StoreAfter(s, FillArrives(f, now)), f.id) <==> NamesItsOrder(s, f)
  {
    if f.id in s.fills { assert Carries(s, f.id); }
  }

  lemma ConfirmKeepsCarry(s: Store, id: string, link: string)
    requires Unique(s.orders) && FillsCarry(s)
    ensures FillsCarry(Confirmed(s, id, link)) && FillsWrittenOnce(s.fills, Confirmed(s, id, link).fills)
  {
    var after := Confirmed(s, id, link);
    forall f | f in after.fills ensures Carries(after, f) { assert Carries(s, f); }
    forall f | f in s.fills && s.fills[f].calcId.Some? ensures after.fills[f].calcId == s.fills[f].calcId {
      assert Carries(s, f);
    }
  }

  lemma StepKeepsCarry(s: Store, c: Call)
    requires Unique(s.orders) && FillsCarry(s) && (c.FillArrives? ==> NamesItsOrder(s, c.fill))
    ensures FillsCarry(StoreAfter(s, c)) && FillsWrittenOnce(s.fills, StoreAfter(s, c).fills)
  {
    StepKeepsUnique(s, c);
    match c
    case FillArrives(f, now) =>
      FillCarriesExactlyWhen(s, f, now);
      FillRowAfter(s, f, now);
      if f.id in s.fills { assert Carries(s, f.id); }
    case Confirm(id, link) => ConfirmKeepsCarry(s, id, link);
    case _ => OrdersOnly(s, StoreAfter(s, c).orders);
  }

  /** Over every interleaving in which fills name the order of their stored row, a linked fill carries
      the link of its order, and keeps it. */
  lemma {:induction false} FillsCarryTheirOrdersLink(s: State, calls: seq<Call>)
    requires Unique(s.store.orders) && FillsCarry(s.store)
    requires forall i :: 0 <= i < |calls| && calls[i].FillArrives? ==>
      NamesItsOrder(Run(s, calls[..i]).store, calls[i].fill)
    ensures FillsCarry(Run(s, calls).store) && FillsWrittenOnce(s.store.fills, Run(s, calls).store.fills)
  {
    if calls != [] {
      var n := |calls| - 1;
      forall i | 0 <= i < n && calls[..n][i].FillArrives?
        ensures NamesItsOrder(Run(s, calls[..n][..i]).store, calls[..n][i].fill)
      {
        assert calls[..n][..i] == calls[..i];
      }
      FillsCarryTheirOrdersLink(s, calls[..n]);
      LinksWrittenOnceAndUnique(s, calls[..n]);
      StepKeepsCarry(Run(s, calls[..n]).store, calls[n]);
    }
  }

  /** A link that says something. */
  predicate Says(link: Option<string>) { link.Some? && link.value != "" }

  /** Both ids given, the order linked and the fill not. */
  predicate TakesLink(s: Store, f: Fill) {
    && f.id != "" && f.orderId != "" && f.orderId in s.orders && Says(s.orders[f.orderId].calcId)
    && !(f.id in s.fills && Says(s.fills[f.id].calcId))
  }

  /** A fill that is processed takes the link of the order it names if that order has one and the fill has none yet;
      otherwise its link, if any, stays. */
  lemma FillTakesLink(s: Store, f: Fill, now: int)
    ensures var after := StoreAfter(s, FillArrives(f, now));
      f.id in after.fills && after.fills[f.id].calcId ==
        if TakesLink(s, f) then s.orders[f.orderId].calcId
        else if f.id in s.fills then s.fills[f.id].calcId
        else None
  {
  }

  /** A fill names the order its stored row names, if it has one. */
  predicate NamesStoredOrder(s: Store, f: Fill) { f.id in s.fills ==> s.fills[f.id].orderId == f.orderId }

  ghost predicate FillsName(s: State, calls: seq<Call>) {
    forall i :: 0 <= i < |calls| && calls[i].FillArrives? ==> NamesStoredOrder(Run(s, calls[..i]).store, calls[i].fill)
  }

  /** Call i processes a fill, with both ids, of an order that is linked by then. */
  ghost predicate FillOfLinked(s: State, calls: seq<Call>, i: nat, link: Option<string>) {
    && i < |calls| && calls[i].FillArrives? && calls[i].fill.id != "" && calls[i].fill.orderId != ""
    && var orders := Run(s, calls[..i]).store.orders;
      calls[i].fill.orderId in orders && Says(link) && orders[calls[i].fill.orderId].calcId == link
  }

  lemma FillCarriesNow(s: Store, f: Fill, now: int)
    requires Unique(s.orders) && FillsCarry(s) && NamesStoredOrder(s, f) && f.id != "" && f.orderId != ""
    requires f.orderId in s.orders && Says(s.orders[f.orderId].calcId)
    ensures var after := StoreAfter(s, FillArrives(f, now));
      f.id in after.fills && after.fills[f.id].calcId == s.orders[f.orderId].calcId
  {
    FillTakesLink(s, f, now);
    if f.id in s.fills { assert Carries(s, f.id); }
  }

  /** Over every run in which fills name the order of their stored row, a fill processed while its order was linked
      carries that link to the end of the run. */
  lemma {:induction false} ProcessedFillsCarryLink(s: State, calls: seq<Call>, i: nat, link: Option<string>)
    requires Unique(s.store.orders) && FillsCarry(s.store) && FillsName(s, calls) && FillOfLinked(s, calls, i, link)
    ensures var after := Run(s, calls).store;
      calls[i].fill.id in after.fills && after.fills[calls[i].fill.id].calcId == link
  {
    var n := |calls| - 1;
    FirstCalls(s, calls);
    LinksWrittenOnceAndUnique(s, calls[..n]);
    forall j | 0 <= j < n && calls[..n][j].FillArrives?
      ensures NamesItsOrder(Run(s, calls[..n][..j]).store, calls[..n][j].fill)
    {
      assert NamesStoredOrder(Run(s, calls[..n][..j]).store, calls[..n][j].fill);
    }
    FillsCarryTheirOrdersLink(s, calls[..n]);
    if i == n {
      FillCarriesNow(Run(s, calls[..n]).store, calls[n].fill, calls[n].now);
    } else {
      assert calls[..n][..i] == calls[..i];
      ProcessedFillsCarryLink(s, calls[..n], i, link);
      StepKeepsCarry(Run(s, calls[..n]).store, calls[n]);
    }
  }

  lemma FirstCalls(s: State, calls: seq<Call>)
    requires calls != [] && FillsName(s, calls)
    ensures FillsName(s, calls[..|calls| - 1])
    ensures calls[|calls| - 1].FillArrives? ==>
      NamesStoredOrder(Run(s, calls[..|calls| - 1]).store, calls[|calls| - 1].fill)
  {
    var init := calls[..|calls| - 1];
    forall i | 0 <= i < |init| && init[i].FillArrives? ensures NamesStoredOrder(Run(s, init[..i]).store, init[i].fill) {
      assert init[..i] == calls[..i];
    }
  }

  /** A confirmation is accepted exactly for an order without a link and a link no order carries, and then links the
      order and every stored fill of it; nothing else changes. */
  lemma ConfirmedExactlyWhen(s: Store, id: string, link: string)
    ensures Refused(s, id, link).None?
       <==> id != "" && link != "" && id in s.orders && !Says(s.orders[id].calcId)
            && forall other :: other in s.orders ==> s.orders[other].calcId != Some(link)
    ensures var after := StoreAfter(s, Confirm(id, link));
      && after.orders.Keys == s.orders.Keys && after.fills.Keys == s.fills.Keys
      && (Refused(s, id, link).Some? ==> after == s)
      && (Refused(s, id, link).None? ==>
            && after.orders[id] == s.orders[id].(calcId := Some(link))
            && (forall other :: other in s.orders && other != id ==> after.orders[other] == s.orders[other])
            && (forall f :: f in s.fills && s.fills[f].orderId == id ==>
                  after.fills[f] == s.fills[f].(calcId := Some(link)))
            && (forall f :: f in s.fills && s.fills[f].orderId != id ==> after.fills[f] == s.fills[f]))
  {
  }

  /** An unlinked fill of one order, replayed under the id of a linked order, takes that order's link. */
  lemma ReplayUnderAnotherOrder(s: Store, f: Fill, other: string, now: int)
    requires Unique(s.orders) && FillsCarry(s)
    requires f.id != "" && f.id in s.fills && s.fills[f.id].calcId.None? && s.fills[f.id].orderId == f.orderId
    requires other != "" && other != f.orderId && other in s.orders && s.orders[other].calcId.Some?
    ensures !FillsCarry(StoreAfter(s, FillArrives(f.(orderId := other), now)))
    ensures StoreAfter(s, FillArrives(f.(orderId := other), now)).fills[f.id].calcId == s.orders[other].calcId
  {
    FillCarriesExactlyWhen(s, f.(orderId := other), now);
  }

  // ---------- what a link means ----------

  /** A link correlation writes is that of the newest unused calculation within tolerance of the order;
      an order left unlinked, with both triggers known, had none. */
  lemma LinkedMeansNewestMatch(t: Orders, env: Env, o: Order)
    requires IsEntry(o) && o.id in t && t[o.id].calcId.None?
    requires Complete(IntentOf(o, t[o.id]))
    ensures var i, tick := IntentOf(o, t[o.id]), TickSize(env, o.symbol, t[o.id].price);
      var link := Linked(t, env, o)[o.id].calcId;
      && (link.None? <==> forall c :: c in env.log ==> !Linkable(c, i, tick, env.now, t))
      && (link.Some? ==> exists c :: NewestLinkable(c, i, tick, env.log, env.now, t) && c.id == link)
  {
    CorrelationIsNewestUnused(IntentOf(o, t[o.id]), TickSize(env, o.symbol, t[o.id].price), env.log, env.now, t);
  }

  /** A calculation fits an order: logged within a day before, for the same symbol and side, with target, stop and, but
      for market orders, entry each within a tick, and used by no order. */
  ghost predicate FitsOrder(c: Calc, o: Order, r: Row, tick: real, now: int, t: Orders) {
    && Says(c.id) && c.ticker == o.symbol && c.side == o.side && now - c.time <= 86400000
    && r.tpTrigger.Some? && r.slTrigger.Some?
    && -tick <= c.tp - r.tpTrigger.value <= tick && -tick <= c.sl - r.slTrigger.value <= tick
    && (o.kind != "market" ==> -tick <= c.entry - r.price <= tick)
    && forall id :: id in t ==> t[id].calcId != c.id
  }

  /** A price step known for the symbol, or else a hundredth of a percent of the price, at least a cent. */
  predicate TickOf(env: Env, symbol: string, price: real, tick: real) {
    if symbol in env.ticks then tick == env.ticks[symbol]
    else if price <= 100.0 then tick == 0.01
    else tick * 10000.0 == price
  }

  /** An order the source looks for a calculation for: an entry order, linked to none, with both triggers, a symbol, a
      side and, but for market orders, a price. */
  predicate LooksForLink(o: Order, r: Row) {
    && o.kind !in ["stop_loss", "stop_market", "stop_loss_limit", "take_profit", "take_profit_market",
                   "take_profit_limit", "trailing_stop"]
    && !o.reduceOnly && r.calcId.None? && o.symbol != "" && o.side != "" && (o.kind != "market" ==> r.price != 0.0)
    && r.tpTrigger.Some? && r.tpTrigger.value != 0.0 && r.slTrigger.Some? && r.slTrigger.value != 0.0
  }

  lemma LooksExactlyWhen(o: Order, r: Row)
    ensures LooksForLink(o, r) <==> IsEntry(o) && r.calcId.None? && Complete(IntentOf(o, r))
  {
    var kinds := ["stop_loss", "stop_market", "stop_loss_limit", "take_profit", "take_profit_market",
                  "take_profit_limit", "trailing_stop"];
    assert forall i :: 0 <= i < |kinds| ==> kinds[i] in kinds;
    assert o.kind in kinds <==> exists i :: 0 <= i < |kinds| && kinds[i] == o.kind;
    assert kinds[0] == "stop_loss" && kinds[1] == "stop_market" && kinds[2] == "stop_loss_limit";
    assert kinds[3] == "take_profit" && kinds[4] == "take_profit_market" && kinds[5] == "take_profit_limit";
  }

  lemma TickIs(env: Env, symbol: string, price: real)
    ensures TickOf(env, symbol, price, TickSize(env, symbol, price))
  {
  }

  lemma FitsExactlyWhen(c: Calc, o: Order, r: Row, tick: real, now: int, t: Orders)
    requires Complete(IntentOf(o, r))
    ensures Linkable(c, IntentOf(o, r), tick, now, t) <==> FitsOrder(c, o, r, tick, now, t)
  {
  }

  ghost predicate NewestFitting(c: Calc, log: seq<Calc>, o: Order, r: Row, tick: real, now: int, t: Orders) {
    && c in log && FitsOrder(c, o, r, tick, now, t)
    && forall other :: other in log && FitsOrder(other, o, r, tick, now, t) ==> other.time <= c.time
  }

  ghost predicate SomeFits(log: seq<Calc>, o: Order, r: Row, tick: real, now: int, t: Orders) {
    exists c :: c in log && FitsOrder(c, o, r, tick, now, t)
  }

  /** What correlation does to the table: an order that looks for a calculation takes the newest that fits, and none if
      none does; no other order changes, nor any other column. */
  lemma CorrelationLinks(t: Orders, env: Env, o: Order) returns (tick: real)
    requires o.id in t
    ensures TickOf(env, o.symbol, t[o.id].price, tick)
    ensures var after, r := Linked(t, env, o), t[o.id];
      && after.Keys == t.Keys && (forall id :: id in t && id != o.id ==> after[id] == t[id])
      && after[o.id] == r.(calcId := after[o.id].calcId)
      && if LooksForLink(o, r) && SomeFits(env.log, o, r, tick, env.now, t)
         then exists c :: NewestFitting(c, env.log, o, r, tick, env.now, t) && after[o.id].calcId == c.id
         else after == t
  {
    var r := t[o.id];
    tick := TickSize(env, o.symbol, r.price);
    TickIs(env, o.symbol, r.price);
    LooksExactlyWhen(o, r);
    if LooksForLink(o, r) {
      LinkedMeansNewestMatch(t, env, o);
      forall c ensures Linkable(c, IntentOf(o, r), tick, env.now, t) <==> FitsOrder(c, o, r, tick, env.now, t) {
        FitsExactlyWhen(c, o, r, tick, env.now, t);
      }
      if Linked(t, env, o)[o.id].calcId.Some? {
        var c :| NewestLinkable(c, IntentOf(o, r), tick, env.log, env.now, t) && c.id == Linked(t, env, o)[o.id].calcId;
        assert NewestFitting(c, env.log, o, r, tick, env.now, t);
      }
    }
  }

  // ---------- triggers ----------

  /** A child of the position shows x: its stop price, or else its price. */
  predicate ChildShows(t: Orders, id: string, positionId: string, parent: string, kinds: seq<string>, x: real) {
    && id in t && id != parent && t[id].positionId == positionId && t[id].reduceOnly && t[id].kind in kinds
    && x != 0.0 && (if t[id].stopPrice == 0.0 then x == t[id].price else x == t[id].stopPrice)
  }

  /** The last child in the scan that shows anything shows x. */
  ghost predicate LastShows(t: Orders, scan: seq<string>, positionId: string, parent: string, kinds: seq<string>,
                            x: real)
  {
    exists i :: ShowsLast(t, scan, positionId, parent, kinds, i, x)
  }

  ghost predicate ShowsLast(t: Orders, scan: seq<string>, positionId: string, parent: string, kinds: seq<string>,
                            i: int, x: real)
  {
    && 0 <= i < |scan| && ChildShows(t, scan[i], positionId, parent, kinds, x)
    && forall j :: i < j < |scan| ==> ShowsNothing(t, scan[j], positionId, parent, kinds)
  }

  ghost predicate ShowsNothing(t: Orders, id: string, positionId: string, parent: string, kinds: seq<string>) {
    forall x :: !ChildShows(t, id, positionId, parent, kinds, x)
  }

  /** A trigger column after enrichment: what the last child shows, or what it was if none shows anything. */
  ghost predicate TriggerTaken(t: Orders, scan: seq<string>, o: Order, kinds: seq<string>,
                               before: Option<real>, after: Option<real>) {
    && (forall x :: LastShows(t, scan, o.positionId, o.id, kinds, x) ==> after == Some(x))
    && ((forall x :: !LastShows(t, scan, o.positionId, o.id, kinds, x)) ==> after == before)
  }

  const PROFIT := ["take_profit", "take_profit_market", "take_profit_limit"]
  const STOP := ["stop_loss", "stop_market", "stop_loss_limit"]

  lemma KindsAre(kind: string)
    ensures kind in PROFIT <==> kind in PROFIT_KINDS
    ensures kind in STOP <==> kind in STOP_KINDS
  {
    assert PROFIT[0] in PROFIT && PROFIT[1] in PROFIT && PROFIT[2] in PROFIT;
    assert STOP[0] in STOP && STOP[1] in STOP && STOP[2] in STOP;
  }

  lemma ShowsIsTrigger(t: Orders, id: string, positionId: string, parent: string, kinds: seq<string>,
                       kindSet: set<string>, x: real)
    requires forall kind :: kind in kinds <==> kind in kindSet
    ensures ChildShows(t, id, positionId, parent, kinds, x)
       <==> Triggers(t, id, positionId, parent, kindSet) && Trigger(t[id]) == x
  {
  }

  lemma ShowsNothingIs(t: Orders, id: string, positionId: string, parent: string, kinds: seq<string>,
                       kindSet: set<string>)
    requires forall kind :: kind in kinds <==> kind in kindSet
    ensures ShowsNothing(t, id, positionId, parent, kinds) <==> !Triggers(t, id, positionId, parent, kindSet)
  {
    if Triggers(t, id, positionId, parent, kindSet) {
      ShowsIsTrigger(t, id, positionId, parent, kinds, kindSet, Trigger(t[id]));
    } else {
      forall x ensures !ChildShows(t, id, positionId, parent, kinds, x) {
        ShowsIsTrigger(t, id, positionId, parent, kinds, kindSet, x);
      }
    }
  }

  lemma ShowsLastIs(t: Orders, scan: seq<string>, positionId: string, parent: string, kinds: seq<string>,
                    kindSet: set<string>, i: int, x: real)
    requires forall kind :: kind in kinds <==> kind in kindSet
    ensures ShowsLast(t, scan, positionId, parent, kinds, i, x)
       <==> LastAt(t, scan, positionId, parent, kindSet, i) && Trigger(t[scan[i]]) == x
  {
    if 0 <= i < |scan| {
      ShowsIsTrigger(t, scan[i], positionId, parent, kinds, kindSet, x);
      forall j | i < j < |scan|
        ensures ShowsNothing(t, scan[j], positionId, parent, kinds)
           <==> !Triggers(t, scan[j], positionId, parent, kindSet)
      {
        ShowsNothingIs(t, scan[j], positionId, parent, kinds, kindSet);
      }
    }
  }

  lemma LastShowsIs(t: Orders, scan: seq<string>, positionId: string, parent: string, kinds: seq<string>,
                    kindSet: set<string>, x: real)
    requires forall kind :: kind in kinds <==> kind in kindSet
    ensures LastShows(t, scan, positionId, parent, kinds, x)
       <==> LastTrigger(t, scan, positionId, parent, kindSet) == Some(x)
  {
    TriggerIsLastChilds(t, scan, positionId, parent, kindSet);
    forall i
      ensures ShowsLast(t, scan, positionId, parent, kinds, i, x)
         <==> LastAt(t, scan, positionId, parent, kindSet, i) && Trigger(t[scan[i]]) == x
    {
      ShowsLastIs(t, scan, positionId, parent, kinds, kindSet, i, x);
    }
    if LastShows(t, scan, positionId, parent, kinds, x) {
      var i :| ShowsLast(t, scan, positionId, parent, kinds, i, x);
      var k :| LastAt(t, scan, positionId, parent, kindSet, k)
        && LastTrigger(t, scan, positionId, parent, kindSet) == Some(Trigger(t[scan[k]]));
      assert i == k;
    }
  }

  /** Enrichment writes an entry order's two triggers only, each what the last child of its position shows. */
  lemma TriggersTaken(t: Orders, scan: seq<string>, o: Order)
    requires o.id in t
    ensures var after, r := Populated(t, scan, o), t[o.id];
      && after.Keys == t.Keys && (forall id :: id in t && id != o.id ==> after[id] == t[id])
      && after[o.id] == r.(tpTrigger := after[o.id].tpTrigger, slTrigger := after[o.id].slTrigger)
      && if o.reduceOnly || o.positionId == "" || o.kind in PROFIT + STOP + ["trailing_stop"] then after == t
         else TriggerTaken(t, scan, o, PROFIT, r.tpTrigger, after[o.id].tpTrigger)
              && TriggerTaken(t, scan, o, STOP, r.slTrigger, after[o.id].slTrigger)
  {
    KindsAre(o.kind);
    assert ["trailing_stop"][0] == "trailing_stop";
    forall kind ensures (kind in PROFIT <==> kind in PROFIT_KINDS) && (kind in STOP <==> kind in STOP_KINDS) {
      KindsAre(kind);
    }
    TriggerTakenIs(t, scan, o, PROFIT, PROFIT_KINDS, t[o.id].tpTrigger);
    TriggerTakenIs(t, scan, o, STOP, STOP_KINDS, t[o.id].slTrigger);
  }

  lemma TriggerTakenIs(t: Orders, scan: seq<string>, o: Order, kinds: seq<string>, kindSet: set<string>,
                       before: Option<real>)
    requires forall kind :: kind in kinds <==> kind in kindSet
    ensures TriggerTaken(t, scan, o, kinds, before, Coalesce(LastTrigger(t, scan, o.positionId, o.id, kindSet), before))
  {
    var trigger := LastTrigger(t, scan, o.positionId, o.id, kindSet);
    forall x ensures LastShows(t, scan, o.positionId, o.id, kinds, x) <==> trigger == Some(x) {
      LastShowsIs(t, scan, o.positionId, o.id, kinds, kindSet, x);
    }
    if trigger.Some? { assert LastShows(t, scan, o.positionId, o.id, kinds, trigger.value); }
  }

  /** Row i of the scan is the first of the position that is not reduce-only. */
  ghost predicate FirstOf(t: Orders, scan: seq<string>, positionId: string, i: int) {
    && 0 <= i < |scan| && scan[i] in t && t[scan[i]].positionId == positionId && !t[scan[i]].reduceOnly
    && forall j :: 0 <= j < i && scan[j] in t && t[scan[j]].positionId == positionId ==> t[scan[j]].reduceOnly
  }

  lemma {:induction false} FirstEntryIsFirst(t: Orders, scan: seq<string>, positionId: string, i: int)
    requires FirstOf(t, scan, positionId, i)
    ensures FirstEntry(t, scan, positionId) == Some(scan[i])
  {
    if i > 0 {
      assert scan[0] in t && t[scan[0]].positionId == positionId ==> t[scan[0]].reduceOnly;
      assert forall j :: 0 <= j < i - 1 ==> scan[1..][j] == scan[j + 1];
      FirstEntryIsFirst(t, scan[1..], positionId, i - 1);
    }
  }

  /** A stop or target order that arrives reaches the entry order of its position: once its row is written, with a
      stop price, that order's trigger is known. */
  lemma ChildReachesParent(t: Orders, o: Order, env: Env, i: int)
    requires o.reduceOnly && o.positionId != "" && o.stopPrice != 0.0 && o.kind in PROFIT + STOP && o.id in env.scan
    requires o.id !in t || Stamp(o, env.now) >= t[o.id].updatedAt
    requires FirstOf(Upsert(t, o, env.now), env.scan, o.positionId, i) && env.scan[i] in t
    requires t[env.scan[i]].kind == "market" || t[env.scan[i]].kind == "limit"
    ensures var parent := env.scan[i];
      && parent in UpdateTable(t, o, env)
      && (o.kind in PROFIT ==> UpdateTable(t, o, env)[parent].tpTrigger.Some?)
      && (o.kind in STOP ==> UpdateTable(t, o, env)[parent].slTrigger.Some?)
  {
    var upserted, parent := Upsert(t, o, env.now), env.scan[i];
    KindsAre(o.kind);
    FirstEntryIsFirst(upserted, env.scan, o.positionId, i);
    assert Enriched(upserted, env, o) == upserted;
    if o.kind in PROFIT { TriggerFound(upserted, env.scan, o.positionId, parent, PROFIT_KINDS, o.id); }
    if o.kind in STOP { TriggerFound(upserted, env.scan, o.positionId, parent, STOP_KINDS, o.id); }
  }

  lemma TriggerFound(t: Orders, scan: seq<string>, positionId: string, parent: string, kinds: set<string>, id: string)
    requires id in scan && Triggers(t, id, positionId, parent, kinds)
    ensures LastTrigger(t, scan, positionId, parent, kinds).Some?
  {
    TriggerIsLastChilds(t, scan, positionId, parent, kinds);
  }
}
