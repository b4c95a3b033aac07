/** The calls that change the order and fill tables of an account, and the cache of open orders beside them. */
module OrderManager {
  import opened Numerics
  import opened OrderTable
  import opened CalcLinks

  // ---------- what each call does ----------

  /** Only a transition of an order that is active now, under a non-empty id, is validated. */
  predicate Accepts(t: Orders, o: Order) {
    o.id != "" && o.id in t && Active(t[o.id].status) ==> ValidTransition(t[o.id].status, o.status)
  }

  function Accepted(t: Orders, orders: seq<Order>): seq<Order> {
    if orders == [] then []
    else
      var before, o := Accepted(t, orders[..|orders| - 1]), orders[|orders| - 1];
      if Accepts(t, o) then before + [o] else before
  }

  /** The non-empty ids of a snapshot. */
  function Ids(orders: seq<Order>): seq<string> {
    if orders == [] then []
    else
      var before, o := Ids(orders[..|orders| - 1]), orders[|orders| - 1];
      if o.id != "" then before + [o.id] else before
  }

  function BasicTable(t: Orders, orders: seq<Order>, now: int): Orders {
    Swept(UpsertBatch(t, Accepted(t, orders), now), Ids(orders), orders != [] && Ids(orders) == [], Basic, now)
  }

  function AlgoTable(t: Orders, orders: seq<Order>, now: int): Orders {
    Swept(UpsertBatch(t, orders, now), Ids(orders), orders == [], Algo, now)
  }

  function UpdateTable(t: Orders, o: Order, env: Env): Orders {
    ParentEnriched(Enriched(Upsert(t, o, env.now), env, o), env, o)
  }

  /** The tables, and the ids and statuses the cache shows. */
  datatype State = State(store: Store, shown: map<string, Status>)

  datatype Call =
    | BasicSnapshot(orders: seq<Order>, now: int)
    | AlgoSnapshot(orders: seq<Order>, now: int)
    | Update(order: Order, env: Env)
    | FillArrives(fill: Fill, now: int)
    | Confirm(id: string, link: string)
    | Refresh

  function StoreAfter(s: Store, c: Call): Store {
    match c
    case BasicSnapshot(orders, now) => s.(orders := BasicTable(s.orders, orders, now))
    case AlgoSnapshot(orders, now) => s.(orders := AlgoTable(s.orders, orders, now))
    case Update(o, env) => if Accepts(s.orders, o) then s.(orders := UpdateTable(s.orders, o, env)) else s
    case FillArrives(f, now) => Propagated(WithFillUpserted(s, f, now), f)
    case Confirm(id, link) => Confirmed(s, id, link)
    case Refresh => s
  }

  /** Empty basic snapshots on an empty cache, rejected updates, fills and confirmations leave the cache alone. */
  predicate Refreshes(s: State, c: Call) {
    match c
    case BasicSnapshot(orders, _) => orders != [] || s.shown != map[]
    case AlgoSnapshot(_, _) => true
    case Update(o, _) => Accepts(s.store.orders, o)
    case FillArrives(_, _) => false
    case Confirm(_, _) => false
    case Refresh => true
  }

  function Step(s: State, c: Call): State {
    var store := StoreAfter(s.store, c);
    State(store, if Refreshes(s, c) then ActiveStatuses(store.orders) else s.shown)
  }

  function Run(s: State, calls: seq<Call>): State {
    if calls == [] then s else Step(Run(s, calls[..|calls| - 1]), calls[|calls| - 1])
  }

  lemma EmptySnapshotChangesNothing(t: Orders, now: int)
    ensures BasicTable(t, [], now) == t
  {
  }

  lemma {:induction false} ShownEmpty(rows: seq<Listed>)
    ensures Shown(rows) == map[] <==> rows == []
  {
    if rows != [] {
      assert rows[|rows| - 1].0 in Shown(rows);
    }
  }

  // ---------- the manager ----------

  class Manager {
    const db: OrderDb
    var openOrders: seq<Listed>

    constructor (db: OrderDb)
      ensures this.db == db && openOrders == []
    {
      this.db, openOrders := db, [];
    }

    function View(): State
      reads this, db
    {
      State(db.State(), Shown(openOrders))
    }

    method RefreshCache()
      modifies this`openOrders
      ensures Listing(openOrders, db.orders)
      ensures View() == Step(old(View()), Refresh)
    {
      openOrders := db.QueryOpenOrdersAll();
      ListingShowsActive(openOrders, db.orders);
    }

    /** Drops the orders whose transition from an active row is not in the table. */
    static method Validated(orders: seq<Order>, existing: Orders, ghost t: Orders) returns (valid: seq<Order>)
      requires forall id :: id in existing <==> id != "" && id in t && Active(t[id].status)
      requires forall id :: id in existing ==> existing[id] == t[id]
      ensures valid == Accepted(t, orders)
    {
      valid := [];
      for i := 0 to |orders|
        invariant valid == Accepted(t, orders[..i])
      {
        assert orders[..i + 1][..i] == orders[..i];
        var o := orders[i];
        if o.id != "" && o.id in existing {
          if !ValidTransition(existing[o.id].status, o.status) { continue; }
        }
        valid := valid + [o];
      }
      assert orders[..|orders|] == orders;
    }

    method ProcessOrderSnapshot(orders: seq<Order>, now: int)
      modifies this`openOrders, db
      ensures View() == Step(old(View()), BasicSnapshot(orders, now))
      ensures Refreshes(old(View()), BasicSnapshot(orders, now)) ==> Listing(openOrders, db.orders)
    {
      ShownEmpty(openOrders);
      if orders == [] && openOrders == [] {
        EmptySnapshotChangesNothing(db.orders, now);
        return;
      }
      WriteBasic(orders, now);
      RefreshCache();
    }

    method WriteBasic(orders: seq<Order>, now: int)
      modifies db`orders
      ensures db.orders == BasicTable(old(db.orders), orders, now)
    {
      var existing := db.GetActiveOrdersMap();
      var valid := Validated(orders, existing, db.orders);
      db.UpsertOrderBatch(valid, now);
      var _ := db.MarkStaleOrdersCanceled(Ids(orders), orders != [] && Ids(orders) == [], Basic, now);
    }

    method ProcessAlgoSnapshot(orders: seq<Order>, now: int)
      modifies this`openOrders, db
      ensures View() == Step(old(View()), AlgoSnapshot(orders, now))
      ensures Listing(openOrders, db.orders)
    {
      db.UpsertOrderBatch(orders, now);
      var _ := db.MarkStaleOrdersCanceled(Ids(orders), orders == [], Algo, now);
      RefreshCache();
    }

    method ProcessOrderUpdate(o: Order, env: Env) returns (accepted: bool)
      modifies this`openOrders, db
      ensures View() == Step(old(View()), Update(o, env))
      ensures accepted == Accepts(old(db.orders), o)
      ensures accepted ==> Listing(openOrders, db.orders)
    {
      if o.id != "" {
        var existing := db.GetActiveOrdersMap();
        if o.id in existing && !ValidTransition(existing[o.id].status, o.status) {
          return false;
        }
      }
      db.UpsertOrderBatch([o], env.now);
      assert [o][..0] == [];
      EnrichOrder(db, env, o);
      ReEnrichParent(db, env, o);
      RefreshCache();
      return true;
    }

    method ProcessFill(f: Fill, now: int)
      modifies db
      ensures View() == Step(old(View()), FillArrives(f, now))
    {
      db.UpsertFillAndUpdateOrder(f, now);
      PropagateCalcIdToFill(db, f);
    }
  }
}
