/**
 The order lifecycle table and the two tables behind it, orders and fills of one account,
 with the statements that write them. A table maps an exchange id to its row.
 */
module OrderTable {
  import opened Numerics

  // ---------- status lifecycle ----------

  datatype Status = New | PartiallyFilled | Filled | Canceled | Expired | Rejected | Other(name: string)

  predicate Active(s: Status) { s.New? || s.PartiallyFilled? }

  predicate Terminal(s: Status) { s.Filled? || s.Canceled? || s.Expired? || s.Rejected? }

  function Successors(s: Status): set<Status> {
    match s
    case New => {PartiallyFilled, Filled, Canceled, Expired, Rejected}
    case PartiallyFilled => {Filled, Canceled}
    case _ => {}
  }

  predicate ValidTransition(current: Status, target: Status) { target in Successors(current) }

  predicate Follows(before: Status, after: Status) { after == before || ValidTransition(before, after) }

  /** Transitions compose: two steps forward are one step forward or none. */
  lemma FollowsTransitive(a: Status, b: Status, c: Status)
    requires Follows(a, b) && Follows(b, c)
    ensures Follows(a, c)
  {
  }

  /** Finished orders have nowhere to go, and every way out of the active states but one finishes the order. */
  lemma TerminalIsFinal(s: Status, target: Status)
    ensures Terminal(s) ==> !ValidTransition(s, target)
    ensures ValidTransition(s, target) ==> Active(s) && (Terminal(target) || (s.New? && target.PartiallyFilled?))
  {
  }

  /** A new order may go anywhere but back to new, a part-filled one only be filled or canceled. */
  lemma TransitionsAre(s: Status, target: Status)
    ensures ValidTransition(s, target)
       <==> (s == New && (Active(target) || Terminal(target)) && target != New)
            || (s == PartiallyFilled && (target == Filled || target == Canceled))
    ensures Active(s) || Terminal(s) || s.Other?
  {
  }

  // ---------- rows ----------

  /** An order as an adapter reports it; `updatedAt` is None when the report has no such key. `kind` is lower-cased. */
  datatype Order = Order(id: string, symbol: string, side: string, kind: string, status: Status,
                         price: real, stopPrice: real, quantity: real, filledQty: real, avgFillPrice: real,
                         reduceOnly: bool, positionId: string, createdAt: int, updatedAt: Option<int>)

  datatype Row = Row(symbol: string, side: string, kind: string, status: Status,
                     price: real, stopPrice: real, quantity: real, filledQty: real, avgFillPrice: real,
                     reduceOnly: bool, positionId: string, createdAt: int, updatedAt: int,
                     calcId: Option<string>, tpTrigger: Option<real>, slTrigger: Option<real>)

  datatype Fill = Fill(id: string, orderId: string, price: real, quantity: real, fee: real, pnl: real,
                       isClose: bool, time: int)

  datatype FillRow = FillRow(orderId: string, price: real, quantity: real, fee: real, pnl: real, isClose: bool,
                             time: int, calcId: Option<string>)

  type Orders = map<string, Row>
  type Fills = map<string, FillRow>

  datatype Store = Store(orders: Orders, fills: Fills)

  function At(t: Orders, id: string): Option<Row> { if id in t then Some(t[id]) else None }

  // ---------- order upserts ----------

  function Stamp(o: Order, now: int): int { if o.updatedAt.Some? then o.updatedAt.value else now }

  function Inserted(o: Order, now: int): Row {
    Row(o.symbol, o.side, o.kind, o.status, o.price, o.stopPrice, o.quantity, o.filledQty, o.avgFillPrice,
        o.reduceOnly, o.positionId, o.createdAt, Stamp(o, now), None, None, None)
  }

  /** On conflict the symbol, the side, the creation time and what enrichment wrote stay. */
  function Overwritten(r: Row, o: Order, now: int): Row {
    Inserted(o, now).(symbol := r.symbol, side := r.side, createdAt := r.createdAt,
                      calcId := r.calcId, tpTrigger := r.tpTrigger, slTrigger := r.slTrigger)
  }

  function UpsertRow(r: Option<Row>, o: Order, now: int): Row {
    if r.None? then Inserted(o, now)
    else if Stamp(o, now) >= r.value.updatedAt then Overwritten(r.value, o, now)
    else r.value
  }

  function Upsert(t: Orders, o: Order, now: int): Orders { t[o.id := UpsertRow(At(t, o.id), o, now)] }

  function UpsertBatch(t: Orders, orders: seq<Order>, now: int): Orders {
    if orders == [] then t
    else Upsert(UpsertBatch(t, orders[..|orders| - 1], now), orders[|orders| - 1], now)
  }

  /** What a batch does to one id depends on that id's row and on the orders naming it only. */
  function FoldAt(r: Option<Row>, orders: seq<Order>, id: string, now: int): Option<Row> {
    if orders == [] then r
    else
      var before, o := FoldAt(r, orders[..|orders| - 1], id, now), orders[|orders| - 1];
      if o.id == id then Some(UpsertRow(before, o, now)) else before
  }

  lemma {:induction false} BatchIsLocal(t: Orders, orders: seq<Order>, id: string, now: int)
    ensures At(UpsertBatch(t, orders, now), id) == FoldAt(At(t, id), orders, id, now)
  {
    if orders != [] {
      BatchIsLocal(t, orders[..|orders| - 1], id, now);
    }
  }

  /** A row after a report of it: as it was if it has seen newer; else the report's, stamped with its time or else the
      clock, but for the symbol, the side, the creation time and what enrichment wrote, which stay once there. */
  lemma UpsertOutcome(t: Orders, o: Order, now: int)
    ensures var after, stamp := UpsertBatch(t, [o], now), if o.updatedAt == None then now else o.updatedAt.value;
      && after.Keys == t.Keys + {o.id} && (forall id :: id in t && id != o.id ==> after[id] == t[id])
      && if o.id in t && stamp < t[o.id].updatedAt then after == t else Reported(At(t, o.id), o, stamp, after[o.id])
  {
    assert [o][..0] == [];
    assert UpsertBatch(t, [], now) == t;
  }

  predicate Reported(before: Option<Row>, o: Order, stamp: int, r: Row) {
    && r.kind == o.kind && r.status == o.status && r.price == o.price && r.stopPrice == o.stopPrice
    && r.quantity == o.quantity && r.filledQty == o.filledQty && r.avgFillPrice == o.avgFillPrice
    && r.reduceOnly == o.reduceOnly && r.positionId == o.positionId && r.updatedAt == stamp
    && match before
       case None =>
         && r.symbol == o.symbol && r.side == o.side && r.createdAt == o.createdAt
         && r.calcId == None && r.tpTrigger == None && r.slTrigger == None
       case Some(b) =>
         && r.symbol == b.symbol && r.side == b.side && r.createdAt == b.createdAt
         && r.calcId == b.calcId && r.tpTrigger == b.tpTrigger && r.slTrigger == b.slTrigger
  }

  ghost predicate Distinct(orders: seq<Order>) {
    forall i, j :: 0 <= i < j < |orders| ==> orders[i].id != orders[j].id
  }

  lemma {:induction false} UnnamedStays(r: Option<Row>, orders: seq<Order>, id: string, now: int)
    requires forall i :: 0 <= i < |orders| ==> orders[i].id != id
    ensures FoldAt(r, orders, id, now) == r
  {
    if orders != [] { UnnamedStays(r, orders[..|orders| - 1], id, now); }
  }

  lemma {:induction false} NamedOnce(r: Option<Row>, orders: seq<Order>, k: nat, now: int)
    requires Distinct(orders) && k < |orders|
    ensures FoldAt(r, orders, orders[k].id, now) == Some(UpsertRow(r, orders[k], now))
  {
    var n := |orders| - 1;
    if k == n {
      UnnamedStays(r, orders[..n], orders[k].id, now);
    } else {
      NamedOnce(r, orders[..n], k, now);
    }
  }

  // ---------- the stale sweep ----------

  /** `LIKE 'algo:%'` ignores the case of ASCII letters. */
  predicate IsAlgo(id: string) {
    |id| >= 5 && id[0] in "aA" && id[1] in "lL" && id[2] in "gG" && id[3] in "oO" && id[4] == ':'
  }

  function Lower(c: char): char {
    if 'A' <= c <= 'Z' then ((c as int) + 32) as char else c
  }

  /** The ids that read "algo:" in front, whatever their case. */
  lemma AlgoPrefix(id: string)
    ensures IsAlgo(id)
       <==> |id| >= 5 && [Lower(id[0]), Lower(id[1]), Lower(id[2]), Lower(id[3]), id[4]] == ['a', 'l', 'g', 'o', ':']
  {
  }

  datatype Scope = Basic | Algo

  predicate InScope(id: string, scope: Scope) { scope.Algo? == IsAlgo(id) }

  /** The rows a sweep cancels: active, in scope and not among the ids seen. */
  predicate Stale(id: string, r: Row, seen: seq<string>, scope: Scope) {
    Active(r.status) && InScope(id, scope) && id !in seen
  }

  function SweptRow(id: string, r: Row, seen: seq<string>, scope: Scope, now: int): Row {
    if Stale(id, r, seen, scope) then r.(status := Canceled, updatedAt := now) else r
  }

  function Swept(t: Orders, seen: seq<string>, allowAll: bool, scope: Scope, now: int): Orders {
    if seen == [] && !allowAll then t
    else map id | id in t :: SweptRow(id, t[id], seen, scope, now)
  }

  function ChangedStatus(before: Orders, after: Orders): set<string> {
    set id | id in before && id in after && before[id].status != after[id].status
  }

  /** A sweep that runs changes the status of exactly the stale rows; one that is skipped changes none. */
  lemma SweptChangesStale(t: Orders, seen: seq<string>, allowAll: bool, scope: Scope, now: int)
    ensures ChangedStatus(t, Swept(t, seen, allowAll, scope, now))
         == if seen == [] && !allowAll then {} else set id | id in t && Stale(id, t[id], seen, scope)
  {
  }

  // ---------- fills ----------

  /** On conflict the order named, the closing flag and the link stay. */
  function UpsertedFill(r: Option<FillRow>, f: Fill): FillRow {
    if r.None? then FillRow(f.orderId, f.price, f.quantity, f.fee, f.pnl, f.isClose, f.time, None)
    else r.value.(price := f.price, quantity := f.quantity, fee := f.fee, pnl := f.pnl, time := f.time)
  }

  /** The running average and quantity of the parent order; a division by zero fails the statement. */
  function WithFill(r: Row, price: real, quantity: real, now: int): Row {
    if r.filledQty == 0.0 then r.(avgFillPrice := price, filledQty := quantity, updatedAt := now)
    else if r.filledQty + quantity == 0.0 then r
    else r.(avgFillPrice := (r.avgFillPrice * r.filledQty + price * quantity) / (r.filledQty + quantity),
            filledQty := r.filledQty + quantity, updatedAt := now)
  }

  function FillAt(t: Fills, id: string): Option<FillRow> { if id in t then Some(t[id]) else None }

  function WithFillUpserted(s: Store, f: Fill, now: int): Store {
    Store(if f.orderId != "" && f.orderId in s.orders
          then s.orders[f.orderId := WithFill(s.orders[f.orderId], f.price, f.quantity, now)] else s.orders,
          s.fills[f.id := UpsertedFill(FillAt(s.fills, f.id), f)])
  }

  /** A fill's row after it arrives: the order it names, its closing flag and its link stay from the first arrival. */
  lemma FillOutcome(s: Store, f: Fill, now: int)
    ensures var after := WithFillUpserted(s, f, now);
      && after.fills.Keys == s.fills.Keys + {f.id}
      && (forall id :: id in s.fills && id != f.id ==> after.fills[id] == s.fills[id])
      && var r := after.fills[f.id];
        && r.price == f.price && r.quantity == f.quantity && r.fee == f.fee && r.pnl == f.pnl && r.time == f.time
        && (f.id !in s.fills ==> r.orderId == f.orderId && r.isClose == f.isClose && r.calcId == None)
        && (f.id in s.fills ==> r.orderId == s.fills[f.id].orderId && r.isClose == s.fills[f.id].isClose
                                && r.calcId == s.fills[f.id].calcId)
  {
  }

  /** Its order, if it names one in the table: the quantities add up, the average is weighted with them, and the clock
      is stamped; where the sum is zero the statement fails and nothing changes. No other column, and no other order. */
  lemma FilledOutcome(s: Store, f: Fill, now: int)
    ensures var after := WithFillUpserted(s, f, now).orders;
      && after.Keys == s.orders.Keys && (forall id :: id in s.orders && id != f.orderId ==> after[id] == s.orders[id])
      && (f.orderId == "" ==> after == s.orders)
      && (f.orderId != "" && f.orderId in s.orders ==>
            FilledBy(s.orders[f.orderId], f.price, f.quantity, now, after[f.orderId]))
  {
    if f.orderId != "" && f.orderId in s.orders { WithFillIs(s.orders[f.orderId], f.price, f.quantity, now); }
  }

  predicate FilledBy(r: Row, price: real, quantity: real, now: int, q: Row) {
    if r.filledQty != 0.0 && r.filledQty + quantity == 0.0 then q == r
    else
      && q == r.(filledQty := q.filledQty, avgFillPrice := q.avgFillPrice, updatedAt := now)
      && q.filledQty == r.filledQty + quantity
      && (r.filledQty == 0.0 ==> q.avgFillPrice == price)
      && q.avgFillPrice * q.filledQty == r.avgFillPrice * r.filledQty + price * quantity
  }

  lemma WithFillIs(r: Row, price: real, quantity: real, now: int)
    ensures FilledBy(r, price, quantity, now, WithFill(r, price, quantity, now))
  {
    if r.filledQty + quantity != 0.0 {
      DivideBack(r.avgFillPrice * r.filledQty + price * quantity, r.filledQty + quantity);
    }
  }

  // ---------- reads ----------

  type Listed = (string, Row)

  /** A result of the open-orders query: each active row once, newest creation first; ties in any order. */
  ghost predicate Listing(rows: seq<Listed>, t: Orders) {
    && (forall i :: 0 <= i < |rows| ==> rows[i].0 in t && rows[i].1 == t[rows[i].0] && Active(rows[i].1.status))
    && (forall i, j :: 0 <= i < j < |rows| ==> rows[i].0 != rows[j].0)
    && (forall i, j :: 0 <= i < j < |rows| ==> rows[i].1.createdAt >= rows[j].1.createdAt)
    && (forall id :: id in t && Active(t[id].status) ==> exists i :: 0 <= i < |rows| && rows[i].0 == id)
  }

  function ActiveStatuses(t: Orders): map<string, Status> {
    map id | id in t && Active(t[id].status) :: t[id].status
  }

  /** The ids and statuses a listing shows. */
  function Shown(rows: seq<Listed>): map<string, Status> {
    if rows == [] then map[]
    else Shown(rows[..|rows| - 1])[rows[|rows| - 1].0 := rows[|rows| - 1].1.status]
  }

  lemma {:induction false} ShownHolds(rows: seq<Listed>, t: Orders)
    requires forall i :: 0 <= i < |rows| ==> rows[i].0 in t && rows[i].1 == t[rows[i].0]
    ensures forall id :: id in Shown(rows) <==> exists i :: 0 <= i < |rows| && rows[i].0 == id
    ensures forall id :: id in Shown(rows) ==> id in t && Shown(rows)[id] == t[id].status
  {
    if rows != [] {
      var n := |rows| - 1;
      ShownHolds(rows[..n], t);
      forall id ensures id in Shown(rows) <==> exists i :: 0 <= i < |rows| && rows[i].0 == id {
        if id in Shown(rows[..n]) {
          var i :| 0 <= i < n && rows[..n][i].0 == id;
          assert rows[i].0 == id;
        }
        if exists i :: 0 <= i < n && rows[i].0 == id {
          var i :| 0 <= i < n && rows[i].0 == id;
          assert rows[..n][i].0 == id;
        }
      }
    }
  }

  lemma ListingShowsActive(rows: seq<Listed>, t: Orders)
    requires Listing(rows, t)
    ensures Shown(rows) == ActiveStatuses(t)
  {
    ShownHolds(rows, t);
  }

  // ---------- the database object ----------

  lemma {:induction false} NewestExists(ids: set<string>, t: Orders)
    requires ids != {} && ids <= t.Keys
    ensures exists id :: id in ids && forall other :: other in ids ==> t[other].createdAt <= t[id].createdAt
    decreases |ids|
  {
    var one :| one in ids;
    var rest := ids - {one};
    if rest != {} {
      NewestExists(rest, t);
      var best :| best in rest && forall other :: other in rest ==> t[other].createdAt <= t[best].createdAt;
      var top := if t[one].createdAt > t[best].createdAt then one else best;
      assert forall other :: other in ids ==> other == one || other in rest;
      assert top in ids && forall other :: other in ids ==> t[other].createdAt <= t[top].createdAt;
    } else {
      assert ids == {one};
    }
  }

  ghost function Without(t: Orders, left: set<string>): Orders { map id | id in t && id !in left :: t[id] }

  /** What is still to be listed is active and no newer than what has been. */
  ghost predicate Ahead(rows: seq<Listed>, left: set<string>, t: Orders) {
    && (forall id :: id in left ==> id in t && Active(t[id].status))
    && (forall i, id :: 0 <= i < |rows| && id in left ==> rows[i].1.createdAt >= t[id].createdAt)
  }

  lemma ListingGrows(rows: seq<Listed>, left: set<string>, t: Orders, id: string)
    requires Ahead(rows, left, t) && Listing(rows, Without(t, left))
    requires id in left && forall other :: other in left ==> t[other].createdAt <= t[id].createdAt
    ensures Listing(rows + [(id, t[id])], Without(t, left - {id})) && Ahead(rows + [(id, t[id])], left - {id}, t)
  {
    var more, rest := rows + [(id, t[id])], Without(t, left - {id});
    assert more[|rows|].0 == id;
    forall other | other in rest && Active(rest[other].status)
      ensures exists i :: 0 <= i < |more| && more[i].0 == other
    {
      if other != id {
        assert other in Without(t, left);
        var i :| 0 <= i < |rows| && rows[i].0 == other;
        assert more[i].0 == other;
      }
    }
  }

  class OrderDb {
    var orders: Orders
    var fills: Fills

    constructor (orders: Orders, fills: Fills)
      ensures this.orders == orders && this.fills == fills
    {
      this.orders, this.fills := orders, fills;
    }

    function State(): Store
      reads this
    {
      Store(orders, fills)
    }

    method UpsertOrderBatch(rows: seq<Order>, now: int)
      modifies this`orders
      ensures orders == UpsertBatch(old(orders), rows, now)
    {
      for i := 0 to |rows|
        invariant orders == UpsertBatch(old(orders), rows[..i], now)
      {
        assert rows[..i + 1][..i] == rows[..i];
        orders := orders[rows[i].id := UpsertRow(At(orders, rows[i].id), rows[i], now)];
      }
      assert rows[..|rows|] == rows;
    }

    /** Cancels exactly the stale rows, unless nothing was seen and cancelling all is not allowed; counts them. */
    method MarkStaleOrdersCanceled(seen: seq<string>, allowAll: bool, scope: Scope, now: int) returns (count: nat)
      modifies this`orders
      ensures orders == Swept(old(orders), seen, allowAll, scope, now)
      ensures count == |ChangedStatus(old(orders), orders)|
    {
      SweptChangesStale(orders, seen, allowAll, scope, now);
      if seen == [] && !allowAll {
        return 0;
      }
      count := |set id | id in orders && Stale(id, orders[id], seen, scope)|;
      orders := map id | id in orders ::
        if Stale(id, orders[id], seen, scope) then orders[id].(status := Canceled, updatedAt := now) else orders[id];
    }

    method UpsertFillAndUpdateOrder(f: Fill, now: int)
      modifies this
      ensures State() == WithFillUpserted(old(State()), f, now)
    {
      fills := fills[f.id := UpsertedFill(FillAt(fills, f.id), f)];
      if f.orderId != "" && f.orderId in orders {
        orders := orders[f.orderId := WithFill(orders[f.orderId], f.price, f.quantity, now)];
      }
    }

    method GetActiveOrdersMap() returns (active: Orders)
      ensures forall id :: id in active <==> id != "" && id in orders && Active(orders[id].status)
      ensures forall id :: id in active ==> active[id] == orders[id]
    {
      active := map id | id in orders && Active(orders[id].status) && id != "" :: orders[id];
    }

    method QueryOpenOrdersAll() returns (rows: seq<Listed>)
      ensures Listing(rows, orders)
    {
      rows := [];
      var left := set id | id in orders && Active(orders[id].status);
      while left != {}
        invariant Listing(rows, Without(orders, left)) && Ahead(rows, left, orders)
        decreases |left|
      {
        NewestExists(left, orders);
        var id :| id in left && forall other :: other in left ==> orders[other].createdAt <= orders[id].createdAt;
        ListingGrows(rows, left, orders, id);
        rows := rows + [(id, orders[id])];
        left := left - {id};
      }
      assert Without(orders, left) == orders;
    }
  }
}
