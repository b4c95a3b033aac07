/** What runs of the order manager keep: the status lifecycle, the scopes of the two snapshots, the cache. */
module OrderProtocol {
  import opened Numerics
  import opened OrderTable
  import opened CalcLinks
  import opened OrderManager

  // ---------- one id at a time ----------

  lemma {:induction false} AcceptedAccepts(t: Orders, orders: seq<Order>)
    ensures forall i :: 0 <= i < |Accepted(t, orders)| ==>
      Accepts(t, Accepted(t, orders)[i]) && Accepted(t, orders)[i] in orders
  {
    if orders != [] {
      AcceptedAccepts(t, orders[..|orders| - 1]);
    }
  }

  lemma {:induction false} IdsAre(orders: seq<Order>)
    ensures forall id :: id in Ids(orders) <==> id != "" && exists i :: 0 <= i < |orders| && orders[i].id == id
  {
    if orders != [] {
      var n := |orders| - 1;
      IdsAre(orders[..n]);
      forall id ensures id in Ids(orders) <==> id != "" && exists i :: 0 <= i < |orders| && orders[i].id == id {
        if id in Ids(orders[..n]) {
          var i :| 0 <= i < n && orders[..n][i].id == id;
          assert orders[i].id == id;
        }
        if id != "" && exists i :: 0 <= i < n && orders[i].id == id {
          var i :| 0 <= i < n && orders[i].id == id;
          assert orders[..n][i].id == id;
        }
      }
    }
  }

  function SweptAt(r: Option<Row>, id: string, seen: seq<string>, allowAll: bool, scope: Scope, now: int): Option<Row> {
    if (seen == [] && !allowAll) || r.None? || !Stale(id, r.value, seen, scope) then r
    else Some(r.value.(status := Canceled, updatedAt := now))
  }

  lemma SweepIsLocal(t: Orders, id: string, seen: seq<string>, allowAll: bool, scope: Scope, now: int)
    ensures At(Swept(t, seen, allowAll, scope, now), id) == SweptAt(At(t, id), id, seen, allowAll, scope, now)
  {
  }

  lemma SnapshotsAt(t: Orders, orders: seq<Order>, id: string, now: int)
    ensures At(BasicTable(t, orders, now), id)
         == SweptAt(FoldAt(At(t, id), Accepted(t, orders), id, now), id, Ids(orders),
                    orders != [] && Ids(orders) == [], Basic, now)
    ensures At(AlgoTable(t, orders, now), id)
         == SweptAt(FoldAt(At(t, id), orders, id, now), id, Ids(orders), orders == [], Algo, now)
  {
    BatchIsLocal(t, Accepted(t, orders), id, now);
    BatchIsLocal(t, orders, id, now);
    SweepIsLocal(UpsertBatch(t, Accepted(t, orders), now), id, Ids(orders),
                 orders != [] && Ids(orders) == [], Basic, now);
    SweepIsLocal(UpsertBatch(t, orders, now), id, Ids(orders), orders == [], Algo, now);
  }

  // ---------- transitions ----------

  /** Folding orders that may follow a status leaves a status that follows it, even when several name one id. */
  lemma {:induction false} FoldFollows(r: Row, orders: seq<Order>, id: string, now: int)
    requires forall i :: 0 <= i < |orders| && orders[i].id == id ==> Follows(r.status, orders[i].status)
    ensures FoldAt(Some(r), orders, id, now).Some? && Follows(r.status, FoldAt(Some(r), orders, id, now).value.status)
  {
    if orders != [] {
      FoldFollows(r, orders[..|orders| - 1], id, now);
    }
  }

  /** A basic snapshot moves an active order, if at all, along a valid transition; the sweep included. */
  lemma BasicFollowsTransitions(t: Orders, orders: seq<Order>, now: int, id: string)
    requires id != "" && id in t && Active(t[id].status)
    ensures var after := BasicTable(t, orders, now);
      id in after && Follows(t[id].status, after[id].status)
  {
    var valid := Accepted(t, orders);
    AcceptedAccepts(t, orders);
    FoldFollows(t[id], valid, id, now);
    SnapshotsAt(t, orders, id, now);
  }

  /** Inside one batch of distinct ids no write moves an order that was active off the transition table. */
  lemma WritesFollow(t: Orders, orders: seq<Order>, now: int, j: nat)
    requires Distinct(Accepted(t, orders)) && j < |Accepted(t, orders)|
    ensures var valid := Accepted(t, orders);
      var id, before, after := valid[j].id, UpsertBatch(t, valid[..j], now), UpsertBatch(t, valid[..j + 1], now);
      id != "" && id in t && Active(t[id].status) ==>
        At(before, id) == At(t, id) && Follows(t[id].status, after[id].status)
  {
    var valid := Accepted(t, orders);
    AcceptedAccepts(t, orders);
    UnnamedStays(At(t, valid[j].id), valid[..j], valid[j].id, now);
    BatchIsLocal(t, valid[..j], valid[j].id, now);
    assert valid[..j + 1][..j] == valid[..j];
  }

  /** A batch naming an order twice is validated against its row alone, so a write may step back from filled. */
  lemma DuplicateIdsStepBack(t: Orders, id: string, o: Order, now: int)
    requires id != "" && id in t && t[id].status.New? && o.id == id && Stamp(o, now) >= t[id].updatedAt
    ensures var orders := [o.(status := Filled), o.(status := PartiallyFilled)];
      Accepted(t, orders) == orders
      && UpsertBatch(t, orders[..1], now)[id].status == Filled
      && UpsertBatch(t, orders, now)[id].status == PartiallyFilled
  {
    var orders := [o.(status := Filled), o.(status := PartiallyFilled)];
    assert orders[..1][..0] == [];
    assert Accepted(t, orders[..1]) == orders[..1];
  }

  /** Whether a report of a batch is written: nothing its row has seen is newer. */
  ghost predicate Applies(t: Orders, orders: seq<Order>, now: int, j: nat)
    requires j < |orders|
  {
    var o := orders[j];
    && (o.id in t ==> Stamp(o, now) >= t[o.id].updatedAt)
    && forall i :: 0 <= i < j && orders[i].id == o.id ==> Stamp(o, now) >= Stamp(orders[i], now)
  }

  /** Write j of a batch moves its row along a transition or leaves its status. */
  ghost predicate WriteFollows(t: Orders, orders: seq<Order>, now: int, j: nat)
    requires j < |orders|
  {
    var before := At(UpsertBatch(t, orders[..j], now), orders[j].id);
    before.Some? ==> Follows(before.value.status, UpsertRow(before, orders[j], now).status)
  }

  /** Report j, if it is written, follows the last report of its id written before it, or else the stored row. */
  ghost predicate Successive(t: Orders, orders: seq<Order>, now: int, j: nat)
    requires j < |orders|
  {
    var o := orders[j];
    Applies(t, orders, now, j) ==>
      && (o.id in t && NoneApplies(t, orders, now, o.id, 0, j) ==> Follows(t[o.id].status, o.status))
      && (forall i :: 0 <= i < j && LastBefore(t, orders, now, i, j) ==> Follows(orders[i].status, o.status))
  }

  /** Report i is the last one of its id written before report j. */
  ghost predicate LastBefore(t: Orders, orders: seq<Order>, now: int, i: nat, j: nat)
    requires i < j < |orders|
  {
    && orders[i].id == orders[j].id && Applies(t, orders, now, i)
    && NoneApplies(t, orders, now, orders[j].id, i + 1, j)
  }

  ghost predicate NoneApplies(t: Orders, orders: seq<Order>, now: int, id: string, lo: nat, hi: nat)
    requires hi <= |orders|
  {
    forall k :: lo <= k < hi && orders[k].id == id ==> !Applies(t, orders, now, k)
  }

  /** Report i is the last one of an id that is written. */
  ghost predicate WritesLast(t: Orders, reports: seq<Order>, now: int, id: string, i: nat) {
    && i < |reports| && reports[i].id == id && Applies(t, reports, now, i)
    && NoneApplies(t, reports, now, id, i + 1, |reports|)
  }

  /** After n reports a row is that of the last report written, i, or the stored one when i is -1,
      and nothing it has seen is newer. */
  lemma {:induction false} LastApplied(t: Orders, orders: seq<Order>, now: int, id: string, n: nat) returns (i: int)
    requires n <= |orders|
    ensures -1 <= i < n && NoneApplies(t, orders, now, id, i + 1, n)
    ensures var r := FoldAt(At(t, id), orders[..n], id, now);
      && (i == -1 ==> r == At(t, id))
      && (i >= 0 ==> orders[i].id == id && Applies(t, orders, now, i) && r.Some? && Shows(r.value, orders[i], now))
      && (r.None? ==> forall k :: 0 <= k < n ==> orders[k].id != id)
      && (r.Some? ==> SeenBy(r.value, t, orders, now, id, n))
  {
    if n == 0 {
      i := -1;
    } else {
      i := LastApplied(t, orders, now, id, n - 1);
      assert orders[..n][..n - 1] == orders[..n - 1];
      if orders[n - 1].id == id && Applies(t, orders, now, n - 1) { i := n - 1; }
    }
  }

  predicate Shows(r: Row, o: Order, now: int) {
    && r.status == o.status && r.updatedAt == Stamp(o, now)
    && r.filledQty == o.filledQty && r.avgFillPrice == o.avgFillPrice
  }

  ghost predicate SeenBy(r: Row, t: Orders, orders: seq<Order>, now: int, id: string, n: nat)
    requires n <= |orders|
  {
    && (id in t ==> t[id].updatedAt <= r.updatedAt)
    && forall k :: 0 <= k < n && orders[k].id == id ==> Stamp(orders[k], now) <= r.updatedAt
  }

  lemma WriteFollowsExactlyWhen(t: Orders, orders: seq<Order>, now: int, j: nat)
    requires j < |orders|
    ensures WriteFollows(t, orders, now, j) <==> Successive(t, orders, now, j)
  {
    var id := orders[j].id;
    var i := LastApplied(t, orders, now, id, j);
    BatchIsLocal(t, orders[..j], id, now);
    if i >= 0 {
      OnlyLast(t, orders, now, j, i);
    }
  }

  lemma OnlyLast(t: Orders, orders: seq<Order>, now: int, j: nat, i: nat)
    requires i < j < |orders| && LastBefore(t, orders, now, i, j)
    ensures !NoneApplies(t, orders, now, orders[j].id, 0, j)
    ensures forall k :: 0 <= k < j && LastBefore(t, orders, now, k, j) ==> k == i
  {
  }

  /** Inside a batch every write follows the table if and only if the reports that are written, taken id by id
      and starting from the stored row, follow one another. */
  lemma WritesFollowExactlyWhen(t: Orders, orders: seq<Order>, now: int)
    ensures var valid := Accepted(t, orders);
      (forall j :: 0 <= j < |valid| ==> WriteFollows(t, valid, now, j))
      <==> forall j :: 0 <= j < |valid| ==> Successive(t, valid, now, j)
  {
    var valid := Accepted(t, orders);
    forall j | 0 <= j < |valid| ensures WriteFollows(t, valid, now, j) <==> Successive(t, valid, now, j) {
      WriteFollowsExactlyWhen(t, valid, now, j);
    }
  }

  /** Enrichment writes triggers and links only. */
  ghost predicate SameButLinks(before: Orders, after: Orders) {
    && before.Keys == after.Keys
    && forall id :: id in before ==>
      after[id] == before[id].(calcId := after[id].calcId,
                               tpTrigger := after[id].tpTrigger, slTrigger := after[id].slTrigger)
  }

  lemma EnrichmentKeepsRows(t: Orders, env: Env, o: Order)
    ensures SameButLinks(t, Enriched(t, env, o)) && SameButLinks(t, ParentEnriched(t, env, o))
  {
    EnrichedKeepsRows(t, env, o);
    var parent := FirstEntry(t, env.scan, o.positionId);
    if parent.Some? && parent.value in t {
      EnrichedKeepsRows(t, env, FromRow(parent.value, t[parent.value]));
    }
  }

  lemma EnrichedKeepsRows(t: Orders, env: Env, o: Order)
    ensures SameButLinks(t, Enriched(t, env, o))
  {
    var populated := Populated(t, env.scan, o);
    assert SameButLinks(t, populated);
    assert SameButLinks(populated, Linked(populated, env, o));
  }

  /** A status is what the update's own upsert leaves, whatever enrichment does. */
  lemma UpdateAt(t: Orders, o: Order, env: Env, id: string)
    ensures var after, row := UpdateTable(t, o, env), UpsertRow(At(t, id), o, env.now);
      && (id in after <==> id in t || id == o.id)
      && (id == o.id ==> after[id].status == row.status && after[id].updatedAt == row.updatedAt)
      && (id in t && id != o.id ==> after[id].status == t[id].status && after[id].updatedAt == t[id].updatedAt)
  {
    var upserted := Upsert(t, o, env.now);
    EnrichmentKeepsRows(upserted, env, o);
    EnrichmentKeepsRows(Enriched(upserted, env, o), env, o);
  }

  // ---------- lifecycle over runs ----------

  predicate Known(s: Status) { !s.Other? }

  /** The orders of a call that name an id, with the clock they arrive at. */
  function OrdersOf(c: Call): seq<Order> {
    match c
    case BasicSnapshot(orders, _) => orders
    case AlgoSnapshot(orders, _) => orders
    case Update(o, _) => [o]
    case _ => []
  }

  ghost predicate AlgoIdsOnly(orders: seq<Order>) { forall i :: 0 <= i < |orders| ==> IsAlgo(orders[i].id) }

  ghost predicate BasicIdsOnly(orders: seq<Order>) { forall i :: 0 <= i < |orders| ==> !IsAlgo(orders[i].id) }

  ghost predicate Scoped(c: Call) { c.AlgoSnapshot? ==> AlgoIdsOnly(c.orders) }

  /** Every replay of a finished order carries a time older than its row. */
  ghost predicate Replays(t: Orders, c: Call, id: string) {
    id in t && Terminal(t[id].status) ==>
      forall i :: 0 <= i < |OrdersOf(c)| && OrdersOf(c)[i].id == id ==> Older(OrdersOf(c)[i], t[id])
  }

  predicate Older(o: Order, r: Row) { o.updatedAt.Some? && o.updatedAt.value < r.updatedAt }

  lemma {:induction false} FoldOlder(r: Row, orders: seq<Order>, id: string, now: int)
    requires forall i :: 0 <= i < |orders| && orders[i].id == id ==> Older(orders[i], r)
    ensures FoldAt(Some(r), orders, id, now) == Some(r)
  {
    if orders != [] { FoldOlder(r, orders[..|orders| - 1], id, now); }
  }

  lemma SnapshotKeepsFinished(t: Orders, orders: seq<Order>, now: int, id: string)
    requires id in t && Terminal(t[id].status)
    requires forall i :: 0 <= i < |orders| && orders[i].id == id ==> Older(orders[i], t[id])
    ensures At(BasicTable(t, orders, now), id) == Some(t[id]) && At(AlgoTable(t, orders, now), id) == Some(t[id])
  {
    AcceptedAccepts(t, orders);
    FoldOlder(t[id], Accepted(t, orders), id, now);
    FoldOlder(t[id], orders, id, now);
    SnapshotsAt(t, orders, id, now);
  }

  lemma AlgoLeavesBasic(t: Orders, orders: seq<Order>, now: int, id: string)
    requires AlgoIdsOnly(orders) && !IsAlgo(id)
    ensures At(AlgoTable(t, orders, now), id) == At(t, id)
  {
    UnnamedStays(At(t, id), orders, id, now);
    SnapshotsAt(t, orders, id, now);
  }

  /** One call moves a known basic status forward or not at all. */
  lemma StepFollows(s: Store, c: Call, id: string)
    requires id != "" && !IsAlgo(id) && id in s.orders && Known(s.orders[id].status)
    requires Scoped(c) && Replays(s.orders, c, id)
    ensures var after := StoreAfter(s, c);
      id in after.orders && Follows(s.orders[id].status, after.orders[id].status)
  {
    var t := s.orders;
    match c
    case BasicSnapshot(orders, now) =>
      assert OrdersOf(c) == orders;
      if Active(t[id].status) {
        BasicFollowsTransitions(t, orders, now, id);
      } else {
        SnapshotKeepsFinished(t, orders, now, id);
      }
    case AlgoSnapshot(orders, now) => AlgoLeavesBasic(t, orders, now, id);
    case Update(o, env) =>
      UpdateAt(t, o, env, id);
      assert OrdersOf(c)[0] == o;
    case _ =>
  }

  /** The lifecycle of a basic order over any run: a later status is the earlier one or a valid successor of it.
      So a finished order stays as it finished. */
  lemma {:induction false} LifecycleMovesForward(s: State, calls: seq<Call>, id: string)
    requires id != "" && !IsAlgo(id) && id in s.store.orders && Known(s.store.orders[id].status)
    requires forall i :: 0 <= i < |calls| ==> Scoped(calls[i]) && Replays(Run(s, calls[..i]).store.orders, calls[i], id)
    ensures var after := Run(s, calls).store.orders;
      id in after && Follows(s.store.orders[id].status, after[id].status)
  {
    if calls != [] {
      var n := |calls| - 1;
      forall i | 0 <= i < n
        ensures Scoped(calls[..n][i]) && Replays(Run(s, calls[..n][..i]).store.orders, calls[..n][i], id)
      {
        assert calls[..n][..i] == calls[..i];
      }
      LifecycleMovesForward(s, calls[..n], id);
      StepMovesForward(s.store.orders[id].status, Run(s, calls[..n]).store, calls[n], id);
    }
  }

  lemma StepMovesForward(first: Status, s: Store, c: Call, id: string)
    requires id != "" && !IsAlgo(id) && id in s.orders && Known(first) && Follows(first, s.orders[id].status)
    requires Scoped(c) && Replays(s.orders, c, id)
    ensures id in StoreAfter(s, c).orders && Follows(first, StoreAfter(s, c).orders[id].status)
  {
    StepFollows(s, c, id);
    FollowsTransitive(first, s.orders[id].status, StoreAfter(s, c).orders[id].status);
  }

  /** The last report of an order that is written, if any, repeats its status. */
  ghost predicate Repeats(t: Orders, orders: seq<Order>, now: int, id: string)
    requires id in t
  {
    forall i: nat :: WritesLast(t, orders, now, id, i) ==> orders[i].status == t[id].status
  }

  /** Reports of a finished order are accepted whatever they say, since only active rows are validated. */
  lemma {:induction false} FinishedIsAccepted(t: Orders, orders: seq<Order>, id: string, now: int)
    requires id in t && Terminal(t[id].status)
    ensures FoldAt(At(t, id), Accepted(t, orders), id, now) == FoldAt(At(t, id), orders, id, now)
  {
    if orders != [] {
      FinishedIsAccepted(t, orders[..|orders| - 1], id, now);
      if Accepts(t, orders[|orders| - 1]) { AcceptedNext(t, orders); }
    }
  }

  lemma AcceptedNext(t: Orders, orders: seq<Order>)
    requires orders != [] && Accepts(t, orders[|orders| - 1])
    ensures var valid := Accepted(t, orders);
      valid != [] && valid[..|valid| - 1] == Accepted(t, orders[..|orders| - 1])
  {
  }

  lemma RepeatsIsFold(t: Orders, orders: seq<Order>, now: int, id: string)
    requires id in t
    ensures var r := FoldAt(At(t, id), orders, id, now);
      r.Some? && (r.value.status == t[id].status <==> Repeats(t, orders, now, id))
      && (r.value.status != t[id].status ==> exists i :: 0 <= i < |orders| && orders[i].id == id)
  {
    var i := LastApplied(t, orders, now, id, |orders|);
    assert orders[..|orders|] == orders;
    if i >= 0 {
      assert WritesLast(t, orders, now, id, i);
      OnlyLastWritten(t, orders, now, id, i);
    }
  }

  lemma OnlyLastWritten(t: Orders, orders: seq<Order>, now: int, id: string, i: nat)
    requires WritesLast(t, orders, now, id, i)
    ensures forall k: nat :: WritesLast(t, orders, now, id, k) ==> k == i
  {
  }

  /** A finished order keeps its status through a basic snapshot, however often it is named, exactly when the last
      report of it that is written, if any, repeats its status. */
  lemma FinishedStaysExactlyWhen(t: Orders, orders: seq<Order>, now: int, id: string)
    requires id != "" && id in t && Terminal(t[id].status)
    ensures id in BasicTable(t, orders, now)
    ensures BasicTable(t, orders, now)[id].status == t[id].status <==> Repeats(t, orders, now, id)
  {
    FinishedIsAccepted(t, orders, id, now);
    RepeatsIsFold(t, orders, now, id);
    IdsAre(orders);
    SnapshotsAt(t, orders, id, now);
  }

  /** So it is with single updates: one naming a finished order is accepted whatever it says, since only active rows
      are validated, and the status stays exactly when the update is older than the row or repeats it. */
  lemma FinishedUpdateStaysExactlyWhen(t: Orders, o: Order, env: Env)
    requires o.id in t && Terminal(t[o.id].status)
    ensures Accepts(t, o) && o.id in UpdateTable(t, o, env)
    ensures UpdateTable(t, o, env)[o.id].status == t[o.id].status
       <==> Stamp(o, env.now) < t[o.id].updatedAt || o.status == t[o.id].status
  {
    UpdateAt(t, o, env, o.id);
  }

  /** And with algo snapshots. */
  lemma FinishedAlgoStaysExactlyWhen(t: Orders, orders: seq<Order>, now: int, id: string)
    requires id != "" && id in t && Terminal(t[id].status)
    ensures id in AlgoTable(t, orders, now)
    ensures AlgoTable(t, orders, now)[id].status == t[id].status <==> Repeats(t, orders, now, id)
  {
    RepeatsIsFold(t, orders, now, id);
    IdsAre(orders);
    SnapshotsAt(t, orders, id, now);
  }

  /** A report that arrives without a time, or with a later one, brings a filled order back to new. */
  lemma NewerReplayReopens(now: int)
    ensures var filled := Row("BTCUSDT", "BUY", "limit", Filled, 10.0, 0.0, 1.0, 1.0, 10.0,
                               false, "", 1, now, None, None, None);
      var replay := Order("1", "BTCUSDT", "BUY", "limit", New, 10.0, 0.0, 1.0, 0.0, 0.0, false, "", 1, None);
      BasicTable(map["1" := filled], [replay], now)["1"].status == New
  {
    var filled := Row("BTCUSDT", "BUY", "limit", Filled, 10.0, 0.0, 1.0, 1.0, 10.0,
                      false, "", 1, now, None, None, None);
    var replay := Order("1", "BTCUSDT", "BUY", "limit", New, 10.0, 0.0, 1.0, 0.0, 0.0, false, "", 1, None);
    AcceptedOnce(map["1" := filled], [replay], 0, now);
    IdsAre([replay]);
    assert [replay][0].id == "1";
    SnapshotsAt(map["1" := filled], [replay], "1", now);
  }

  // ---------- what a snapshot leaves ----------

  lemma {:induction false} AcceptedOnce(t: Orders, orders: seq<Order>, k: nat, now: int)
    requires Distinct(orders) && k < |orders|
    ensures FoldAt(At(t, orders[k].id), Accepted(t, orders), orders[k].id, now)
         == if Accepts(t, orders[k]) then Some(UpsertRow(At(t, orders[k].id), orders[k], now)) else At(t, orders[k].id)
  {
    var n := |orders| - 1;
    var init, id := orders[..n], orders[k].id;
    if k == n {
      AcceptedAccepts(t, init);
      UnnamedStays(At(t, id), Accepted(t, init), id, now);
    } else {
      AcceptedOnce(t, init, k, now);
    }
    if Accepts(t, orders[n]) {
      var valid := Accepted(t, orders);
      assert valid[..|valid| - 1] == Accepted(t, init);
    }
  }

  /** The row of a listed order after a snapshot of distinct ids: its report, unless the transition
      is invalid or the row is newer. A listed order is never swept. */
  lemma ListedOutcome(t: Orders, orders: seq<Order>, now: int, k: nat)
    requires Distinct(orders) && k < |orders| && orders[k].id != ""
    ensures var r := At(t, orders[k].id);
      At(BasicTable(t, orders, now), orders[k].id)
        == if Accepts(t, orders[k]) then Some(UpsertRow(r, orders[k], now)) else r
  {
    AcceptedOnce(t, orders, k, now);
    IdsAre(orders);
    SnapshotsAt(t, orders, orders[k].id, now);
  }

  /** A row missing from a non-empty snapshot: canceled if it was an active basic order, untouched otherwise. */
  lemma MissingOutcome(t: Orders, orders: seq<Order>, now: int, id: string)
    requires orders != [] && id in t && forall i :: 0 <= i < |orders| ==> orders[i].id != id
    ensures At(BasicTable(t, orders, now), id)
         == Some(if Active(t[id].status) && !IsAlgo(id) then t[id].(status := Canceled, updatedAt := now) else t[id])
  {
    AcceptedAccepts(t, orders);
    UnnamedStays(At(t, id), Accepted(t, orders), id, now);
    IdsAre(orders);
    SnapshotsAt(t, orders, id, now);
  }

  /** After a non-empty basic snapshot every active basic order is one it listed, under a non-empty id. */
  lemma ActiveAreListed(t: Orders, orders: seq<Order>, now: int, id: string)
    requires orders != [] && !IsAlgo(id)
    requires id in BasicTable(t, orders, now) && Active(BasicTable(t, orders, now)[id].status)
    ensures id != "" && exists i :: 0 <= i < |orders| && orders[i].id == id
  {
    SnapshotsAt(t, orders, id, now);
    IdsAre(orders);
  }

  /** After an algo snapshot that is empty or lists algo ids the same holds of the active algo orders. */
  lemma ActiveAlgosAreListed(t: Orders, orders: seq<Order>, now: int, id: string)
    requires AlgoIdsOnly(orders) && IsAlgo(id)
    requires id in AlgoTable(t, orders, now) && Active(AlgoTable(t, orders, now)[id].status)
    ensures exists i :: 0 <= i < |orders| && orders[i].id == id
  {
    SnapshotsAt(t, orders, id, now);
    IdsAre(orders);
    assert orders != [] ==> orders[0].id in Ids(orders);
  }

  // ---------- the two snapshots commute ----------

  lemma BasicLeavesAlgo(t: Orders, orders: seq<Order>, now: int, id: string)
    requires BasicIdsOnly(orders) && IsAlgo(id)
    ensures At(BasicTable(t, orders, now), id) == At(t, id)
  {
    AcceptedAccepts(t, orders);
    UnnamedStays(At(t, id), Accepted(t, orders), id, now);
    SnapshotsAt(t, orders, id, now);
  }

  /** What is accepted depends on the basic rows only. */
  lemma {:induction false} AcceptedAgree(t: Orders, u: Orders, orders: seq<Order>)
    requires BasicIdsOnly(orders) && forall id :: !IsAlgo(id) ==> At(t, id) == At(u, id)
    ensures Accepted(t, orders) == Accepted(u, orders)
  {
    if orders != [] {
      var o := orders[|orders| - 1];
      assert At(t, o.id) == At(u, o.id);
      AcceptedAgree(t, u, orders[..|orders| - 1]);
    }
  }

  /** A basic and an algo snapshot touch disjoint rows: either order of the two calls leaves the same table. */
  lemma SnapshotsCommute(t: Orders, basic: seq<Order>, algo: seq<Order>, now: int, later: int)
    requires BasicIdsOnly(basic) && AlgoIdsOnly(algo)
    ensures AlgoTable(BasicTable(t, basic, now), algo, later) == BasicTable(AlgoTable(t, algo, later), basic, now)
  {
    var b, a := BasicTable(t, basic, now), AlgoTable(t, algo, later);
    var ba, ab := AlgoTable(b, algo, later), BasicTable(a, basic, now);
    forall id ensures At(ba, id) == At(ab, id) {
      if IsAlgo(id) {
        BasicLeavesAlgo(a, basic, now, id);
        BasicLeavesAlgo(t, basic, now, id);
        SnapshotsAt(b, algo, id, later);
        SnapshotsAt(t, algo, id, later);
      } else {
        forall other | !IsAlgo(other) ensures At(t, other) == At(a, other) { AlgoLeavesBasic(t, algo, later, other); }
        AcceptedAgree(t, a, basic);
        AlgoLeavesBasic(b, algo, later, id);
        SnapshotsAt(t, basic, id, now);
        SnapshotsAt(a, basic, id, now);
      }
    }
    assert forall id :: (id in ba <==> At(ba, id).Some?) && (id in ab <==> At(ab, id).Some?);
    assert forall id :: id in ba ==> ba[id] == At(ba, id).value;
  }

  // ---------- the cache ----------

  ghost predicate Synced(s: State) { s.shown == ActiveStatuses(s.store.orders) }

  /** A call that leaves the cache alone leaves the active rows' statuses alone, though a fill rewrites rows. */
  lemma UnrefreshedKeepsStatuses(s: State, c: Call)
    requires !Refreshes(s, c)
    ensures ActiveStatuses(StoreAfter(s.store, c).orders) == ActiveStatuses(s.store.orders)
  {
    if c.BasicSnapshot? { EmptySnapshotChangesNothing(s.store.orders, c.now); }
  }

  ghost predicate RefreshedAt(s: State, calls: seq<Call>, i: int) {
    0 <= i < |calls| && Refreshes(Run(s, calls[..i]), calls[i])
  }

  lemma RefreshedWithin(s: State, calls: seq<Call>, n: nat, i: int)
    requires i < n <= |calls|
    ensures RefreshedAt(s, calls[..n], i) <==> RefreshedAt(s, calls, i)
  {
    if 0 <= i { assert calls[..n][..i] == calls[..i]; }
  }

  /** The cache shows exactly the active ids and statuses after a run if and only if it did before it
      or some call of the run rebuilt it. */
  lemma {:induction false} SyncedExactlyWhen(s: State, calls: seq<Call>)
    ensures Synced(Run(s, calls)) <==> Synced(s) || exists i :: RefreshedAt(s, calls, i)
  {
    if calls != [] {
      var n := |calls| - 1;
      SyncedExactlyWhen(s, calls[..n]);
      forall i | i < n ensures RefreshedAt(s, calls[..n], i) <==> RefreshedAt(s, calls, i) {
        RefreshedWithin(s, calls, n, i);
      }
      if !RefreshedAt(s, calls, n) { UnrefreshedKeepsStatuses(Run(s, calls[..n]), calls[n]); }
    }
  }

  /** A new manager over a table with active orders: empty basic snapshots never bring its cache into agreement. */
  lemma {:induction false} FreshManagerStaysOut(store: Store, times: seq<int>)
    requires ActiveStatuses(store.orders) != map[]
    ensures var run := seq(|times|, i requires 0 <= i < |times| => BasicSnapshot([], times[i]));
      !Synced(Run(State(store, map[]), run)) && Run(State(store, map[]), run).shown == map[]
  {
    if times != [] {
      var n := |times| - 1;
      FreshManagerStaysOut(store, times[..n]);
      var run := seq(|times|, i requires 0 <= i < |times| => BasicSnapshot([], times[i]));
      assert run[..n] == seq(n, i requires 0 <= i < n => BasicSnapshot([], times[..n][i]));
      EmptySnapshotChangesNothing(Run(State(store, map[]), run[..n]).store.orders, times[n]);
    }
  }
}
