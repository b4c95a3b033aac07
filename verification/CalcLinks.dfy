/**
 Linking orders and fills to the calculation that produced them. `calcId` is written by
 three parties: correlation of an updated order, propagation to a fill, manual confirmation.
 */
module CalcLinks {
  import opened Numerics
  import opened Sorting
  import opened OrderTable

  /** A row of the pre-trade log. */
  datatype Calc = Calc(id: Option<string>, ticker: string, side: string, entry: real, tp: real, sl: real, time: int)

  /** What enrichment reads besides the tables: the log, the clock, known tick sizes, and the order
      in which the database returns rows, which SQL leaves open. */
  datatype Env = Env(log: seq<Calc>, now: int, ticks: map<string, real>, scan: seq<string>)

  const DAY_MS: int := 24 * 3600 * 1000

  const STOP_KINDS: set<string> := {"stop_loss", "stop_market", "stop_loss_limit"}
  const PROFIT_KINDS: set<string> := {"take_profit", "take_profit_market", "take_profit_limit"}

  predicate IsEntry(o: Order) {
    o.kind !in STOP_KINDS && o.kind !in PROFIT_KINDS && o.kind != "trailing_stop" && !o.reduceOnly
  }

  predicate Truthy(c: Option<string>) { c.Some? && c.value != "" }

  predicate Priced(p: Option<real>) { p.Some? && p.value != 0.0 }

  // ---------- correlation ----------

  datatype Intent = Intent(symbol: string, side: string, kind: string, price: real, tp: Option<real>, sl: Option<real>)

  predicate Complete(i: Intent) {
    Priced(i.tp) && Priced(i.sl) && (i.kind == "market" || i.price != 0.0) && i.symbol != "" && i.side != ""
  }

  predicate Recent(c: Calc, i: Intent, cutoff: int) {
    c.ticker == i.symbol && c.side == i.side && c.time >= cutoff && c.id.Some?
  }

  /** Within one tick on both triggers and, except for market orders, on the entry. */
  predicate Matches(c: Calc, i: Intent, tick: real)
    requires Complete(i)
  {
    && Abs(c.tp - i.tp.value) <= tick && Abs(c.sl - i.sl.value) <= tick
    && (i.kind == "market" || Abs(c.entry - i.price) <= tick)
  }

  predicate Used(t: Orders, link: string) { exists id :: id in t && t[id].calcId == Some(link) }

  predicate Fits(c: Calc, i: Intent, tick: real, t: Orders)
    requires Complete(i)
  {
    Truthy(c.id) && Matches(c, i, tick) && !Used(t, c.id.value)
  }

  function Age(c: Calc): real { -(c.time as real) }

  function Candidates(log: seq<Calc>, i: Intent, cutoff: int): seq<Calc> {
    SortBy(Keep(log, (c: Calc) => Recent(c, i, cutoff)), Age)
  }

  function FirstFit(rows: seq<Calc>, i: Intent, tick: real, t: Orders): Option<string>
    requires Complete(i)
  {
    if rows == [] then None
    else if Fits(rows[0], i, tick, t) then rows[0].id
    else FirstFit(rows[1..], i, tick, t)
  }

  function Correlated(i: Intent, tick: real, log: seq<Calc>, now: int, t: Orders): Option<string> {
    if Complete(i) then FirstFit(Candidates(log, i, now - DAY_MS), i, tick, t) else None
  }

  method CorrelateOrderToCalc(i: Intent, tick: real, log: seq<Calc>, now: int, t: Orders) returns (link: Option<string>)
    ensures link == Correlated(i, tick, log, now, t)
  {
    if !Priced(i.tp) || !Priced(i.sl) || (i.kind != "market" && i.price == 0.0) {
      return None;
    }
    if i.symbol == "" || i.side == "" {
      return None;
    }
    var rows := Candidates(log, i, now - DAY_MS);
    for k := 0 to |rows|
      invariant FirstFit(rows, i, tick, t) == FirstFit(rows[k..], i, tick, t)
    {
      var row := rows[k];
      assert rows[k..][1..] == rows[k + 1..];
      if !Truthy(row.id) { continue; }
      if Matches(row, i, tick) {
        if Used(t, row.id.value) { continue; }
        return row.id;
      }
    }
    return None;
  }

  lemma {:induction false} FirstFitIsFirst(rows: seq<Calc>, i: Intent, tick: real, t: Orders)
    requires Complete(i)
    ensures FirstFit(rows, i, tick, t).None? ==> forall k :: 0 <= k < |rows| ==> !Fits(rows[k], i, tick, t)
    ensures FirstFit(rows, i, tick, t).Some? ==> exists k :: IsFirstFit(rows, i, tick, t, k)
  {
    if rows != [] {
      FirstFitIsFirst(rows[1..], i, tick, t);
      if Fits(rows[0], i, tick, t) {
        assert IsFirstFit(rows, i, tick, t, 0);
      } else if FirstFit(rows[1..], i, tick, t).Some? {
        var k :| IsFirstFit(rows[1..], i, tick, t, k);
        assert IsFirstFit(rows, i, tick, t, k + 1);
      }
    }
  }

  ghost predicate IsFirstFit(rows: seq<Calc>, i: Intent, tick: real, t: Orders, k: int)
    requires Complete(i)
  {
    && 0 <= k < |rows| && Fits(rows[k], i, tick, t) && rows[k].id == FirstFit(rows, i, tick, t)
    && forall j :: 0 <= j < k ==> !Fits(rows[j], i, tick, t)
  }

  /** A log row the order could be linked to. */
  ghost predicate Linkable(c: Calc, i: Intent, tick: real, now: int, t: Orders)
    requires Complete(i)
  {
    Recent(c, i, now - DAY_MS) && Fits(c, i, tick, t)
  }

  ghost predicate NewestLinkable(c: Calc, i: Intent, tick: real, log: seq<Calc>, now: int, t: Orders)
    requires Complete(i)
  {
    && c in log && Linkable(c, i, tick, now, t)
    && forall other :: other in log && Linkable(other, i, tick, now, t) ==> other.time <= c.time
  }

  lemma CandidatesAre(log: seq<Calc>, i: Intent, cutoff: int)
    ensures forall c :: c in Candidates(log, i, cutoff) <==> c in log && Recent(c, i, cutoff)
    ensures NewestFirst(Candidates(log, i, cutoff))
  {
    var kept := Keep(log, (c: Calc) => Recent(c, i, cutoff));
    var rows := SortBy(kept, Age);
    KeepElements(log, (c: Calc) => Recent(c, i, cutoff));
    SortByIsSort(kept, Age);
    forall c ensures c in rows <==> c in kept {
      assert c in rows <==> c in multiset(rows);
    }
    forall j, k | 0 <= j < k < |rows| ensures rows[j].time >= rows[k].time {
      assert Age(rows[j]) <= Age(rows[k]);
    }
  }

  ghost predicate NewestFirst(rows: seq<Calc>) { forall j, k :: 0 <= j < k < |rows| ==> rows[j].time >= rows[k].time }

  lemma FirstFitIsNewest(rows: seq<Calc>, i: Intent, tick: real, t: Orders, k: int, other: Calc)
    requires Complete(i) && NewestFirst(rows) && IsFirstFit(rows, i, tick, t, k)
    requires other in rows && Fits(other, i, tick, t)
    ensures other.time <= rows[k].time
  {
  }

  /** Correlation fails exactly when no row of the last day is within tolerance and unused;
      otherwise it answers with the most recent such row. */
  lemma CorrelationIsNewestUnused(i: Intent, tick: real, log: seq<Calc>, now: int, t: Orders)
    requires Complete(i)
    ensures Correlated(i, tick, log, now, t).None? <==> forall c :: c in log ==> !Linkable(c, i, tick, now, t)
    ensures Correlated(i, tick, log, now, t).Some?
      ==> exists c :: NewestLinkable(c, i, tick, log, now, t) && c.id == Correlated(i, tick, log, now, t)
  {
    var rows := Candidates(log, i, now - DAY_MS);
    CandidatesAre(log, i, now - DAY_MS);
    FirstFitIsFirst(rows, i, tick, t);
    if FirstFit(rows, i, tick, t).Some? {
      var k :| IsFirstFit(rows, i, tick, t, k);
      forall other | other in log && Linkable(other, i, tick, now, t) ensures other.time <= rows[k].time {
        FirstFitIsNewest(rows, i, tick, t, k, other);
      }
      assert rows[k] in rows;
      assert NewestLinkable(rows[k], i, tick, log, now, t);
    }
  }

  // ---------- enrichment of an order ----------

  predicate Child(t: Orders, id: string, positionId: string, parent: string) {
    id in t && t[id].positionId == positionId && t[id].reduceOnly && id != parent
  }

  function Trigger(r: Row): real { if r.stopPrice != 0.0 then r.stopPrice else r.price }

  /** A child order of one of the kinds with a trigger. */
  predicate Triggers(t: Orders, id: string, positionId: string, parent: string, kinds: set<string>) {
    Child(t, id, positionId, parent) && t[id].kind in kinds && Trigger(t[id]) != 0.0
  }

  /** The trigger of the last child of one of the kinds, in the order rows come back. */
  function LastTrigger(t: Orders, scan: seq<string>, positionId: string, parent: string,
                       kinds: set<string>): Option<real> {
    if scan == [] then None
    else
      var id := scan[|scan| - 1];
      if Triggers(t, id, positionId, parent, kinds) then Some(Trigger(t[id]))
      else LastTrigger(t, scan[..|scan| - 1], positionId, parent, kinds)
  }

  ghost predicate LastAt(t: Orders, scan: seq<string>, positionId: string, parent: string, kinds: set<string>, i: int) {
    && 0 <= i < |scan| && Triggers(t, scan[i], positionId, parent, kinds)
    && forall j :: i < j < |scan| ==> !Triggers(t, scan[j], positionId, parent, kinds)
  }

  /** An entry order finds a trigger exactly when some child of its position has one, and takes that of the last such
      child. */
  lemma {:induction false} TriggerIsLastChilds(t: Orders, scan: seq<string>, positionId: string, parent: string,
                                               kinds: set<string>)
    ensures var trigger := LastTrigger(t, scan, positionId, parent, kinds);
      && (trigger.None? <==> forall i :: 0 <= i < |scan| ==> !Triggers(t, scan[i], positionId, parent, kinds))
      && (trigger.Some? ==>
          exists i :: LastAt(t, scan, positionId, parent, kinds, i) && trigger == Some(Trigger(t[scan[i]])))
  {
    if scan != [] {
      var n := |scan| - 1;
      TriggerIsLastChilds(t, scan[..n], positionId, parent, kinds);
      if Triggers(t, scan[n], positionId, parent, kinds) {
        assert LastAt(t, scan, positionId, parent, kinds, n);
      } else if LastTrigger(t, scan, positionId, parent, kinds).Some? {
        var i :| LastAt(t, scan[..n], positionId, parent, kinds, i)
          && LastTrigger(t, scan[..n], positionId, parent, kinds) == Some(Trigger(t[scan[..n][i]]));
        assert LastAt(t, scan, positionId, parent, kinds, i);
      }
    }
  }

  function Coalesce<T>(a: Option<T>, b: Option<T>): Option<T> { if a.Some? then a else b }

  function Populated(t: Orders, scan: seq<string>, o: Order): Orders {
    var tp := LastTrigger(t, scan, o.positionId, o.id, PROFIT_KINDS);
    var sl := LastTrigger(t, scan, o.positionId, o.id, STOP_KINDS);
    if IsEntry(o) && o.positionId != "" && (tp.Some? || sl.Some?) && o.id in t
    then t[o.id := t[o.id].(tpTrigger := Coalesce(tp, t[o.id].tpTrigger), slTrigger := Coalesce(sl, t[o.id].slTrigger))]
    else t
  }

  method PopulateTriggerPrices(db: OrderDb, o: Order, scan: seq<string>)
    modifies db`orders
    ensures db.orders == Populated(old(db.orders), scan, o)
  {
    if !IsEntry(o) || o.positionId == "" {
      return;
    }
    var tp, sl: Option<real> := None, None;
    for k := 0 to |scan|
      invariant tp == LastTrigger(db.orders, scan[..k], o.positionId, o.id, PROFIT_KINDS)
      invariant sl == LastTrigger(db.orders, scan[..k], o.positionId, o.id, STOP_KINDS)
    {
      assert scan[..k + 1][..k] == scan[..k];
      var id := scan[k];
      if Child(db.orders, id, o.positionId, o.id) {
        var trigger := Trigger(db.orders[id]);
        if db.orders[id].kind in PROFIT_KINDS && trigger != 0.0 {
          tp := Some(trigger);
        } else if db.orders[id].kind in STOP_KINDS && trigger != 0.0 {
          sl := Some(trigger);
        }
      }
    }
    assert scan[..|scan|] == scan;
    if (tp.Some? || sl.Some?) && o.id in db.orders {
      var row := db.orders[o.id];
      row := row.(tpTrigger := Coalesce(tp, row.tpTrigger), slTrigger := Coalesce(sl, row.slTrigger));
      db.orders := db.orders[o.id := row];
    }
  }

  function TickSize(env: Env, symbol: string, price: real): real {
    if symbol in env.ticks then env.ticks[symbol]
    else if price > 0.0 then Max(price * 0.0001, 0.01) else 0.01
  }

  function IntentOf(o: Order, r: Row): Intent { Intent(o.symbol, o.side, o.kind, r.price, r.tpTrigger, r.slTrigger) }

  function Linked(t: Orders, env: Env, o: Order): Orders {
    if !IsEntry(o) || o.id !in t then t
    else
      var r := t[o.id];
      if Truthy(r.calcId) || !Priced(r.tpTrigger) || !Priced(r.slTrigger) then t
      else
        var link := Correlated(IntentOf(o, r), TickSize(env, o.symbol, r.price), env.log, env.now, t);
        if link.Some? && r.calcId.None? then t[o.id := r.(calcId := link)] else t
  }

  method TryCorrelate(db: OrderDb, env: Env, o: Order)
    modifies db`orders
    ensures db.orders == Linked(old(db.orders), env, o)
  {
    if !IsEntry(o) || o.id !in db.orders {
      return;
    }
    var row := db.orders[o.id];
    if Truthy(row.calcId) || !Priced(row.tpTrigger) || !Priced(row.slTrigger) {
      return;
    }
    var link := CorrelateOrderToCalc(IntentOf(o, row), TickSize(env, o.symbol, row.price), env.log, env.now, db.orders);
    if link.Some? && row.calcId.None? {
      db.orders := db.orders[o.id := row.(calcId := link)];
    }
  }

  function Enriched(t: Orders, env: Env, o: Order): Orders { Linked(Populated(t, env.scan, o), env, o) }

  method EnrichOrder(db: OrderDb, env: Env, o: Order)
    modifies db`orders
    ensures db.orders == Enriched(old(db.orders), env, o)
  {
    PopulateTriggerPrices(db, o, env.scan);
    TryCorrelate(db, env, o);
  }

  /** A stored row read back as an order. */
  function FromRow(id: string, r: Row): Order {
    Order(id, r.symbol, r.side, r.kind, r.status, r.price, r.stopPrice, r.quantity, r.filledQty, r.avgFillPrice,
          r.reduceOnly, r.positionId, r.createdAt, Some(r.updatedAt))
  }

  function FirstEntry(t: Orders, scan: seq<string>, positionId: string): Option<string> {
    if scan == [] then None
    else if scan[0] in t && t[scan[0]].positionId == positionId && !t[scan[0]].reduceOnly then Some(scan[0])
    else FirstEntry(t, scan[1..], positionId)
  }

  lemma {:induction false} FirstEntryIn(t: Orders, scan: seq<string>, positionId: string)
    ensures FirstEntry(t, scan, positionId).Some? ==> FirstEntry(t, scan, positionId).value in t
  {
    if scan != [] { FirstEntryIn(t, scan[1..], positionId); }
  }

  predicate IsChild(o: Order) { o.reduceOnly && (o.kind in STOP_KINDS || o.kind in PROFIT_KINDS) && o.positionId != "" }

  function ParentEnriched(t: Orders, env: Env, o: Order): Orders {
    var parent := FirstEntry(t, env.scan, o.positionId);
    if IsChild(o) && parent.Some? && parent.value in t
    then Enriched(t, env, FromRow(parent.value, t[parent.value])) else t
  }

  method ReEnrichParent(db: OrderDb, env: Env, o: Order)
    modifies db`orders
    ensures db.orders == ParentEnriched(old(db.orders), env, o)
  {
    if !IsChild(o) {
      return;
    }
    var parent := FirstEntry(db.orders, env.scan, o.positionId);
    FirstEntryIn(db.orders, env.scan, o.positionId);
    if parent.Some? {
      EnrichOrder(db, env, FromRow(parent.value, db.orders[parent.value]));
    }
  }

  // ---------- propagation to a fill ----------

  function Propagated(s: Store, f: Fill): Store {
    if f.orderId == "" || f.id == "" then s
    else if f.id in s.fills && Truthy(s.fills[f.id].calcId) then s
    else if f.orderId !in s.orders || !Truthy(s.orders[f.orderId].calcId) then s
    else if f.id !in s.fills then s
    else s.(fills := s.fills[f.id := s.fills[f.id].(calcId := s.orders[f.orderId].calcId)])
  }

  method PropagateCalcIdToFill(db: OrderDb, f: Fill)
    modifies db`fills
    ensures db.State() == Propagated(old(db.State()), f)
  {
    if f.orderId == "" || f.id == "" {
      return;
    }
    if f.id in db.fills && Truthy(db.fills[f.id].calcId) {
      return;
    }
    if f.orderId !in db.orders || !Truthy(db.orders[f.orderId].calcId) {
      return;
    }
    if f.id in db.fills {
      db.fills := db.fills[f.id := db.fills[f.id].(calcId := db.orders[f.orderId].calcId)];
    }
  }

  // ---------- manual confirmation ----------

  datatype Refusal = Missing | NotFound | AlreadyLinked | Duplicate

  function Refused(s: Store, id: string, link: string): Option<Refusal> {
    if id == "" || link == "" then Some(Missing)
    else if id !in s.orders then Some(NotFound)
    else if Truthy(s.orders[id].calcId) then Some(AlreadyLinked)
    else if Used(s.orders, link) then Some(Duplicate)
    else None
  }

  function Confirmed(s: Store, id: string, link: string): Store {
    if Refused(s, id, link).Some? || id !in s.orders then s
    else Store(s.orders[id := s.orders[id].(calcId := Some(link))],
               map f | f in s.fills ::
                 if s.fills[f].orderId == id then s.fills[f].(calcId := Some(link)) else s.fills[f])
  }

  /** `link` comes stripped of surrounding blanks. */
  method CalcLinkConfirm(db: OrderDb, id: string, link: string) returns (refusal: Option<Refusal>)
    modifies db
    ensures refusal == Refused(old(db.State()), id, link)
    ensures db.State() == Confirmed(old(db.State()), id, link)
  {
    if id == "" || link == "" {
      return Some(Missing);
    }
    if id !in db.orders {
      return Some(NotFound);
    }
    if Truthy(db.orders[id].calcId) {
      return Some(AlreadyLinked);
    }
    if Used(db.orders, link) {
      return Some(Duplicate);
    }
    db.orders := db.orders[id := db.orders[id].(calcId := Some(link))];
    db.fills := map f | f in db.fills ::
      if db.fills[f].orderId == id then db.fills[f].(calcId := Some(link)) else db.fills[f];
    return None;
  }
}
