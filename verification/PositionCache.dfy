/**
 The single-writer cache of open positions: versioned conflict resolution, full snapshots,
 incremental updates, mark-price ticks and the account aggregates they feed.
 */
module PositionCache {
  import opened Numerics
  import opened Sorting

  // ---------- positions ----------

  datatype Key = Key(ticker: string, direction: string)

  /** The fields a snapshot carries over from the position it replaces. Times are instants, 0 when unset. */
  datatype Meta = Meta(model: string, tpsl: bool, tpPrice: real, slPrice: real, tpAmount: real, slAmount: real,
                       orderTime: nat, entryTime: nat, mfe: real, mae: real, fees: real)

  const BLANK := Meta("", false, 0.0, 0.0, 0.0, 0.0, 0, 0, 0.0, 0.0, 0.0)

  datatype Position = Position(key: Key, id: string, amount: real, contractSize: real, average: real, fair: real,
                               unrealized: real, value: real, marginUsed: real, meta: Meta)

  /** The position a dictionary of the list by key holds: the last one of that key. */
  function Find(ps: seq<Position>, k: Key): Option<Position> {
    if ps == [] then None
    else if ps[|ps| - 1].key == k then Some(ps[|ps| - 1])
    else Find(ps[..|ps| - 1], k)
  }

  ghost predicate Unique(ps: seq<Position>) { forall i, j :: 0 <= i < j < |ps| ==> ps[i].key != ps[j].key }

  // ---------- versions ----------

  datatype Source = WsUser | WsMarket | Rest | Platform | Internal

  datatype Version = Version(sequence: nat, source: Source, time: int)

  const PRIORITY_WINDOW_MS: int := 5000

  predicate ShouldAccept(current: Version, source: Source, time: int) {
    || current.source == Internal || current.source == source
    || source == Platform || source == WsUser
    || !(source == Rest && (current.source == WsUser || current.source == Platform)
         && time - current.time < PRIORITY_WINDOW_MS)
  }

  function Advanced(v: Version, source: Source, time: int): Version { Version(v.sequence + 1, source, time) }

  // ---------- the account ----------

  /** `ddEquity` is the baseline of the portfolio's drawdown. */
  datatype Account = Account(balance: real, equity: real, unrealized: real, marginUsed: real, positionValue: real,
                             available: real, marginRatio: real, minEquity: real, maxEquity: real,
                             bodEquity: real, sowEquity: real, ddEquity: real)

  /** The equity extremes, refreshed by every recalculation of the portfolio. */
  function Recalculated(a: Account): Account {
    a.(maxEquity := Max(a.maxEquity, a.equity),
       minEquity := if a.minEquity > 0.0 then Min(a.minEquity, a.equity) else a.equity)
  }

  function Unrealized(ps: seq<Position>): seq<real> { seq(|ps|, i requires 0 <= i < |ps| => ps[i].unrealized) }
  function Values(ps: seq<Position>): seq<real> { seq(|ps|, i requires 0 <= i < |ps| => ps[i].value) }
  function Margins(ps: seq<Position>): seq<real> { seq(|ps|, i requires 0 <= i < |ps| => ps[i].marginUsed) }

  function Aggregated(a: Account, ps: seq<Position>): Account {
    var b := a.(unrealized := Sum(Unrealized(ps)), positionValue := Sum(Values(ps)), marginUsed := Sum(Margins(ps)));
    if b.balance > 0.0 then
      var equity := Max(0.0, b.balance + b.unrealized);
      b.(equity := equity, available := Max(0.0, equity - b.marginUsed))
    else b
  }

  // ---------- full snapshots ----------

  /** Metadata, a position id the snapshot lacks and a non-zero unrealized PnL survive from the old position. */
  function Preserved(p: Position, before: Position): Position {
    p.(meta := before.meta,
       id := if before.id != "" && p.id == "" then before.id else p.id,
       unrealized := if before.unrealized != 0.0 then before.unrealized else p.unrealized)
  }

  function Carried(p: Position, ps: seq<Position>, now: nat): Position {
    var before := Find(ps, p.key);
    if before.Some? then Preserved(p, before.value)
    else if p.meta.entryTime == 0 then p.(meta := p.meta.(entryTime := now))
    else p
  }

  function CarriedAll(incoming: seq<Position>, ps: seq<Position>, now: nat): seq<Position> {
    seq(|incoming|, i requires 0 <= i < |incoming| => Carried(incoming[i], ps, now))
  }

  function EntryTime(p: Position): real { p.meta.entryTime as real }

  function Replaced(incoming: seq<Position>, ps: seq<Position>, now: nat): seq<Position> {
    SortBy(CarriedAll(incoming, ps, now), EntryTime)
  }

  predicate Lists(ps: seq<Position>, k: Key) { Find(ps, k).Some? }

  /** The keys of a list, each once, in order of first appearance, that another list lacks. */
  function Missing(ps: seq<Position>, incoming: seq<Position>): seq<Key> {
    if ps == [] then []
    else
      var init, k := ps[..|ps| - 1], ps[|ps| - 1].key;
      if Lists(init, k) || Lists(incoming, k) then Missing(init, incoming) else Missing(init, incoming) + [k]
  }

  // ---------- incremental updates ----------

  datatype Change = Change(key: Key, size: real, entryPrice: real, unrealized: real)

  function MarkOf(marks: map<string, real>, ticker: string): real { if ticker in marks then marks[ticker] else 0.0 }

  function Changed(p: Position, c: Change, mark: real): Position {
    p.(unrealized := c.unrealized, amount := c.size,
       average := if c.entryPrice > 0.0 then c.entryPrice else p.average,
       value := if mark != 0.0 then c.size * mark else p.value)
  }

  function Opened(c: Change, marks: map<string, real>, now: nat): Position {
    var cached := MarkOf(marks, c.key.ticker);
    var mark := if cached != 0.0 then cached else c.entryPrice;
    Position(c.key, "", c.size, 1.0, c.entryPrice, mark, c.unrealized, c.size * mark, 0.0, BLANK.(entryTime := now))
  }

  function Without(ps: seq<Position>, k: Key): seq<Position> {
    if ps == [] then []
    else
      var init, p := Without(ps[..|ps| - 1], k), ps[|ps| - 1];
      if p.key == k then init else init + [p]
  }

  function ChangeLast(ps: seq<Position>, c: Change, mark: real): seq<Position> {
    if ps == [] then []
    else
      var init, p := ps[..|ps| - 1], ps[|ps| - 1];
      if p.key == c.key then init + [Changed(p, c, mark)] else ChangeLast(init, c, mark) + [p]
  }

  /** `known` are the positions listed when the batch arrived. */
  function Applied(ps: seq<Position>, c: Change, known: seq<Position>, marks: map<string, real>,
                   now: nat): seq<Position> {
    if c.size == 0.0 then if Lists(known, c.key) then Without(ps, c.key) else ps
    else if Lists(known, c.key) then ChangeLast(ps, c, MarkOf(marks, c.key.ticker))
    else ps + [Opened(c, marks, now)]
  }

  function AppliedAll(ps: seq<Position>, cs: seq<Change>, known: seq<Position>, marks: map<string, real>,
                      now: nat): seq<Position> {
    if cs == [] then ps
    else Applied(AppliedAll(ps, cs[..|cs| - 1], known, marks, now), cs[|cs| - 1], known, marks, now)
  }

  function ClosedBy(cs: seq<Change>, known: seq<Position>): seq<Key> {
    if cs == [] then []
    else
      var init, c := ClosedBy(cs[..|cs| - 1], known), cs[|cs| - 1];
      if c.size == 0.0 && Lists(known, c.key) then init + [c.key] else init
  }

  // ---------- mark prices ----------

  function UnrealizedAt(p: Position, mark: real): real {
    if p.key.direction == "LONG" then (mark - p.average) * p.amount else (p.average - mark) * p.amount
  }

  function ValueAt(p: Position, mark: real): real { Abs(mark * p.amount * p.contractSize) }

  /** The running extremes, rounded to cents. `mae` reads 0 as not yet set. */
  function WithExtremes(m: Meta, unrealized: real): Meta {
    m.(mfe := if unrealized > m.mfe then RoundTo(unrealized, CENTS) else m.mfe,
       mae := if m.mae == 0.0 || unrealized < m.mae then RoundTo(unrealized, CENTS) else m.mae)
  }

  function Marked(p: Position, ticker: string, mark: real): Position {
    if p.key.ticker != ticker then p
    else
      var q := p.(fair := mark, value := ValueAt(p, mark));
      if p.average <= 0.0 then q
      else q.(unrealized := UnrealizedAt(p, mark), meta := WithExtremes(p.meta, UnrealizedAt(p, mark)))
  }

  function MarkedAll(ps: seq<Position>, ticker: string, mark: real): seq<Position> {
    seq(|ps|, i requires 0 <= i < |ps| => Marked(ps[i], ticker, mark))
  }

  lemma MarkNext(ps: seq<Position>, i: nat, ticker: string, mark: real, p: Position)
    requires i < |ps| && p == Marked(ps[i], ticker, mark)
    ensures (MarkedAll(ps[..i], ticker, mark) + ps[i..])[i := p] == MarkedAll(ps[..i + 1], ticker, mark) + ps[i + 1..]
  {
  }

  // ---------- calls ----------

  datatype Cache = Cache(positions: seq<Position>, version: Version, account: Account, accountVersion: Version,
                         marks: map<string, real>)

  /** `balance` is the wallet balance of an update that carries balances. `now` stamps new positions. */
  datatype Call =
    | Snapshot(source: Source, incoming: seq<Position>, time: int, force: bool, now: nat)
    | Incremental(source: Source, changes: seq<Change>, balance: Option<real>, time: int, now: nat)
    | Mark(ticker: string, mark: real)
    | AccountRest(report: Account, time: int)
    | AccountPlatform(report: Account, time: int)

  predicate Accepted(s: Cache, c: Call) {
    match c
    case Snapshot(source, _, time, force, _) => force || ShouldAccept(s.version, source, time)
    case AccountRest(_, time) => ShouldAccept(s.accountVersion, Rest, time)
    case _ => true
  }

  function SnapshotStep(s: Cache, source: Source, incoming: seq<Position>, time: int, now: nat): Cache {
    s.(positions := Replaced(incoming, s.positions, now),
       version := Advanced(s.version, source, time), account := Recalculated(s.account))
  }

  function IncrementalStep(s: Cache, source: Source, cs: seq<Change>, balance: Option<real>, time: int,
                           now: nat): Cache {
    var ps := AppliedAll(s.positions, cs, s.positions, s.marks, now);
    var account := if balance.Some? then s.account.(balance := balance.value) else s.account;
    s.(positions := ps, version := Advanced(s.version, source, time),
       accountVersion := if balance.Some? then Advanced(s.accountVersion, source, time) else s.accountVersion,
       account := Recalculated(account.(unrealized := Sum(Unrealized(ps)))))
  }

  function MarkStep(s: Cache, ticker: string, mark: real): Cache {
    var ps := MarkedAll(s.positions, ticker, mark);
    s.(positions := ps, marks := s.marks[ticker := mark], account := Recalculated(Aggregated(s.account, ps)))
  }

  /** The first report also sets the baselines and the extremes. */
  function Reported(a: Account, r: Account): Account {
    var b := a.(equity := r.equity, available := r.available, unrealized := r.unrealized,
                marginUsed := r.marginUsed, marginRatio := r.marginRatio, balance := r.equity,
                sowEquity := if a.sowEquity == 0.0 then r.equity else a.sowEquity);
    if a.bodEquity != 0.0 then b
    else b.(bodEquity := r.equity, maxEquity := r.equity, minEquity := r.equity, ddEquity := r.equity)
  }

  /** The platform's word: margin used is what equity exceeds the available margin by. */
  function Told(a: Account, r: Account): Account {
    a.(balance := r.balance, equity := r.equity, unrealized := r.unrealized, available := r.available,
       marginUsed := Max(0.0, r.equity - r.available), marginRatio := r.marginRatio)
  }

  function Step(s: Cache, c: Call): Cache {
    if !Accepted(s, c) then s
    else
      match c
      case Snapshot(source, incoming, time, _, now) => SnapshotStep(s, source, incoming, time, now)
      case Incremental(source, cs, balance, time, now) => IncrementalStep(s, source, cs, balance, time, now)
      case Mark(ticker, mark) => MarkStep(s, ticker, mark)
      case AccountRest(report, time) =>
        s.(account := Recalculated(Reported(s.account, report)),
           accountVersion := Advanced(s.accountVersion, Rest, time))
      case AccountPlatform(report, time) =>
        s.(account := Recalculated(Told(s.account, report)),
           accountVersion := Advanced(s.accountVersion, Platform, time))
  }

  /** The trade-closed events a call publishes. */
  function Closed(s: Cache, c: Call): seq<Key> {
    if !Accepted(s, c) then []
    else
      match c
      case Snapshot(_, incoming, _, _, _) => Missing(s.positions, incoming)
      case Incremental(_, cs, _, _, _) => ClosedBy(cs, s.positions)
      case _ => []
  }

  /** The tickers a call reports as new. */
  function NewTickers(s: Cache, c: Call): set<string> {
    if !Accepted(s, c) then {}
    else
      match c
      case Snapshot(_, incoming, _, _, _) => set p | p in incoming && !Lists(s.positions, p.key) :: p.key.ticker
      case Incremental(_, cs, _, _, _) => set c | c in cs && c.size != 0.0 && !Lists(s.positions, c.key) :: c.key.ticker
      case _ => {}
  }

  function Run(s: Cache, calls: seq<Call>): Cache {
    if calls == [] then s else Step(Run(s, calls[..|calls| - 1]), calls[|calls| - 1])
  }

  // ---------- the object ----------

  class DataCache {
    var positions: seq<Position>
    var version: Version
    var account: Account
    var accountVersion: Version
    var marks: map<string, real>

    function State(): Cache
      reads this
    {
      Cache(positions, version, account, accountVersion, marks)
    }

    /** None when conflict resolution rejects the snapshot; otherwise the closed keys and the new tickers. */
    method ApplyPositionSnapshot(source: Source, incoming: seq<Position>, time: int, force: bool, now: nat)
      returns (closed: Option<seq<Key>>, entered: set<string>)
      modifies this
      ensures State() == Step(old(State()), Snapshot(source, incoming, time, force, now))
      ensures closed == if Accepted(old(State()), Snapshot(source, incoming, time, force, now))
        then Some(Closed(old(State()), Snapshot(source, incoming, time, force, now))) else None
      ensures entered == NewTickers(old(State()), Snapshot(source, incoming, time, force, now))
    {
      if !force && !ShouldAccept(version, source, time) {
        return None, {};
      }
      entered := set p | p in incoming && !Lists(positions, p.key) :: p.key.ticker;
      var carried: seq<Position> := [];
      for i := 0 to |incoming|
        invariant carried == CarriedAll(incoming[..i], positions, now) && State() == old(State())
      {
        var p := incoming[i];
        var before := Find(positions, p.key);
        if before.Some? {
          p := Preserved(p, before.value);
        } else if p.meta.entryTime == 0 {
          p := p.(meta := p.meta.(entryTime := now));
        }
        carried := carried + [p];
      }
      var gone: seq<Key> := [];
      for i := 0 to |positions|
        invariant gone == Missing(positions[..i], incoming) && State() == old(State())
      {
        assert positions[..i + 1][..i] == positions[..i];
        var k := positions[i].key;
        if !Lists(positions[..i], k) && !Lists(incoming, k) {
          gone := gone + [k];
        }
      }
      assert positions[..|positions|] == positions && incoming[..|incoming|] == incoming;
      positions := SortBy(carried, EntryTime);
      version := Advanced(version, source, time);
      account := Recalculated(account);
      closed := Some(gone);
    }

    method ApplyPositionUpdateIncremental(source: Source, changes: seq<Change>, balance: Option<real>, time: int,
                                          now: nat)
      returns (closed: seq<Key>, entered: set<string>)
      modifies this
      ensures State() == Step(old(State()), Incremental(source, changes, balance, time, now))
      ensures closed == Closed(old(State()), Incremental(source, changes, balance, time, now))
      ensures entered == NewTickers(old(State()), Incremental(source, changes, balance, time, now))
    {
      if balance.Some? {
        account := account.(balance := balance.value);
        accountVersion := Advanced(accountVersion, source, time);
      }
      closed, entered := [], {};
      var known := positions;
      for i := 0 to |changes|
        invariant entered == set c | c in changes[..i] && c.size != 0.0 && !Lists(known, c.key) :: c.key.ticker
        invariant positions == AppliedAll(known, changes[..i], known, marks, now)
        invariant closed == ClosedBy(changes[..i], known)
        invariant State().(positions := known) == old(State()).(
          account := if balance.Some? then old(account).(balance := balance.value) else old(account),
          accountVersion := if balance.Some? then Advanced(old(accountVersion), source, time) else old(accountVersion))
      {
        assert changes[..i + 1][..i] == changes[..i];
        var c := changes[i];
        if c.size == 0.0 {
          if Lists(known, c.key) {
            closed := closed + [c.key];
            positions := Without(positions, c.key);
          }
          continue;
        }
        if Lists(known, c.key) {
          positions := ChangeLast(positions, c, MarkOf(marks, c.key.ticker));
        } else {
          positions := positions + [Opened(c, marks, now)];
          entered := entered + {c.key.ticker};
        }
      }
      assert changes[..|changes|] == changes;
      account := account.(unrealized := Sum(Unrealized(positions)));
      version := Advanced(version, source, time);
      account := Recalculated(account);
    }

    method ApplyMarkPrice(ticker: string, mark: real)
      modifies this
      ensures State() == Step(old(State()), Mark(ticker, mark))
    {
      marks := marks[ticker := mark];
      MarkPositions(ticker, mark);
      account := Recalculated(Aggregated(account, positions));
    }

    method MarkPositions(ticker: string, mark: real)
      modifies this`positions
      ensures positions == MarkedAll(old(positions), ticker, mark)
    {
      var before := positions;
      for i := 0 to |before|
        invariant positions == MarkedAll(before[..i], ticker, mark) + before[i..]
      {
        var p := MarkPosition(positions[i], ticker, mark);
        MarkNext(before, i, ticker, mark, p);
        positions := positions[i := p];
      }
      assert before[..|before|] == before;
    }

    static method MarkPosition(p: Position, ticker: string, mark: real) returns (q: Position)
      ensures q == Marked(p, ticker, mark)
    {
      q := p;
      if p.key.ticker != ticker {
        return;
      }
      q := q.(fair := mark, value := ValueAt(p, mark));
      if p.average > 0.0 {
        var unrealized := UnrealizedAt(p, mark);
        q := q.(unrealized := unrealized, meta := WithExtremes(p.meta, unrealized));
      }
    }

    method ApplyAccountUpdateRest(report: Account, time: int) returns (accepted: bool)
      modifies this
      ensures State() == Step(old(State()), AccountRest(report, time))
      ensures accepted == Accepted(old(State()), AccountRest(report, time))
    {
      if !ShouldAccept(accountVersion, Rest, time) {
        return false;
      }
      account := Recalculated(Reported(account, report));
      accountVersion := Advanced(accountVersion, Rest, time);
      return true;
    }

    method ApplyAccountUpdatePlatform(report: Account, time: int)
      modifies this`account, this`accountVersion
      ensures State() == Step(old(State()), AccountPlatform(report, time))
    {
      account := Recalculated(Told(account, report));
      accountVersion := Advanced(accountVersion, Platform, time);
    }
  }
}
