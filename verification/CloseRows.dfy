/** The rows written when a position is closed, in part or in full, and the table that keeps them. */
module CloseRows {
  import opened Numerics
  import opened Sorting
  import opened OrderTable
  import opened OrderFills

  // ---------- one row ----------

  datatype CloseRow = CloseRow(quantity: real, entryPrice: real, exitPrice: real, entryTime: int, exitTime: int,
                               realized: real, fees: real, net: real)

  function Earliest(fs: seq<Fill>): int
    requires fs != []
  {
    if |fs| == 1 then fs[0].time else MinInt(Earliest(fs[..|fs| - 1]), fs[|fs| - 1].time)
  }

  function Latest(fs: seq<Fill>): int
    requires fs != []
  {
    if |fs| == 1 then fs[0].time else MaxInt(Latest(fs[..|fs| - 1]), fs[|fs| - 1].time)
  }

  /** For fees only, a close counts no more than was opened. */
  function Capped(open: real, closed: real): real { if open != 0.0 && closed > open then open else closed }

  function Share(entryFees: real, part: real, open: real): real
    requires open != 0.0
  {
    entryFees * (part / open)
  }

  function EntryShare(entryFees: real, open: real, closed: real): real {
    if open == 0.0 then 0.0 else Share(entryFees, Capped(open, closed), open)
  }

  function ShareOf(opens: seq<Fill>, closes: seq<Fill>): real {
    EntryShare(Total(opens, Fee), Total(opens, Quantity), Total(closes, Quantity))
  }

  function FeesOf(opens: seq<Fill>, closes: seq<Fill>): real { Total(closes, Fee) + ShareOf(opens, closes) }

  /** `average` is the cached average of the position, which prices the entry when no opening fill is known. */
  function RowOf(opens: seq<Fill>, closes: seq<Fill>, average: real): CloseRow
    requires closes != []
  {
    CloseRow(Total(closes, Quantity), if opens == [] then average else Vwap(opens), Vwap(closes),
             if opens == [] then 0 else Earliest(opens), Latest(closes),
             Total(closes, Pnl), FeesOf(opens, closes), Total(closes, Pnl) - FeesOf(opens, closes))
  }

  /** What a row shows: the quantity closed, the prices that make up the notional of both sides, the first opening and
      the last closing time, the PnL realized, and fees and net that split it up. */
  lemma RowMeans(opens: seq<Fill>, closes: seq<Fill>, average: real)
    requires closes != []
    ensures var r := RowOf(opens, closes, average);
      && r.quantity == Total(closes, Quantity) && r.realized == Total(closes, Pnl) && r.net == r.realized - r.fees
      && (Total(closes, Quantity) != 0.0 ==> r.exitPrice * r.quantity == Total(closes, Notional))
      && (Total(closes, Quantity) == 0.0 ==> r.exitPrice == 0.0)
      && (opens != [] && Total(opens, Quantity) == 0.0 ==> r.entryPrice == 0.0)
      && (Total(opens, Quantity) != 0.0 ==> r.entryPrice * Total(opens, Quantity) == Total(opens, Notional))
      && (opens == [] ==> r.entryPrice == average && r.entryTime == 0)
      && (opens != [] ==> FirstTime(opens, r.entryTime)) && LastTime(closes, r.exitTime)
  {
    TotalNext(opens, Quantity);
    if Total(closes, Quantity) != 0.0 { DivideBack(Total(closes, Notional), Total(closes, Quantity)); }
    if Total(opens, Quantity) != 0.0 { DivideBack(Total(opens, Notional), Total(opens, Quantity)); }
    if opens != [] { EarliestIsFirst(opens); }
    LatestIsLast(closes);
  }

  ghost predicate FirstTime(fs: seq<Fill>, t: int) {
    (forall i :: 0 <= i < |fs| ==> t <= fs[i].time) && exists i :: 0 <= i < |fs| && fs[i].time == t
  }

  ghost predicate LastTime(fs: seq<Fill>, t: int) {
    (forall i :: 0 <= i < |fs| ==> fs[i].time <= t) && exists i :: 0 <= i < |fs| && fs[i].time == t
  }

  lemma {:induction false} EarliestIsFirst(fs: seq<Fill>)
    requires fs != []
    ensures FirstTime(fs, Earliest(fs))
  {
    var n := |fs| - 1;
    if n > 0 {
      EarliestIsFirst(fs[..n]);
      var i :| 0 <= i < n && fs[..n][i].time == Earliest(fs[..n]);
      assert fs[i].time == Earliest(fs[..n]);
    }
    assert fs[n].time == fs[n].time && fs[..n] + [fs[n]] == fs;
  }

  lemma {:induction false} LatestIsLast(fs: seq<Fill>)
    requires fs != []
    ensures LastTime(fs, Latest(fs))
  {
    var n := |fs| - 1;
    if n > 0 {
      LatestIsLast(fs[..n]);
      var i :| 0 <= i < n && fs[..n][i].time == Latest(fs[..n]);
      assert fs[i].time == Latest(fs[..n]);
    }
    assert fs[n].time == fs[n].time && fs[..n] + [fs[n]] == fs;
  }

  /** The closing fees, and of the entry fees the part the quantity closed has of the quantity opened, at most all. */
  lemma FeesMean(opens: seq<Fill>, closes: seq<Fill>, average: real)
    requires closes != []
    ensures var own, open := RowOf(opens, closes, average).fees - Total(closes, Fee), Total(opens, Quantity);
      && (open == 0.0 ==> own == 0.0)
      && (open != 0.0 && Total(closes, Quantity) <= open ==>
            own * open == Total(opens, Fee) * Total(closes, Quantity))
      && (open != 0.0 && Total(closes, Quantity) > open ==> own == Total(opens, Fee))
  {
    var open, closed, fees := Total(opens, Quantity), Total(closes, Quantity), Total(opens, Fee);
    if open != 0.0 {
      FullShare(fees, open);
      ShareBack(fees, closed, open);
    }
  }

  lemma ShareBack(fees: real, part: real, open: real)
    requires open != 0.0
    ensures Share(fees, part, open) * open == fees * part
  {
    var x := part / open;
    DivideBack(part, open);
    assert fees * x * open == fees * (x * open);
  }

  lemma NoShare(entry: real, open: real)
    requires open != 0.0
    ensures Share(entry, 0.0, open) == 0.0
  {
    assert 0.0 / open == 0.0;
  }

  lemma FullShare(entry: real, open: real)
    requires open != 0.0
    ensures Share(entry, open, open) == entry
  {
    DivideIs(open, open, 1.0);
  }

  /** One row never charges more than the entry fees, however much it overfills. */
  lemma RowShareBounded(entryFees: real, open: real, closed: real)
    requires entryFees >= 0.0 && open >= 0.0 && closed >= 0.0
    ensures 0.0 <= EntryShare(entryFees, open, closed) <= entryFees
    ensures open > 0.0 && closed >= open ==> EntryShare(entryFees, open, closed) == entryFees
  {
    if open > 0.0 {
      ShareMonotone(entryFees, 0.0, Capped(open, closed), open);
      ShareMonotone(entryFees, Capped(open, closed), open, open);
      NoShare(entryFees, open);
      FullShare(entryFees, open);
    }
  }

  lemma ShareMonotone(entry: real, a: real, b: real, open: real)
    requires entry >= 0.0 && open > 0.0 && a <= b
    ensures Share(entry, a, open) <= Share(entry, b, open)
  {
    DivideMonotone(a, b, open);
    ProductMonotone(a / open, b / open, entry);
  }

  lemma ShareWithin(entry: real, part: real, open: real)
    requires entry > 0.0 && open > 0.0
    ensures Share(entry, part, open) <= entry <==> part <= open
  {
    FullShare(entry, open);
    if part <= open { ShareMonotone(entry, part, open, open); } else { ShareStrict(entry, part, open); }
  }

  lemma ShareStrict(entry: real, part: real, open: real)
    requires entry > 0.0 && 0.0 < open < part
    ensures Share(entry, part, open) > entry
  {
    DivideIs(open, open, 1.0);
    assert (part - open) / open > 0.0;
    assert (part - open) / open == part / open - open / open;
    StrictProduct(1.0, part / open, entry);
  }

  /** Two orders that each close the whole position charge the entry fees twice. */
  lemma TwoFullClosesChargeTwice(opens: seq<Fill>, first: seq<Fill>, second: seq<Fill>)
    requires Total(opens, Quantity) > 0.0 && Total(opens, Fee) >= 0.0
    requires Total(first, Quantity) >= Total(opens, Quantity) && Total(second, Quantity) >= Total(opens, Quantity)
    ensures ShareOf(opens, first) + ShareOf(opens, second) == Total(opens, Fee) + Total(opens, Fee)
  {
    RowShareBounded(Total(opens, Fee), Total(opens, Quantity), Total(first, Quantity));
    RowShareBounded(Total(opens, Fee), Total(opens, Quantity), Total(second, Quantity));
  }

  /** A close order whose row is built again after further fills: the new row replaces the old one exactly
      when no later fill moved the exit time; otherwise both stay and the earlier fills are counted twice. */
  lemma RebuildReplacesExactlyWhen(rows: map<int, CloseRow>, opens: seq<Fill>, closes: seq<Fill>, more: seq<Fill>,
                                   average: real)
    requires closes != [] && Latest(closes) !in rows && Latest(closes + more) !in rows
    ensures var first, second := RowOf(opens, closes, average), RowOf(opens, closes + more, average);
      var after := rows[Latest(closes) := first][Latest(closes + more) := second];
      && (after.Keys == rows.Keys + {second.exitTime} <==> Latest(closes) == Latest(closes + more))
      && (Latest(closes) != Latest(closes + more) ==> after[first.exitTime] == first)
      && second.quantity == first.quantity + Total(more, Quantity)
  {
    TotalAppend(closes, more, Quantity);
    var first, second := RowOf(opens, closes, average), RowOf(opens, closes + more, average);
    var after := rows[Latest(closes) := first][Latest(closes + more) := second];
    assert Latest(closes) in after.Keys;
  }

  // ---------- one position ----------

  /** The closing fills that share a row: those of one order, and a fill without an order by itself. */
  datatype Group = OfOrder(id: string) | Alone(id: string)

  function GroupOf(f: Fill): Group { if f.orderId != "" then OfOrder(f.orderId) else Alone(f.id) }

  function Opening(): Fill -> bool { (f: Fill) => !f.isClose }

  function Closing(): Fill -> bool { (f: Fill) => f.isClose }

  function InGroup(g: Group): Fill -> bool { (f: Fill) => f.isClose && GroupOf(f) == g }

  function Opens(fills: seq<Fill>): seq<Fill> { Keep(fills, Opening()) }

  function Closes(fills: seq<Fill>, g: Group): seq<Fill> { Keep(fills, InGroup(g)) }

  /** The fills a build for f groups: read back by order, or f alone when it names none. */
  function ClosesFor(fills: seq<Fill>, f: Fill): seq<Fill> {
    if f.orderId == "" then [f] else Closes(fills, OfOrder(f.orderId))
  }

  predicate Knows(fills: seq<Fill>, id: string) { exists i :: 0 <= i < |fills| && fills[i].id == id }

  function Replace(fills: seq<Fill>, f: Fill): seq<Fill> {
    if fills == [] then []
    else
      var init, last := fills[..|fills| - 1], fills[|fills| - 1];
      Replace(init, f) +
      [if last.id != f.id then last
       else last.(price := f.price, quantity := f.quantity, fee := f.fee, pnl := f.pnl, time := f.time)]
  }

  function Recorded(fills: seq<Fill>, f: Fill): seq<Fill> {
    if Knows(fills, f.id) then Replace(fills, f) else fills + [f]
  }

  /** The stored fills after one arrives: a new one comes last; one stored already takes the new price, quantity, fee,
      PnL and time and keeps its order and closing flag, and the others stay. */
  lemma RecordedOutcome(fills: seq<Fill>, f: Fill)
    ensures !Knows(fills, f.id) ==> Recorded(fills, f) == fills + [f]
    ensures Knows(fills, f.id) ==>
      && |Recorded(fills, f)| == |fills|
      && forall i :: 0 <= i < |fills| ==>
           Recorded(fills, f)[i] == if fills[i].id != f.id then fills[i]
                                    else f.(orderId := fills[i].orderId, isClose := fills[i].isClose)
  {
    ReplaceAt(fills, f);
  }

  lemma {:induction false} ReplaceAt(fills: seq<Fill>, f: Fill)
    ensures |Replace(fills, f)| == |fills|
    ensures forall i :: 0 <= i < |fills| ==>
      Replace(fills, f)[i] == if fills[i].id != f.id then fills[i]
                              else f.(orderId := fills[i].orderId, isClose := fills[i].isClose)
  {
    if fills != [] {
      var n := |fills| - 1;
      ReplaceAt(fills[..n], f);
    }
  }

  /** What a stored row was made of. */
  datatype Made = Made(group: Group, opens: seq<Fill>, closes: seq<Fill>, average: real)

  /** The stored fills in order of arrival, the close rows by exit time, what each was made of,
      and the groups with a closing fill whose deferred build is still to come. */
  datatype Book = Book(fills: seq<Fill>, rows: map<int, CloseRow>, made: map<int, Made>, due: set<Group>)

  const EMPTY := Book([], map[], map[], {})

  /** A fill arrives; or, later, the row of a closing fill's group is built. */
  datatype Act = Arrive(fill: Fill) | Build(fill: Fill, average: real)

  function Step(b: Book, a: Act): Book {
    match a
    case Arrive(f) => b.(fills := Recorded(b.fills, f), due := if f.isClose then b.due + {GroupOf(f)} else b.due)
    case Build(f, average) =>
      var opens, closes, waiting := Opens(b.fills), ClosesFor(b.fills, f), b.due - {GroupOf(f)};
      if closes == [] then b.(due := waiting)
      else
        Book(b.fills, b.rows[Latest(closes) := RowOf(opens, closes, average)],
             b.made[Latest(closes) := Made(GroupOf(f), opens, closes, average)], waiting)
  }

  function Run(b: Book, acts: seq<Act>): Book {
    if acts == [] then b else Step(Run(b, acts[..|acts| - 1]), acts[|acts| - 1])
  }

  class CloseBook {
    var fills: seq<Fill>
    var rows: map<int, CloseRow>
    ghost var made: map<int, Made>
    ghost var due: set<Group>

    ghost function State(): Book
      reads this
    {
      Book(fills, rows, made, due)
    }

    constructor ()
      ensures State() == EMPTY
    {
      fills, rows, made, due := [], map[], map[], {};
    }

    method Record(f: Fill)
      modifies this
      ensures State() == Step(old(State()), Arrive(f))
    {
      fills := Recorded(fills, f);
      due := if f.isClose then due + {GroupOf(f)} else due;
    }

    /** A later row with the same exit time replaces the earlier one. */
    method BuildCloseRowForFill(f: Fill, average: real)
      modifies this
      ensures State() == Step(old(State()), Build(f, average))
    {
      due := due - {GroupOf(f)};
      var opens, closes := Opens(fills), ClosesFor(fills, f);
      if closes == [] {
        return;
      }
      var row := MakeRow(opens, closes, average);
      rows := rows[row.exitTime := row];
      made := made[row.exitTime := Made(GroupOf(f), opens, closes, average)];
    }

    static method MakeRow(opens: seq<Fill>, closes: seq<Fill>, average: real) returns (row: CloseRow)
      requires closes != []
      ensures row == RowOf(opens, closes, average)
    {
      var entryPrice, entryTime, open := average, 0, 0.0;
      TotalNext(opens, Quantity);
      if opens != [] {
        open := Total(opens, Quantity);
        entryPrice := if open != 0.0 then Total(opens, Notional) / open else 0.0;
        entryTime := Earliest(opens);
      }
      var closed := Total(closes, Quantity);
      var exitPrice := if closed != 0.0 then Total(closes, Notional) / closed else 0.0;
      var entryFees, forFees := Total(opens, Fee), closed;
      if open != 0.0 && closed > open {
        forFees := open;
      }
      var share := if open != 0.0 then Share(entryFees, forFees, open) else 0.0;
      var fees, realized := Total(closes, Fee) + share, Total(closes, Pnl);
      row := CloseRow(closed, entryPrice, exitPrice, entryTime, Latest(closes), realized, fees, realized - fees);
    }
  }
}
