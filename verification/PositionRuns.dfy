/** What runs of the position cache keep: keys, closures, entry times, versions and equity bounds. */
module PositionRuns {
  import opened Numerics
  import opened Sorting
  import opened PositionCache

  // ---------- looking up a key ----------

  lemma {:induction false} FindIsMember(ps: seq<Position>, k: Key)
    ensures Lists(ps, k) ==> exists i :: 0 <= i < |ps| && ps[i] == Find(ps, k).value && ps[i].key == k
    ensures !Lists(ps, k) ==> forall i :: 0 <= i < |ps| ==> ps[i].key != k
  {
    if ps != [] {
      var n := |ps| - 1;
      if ps[n].key != k {
        FindIsMember(ps[..n], k);
        if Lists(ps[..n], k) {
          var i :| 0 <= i < n && ps[..n][i] == Find(ps[..n], k).value && ps[..n][i].key == k;
          assert ps[i] == ps[..n][i];
        }
      }
    }
  }

  lemma {:induction false} FindUnique(ps: seq<Position>, i: nat)
    requires Unique(ps) && i < |ps|
    ensures Find(ps, ps[i].key) == Some(ps[i])
  {
    if i < |ps| - 1 { FindUnique(ps[..|ps| - 1], i); }
  }

  lemma FindAppend(ps: seq<Position>, p: Position, k: Key)
    ensures Find(ps + [p], k) == if p.key == k then Some(p) else Find(ps, k)
  {
    assert (ps + [p])[..|ps|] == ps;
  }

  /** The keys of one list are exactly those of another, in unique lists: equal lookups. */
  lemma SameMembers(ps: seq<Position>, qs: seq<Position>, k: Key)
    requires Unique(ps) && Unique(qs) && forall p :: p in ps <==> p in qs
    ensures Find(ps, k) == Find(qs, k)
  {
    FindIsMember(ps, k);
    FindIsMember(qs, k);
    assert Lists(qs, k) ==> Find(qs, k).value in ps;
    if Lists(ps, k) {
      var p := Find(ps, k).value;
      assert p in qs;
      var j :| 0 <= j < |qs| && qs[j] == p;
      FindUnique(qs, j);
    }
  }

  function Occurs(ps: seq<Position>, k: Key): nat {
    if ps == [] then 0 else Occurs(ps[..|ps| - 1], k) + if ps[|ps| - 1].key == k then 1 else 0
  }

  lemma {:induction false} OccursAppend(a: seq<Position>, b: seq<Position>, k: Key)
    ensures Occurs(a + b, k) == Occurs(a, k) + Occurs(b, k)
    decreases |b|
  {
    if b == [] {
      assert a + b == a;
    } else {
      assert (a + b)[..|a + b| - 1] == a + b[..|b| - 1];
      OccursAppend(a, b[..|b| - 1], k);
    }
  }

  lemma {:induction false} OccursListed(ps: seq<Position>, k: Key)
    ensures Occurs(ps, k) > 0 <==> Lists(ps, k)
  {
    if ps != [] { OccursListed(ps[..|ps| - 1], k); }
  }

  ghost predicate AtMostOnce(ps: seq<Position>) { forall k :: Occurs(ps, k) <= 1 }

  lemma {:induction false} UniqueByCount(ps: seq<Position>)
    ensures Unique(ps) <==> AtMostOnce(ps)
  {
    if ps != [] {
      var init, last := ps[..|ps| - 1], ps[|ps| - 1].key;
      UniqueByCount(init);
      OccursListed(init, last);
      FindIsMember(init, last);
      assert Unique(ps) <==> Unique(init) && !Lists(init, last);
      if Unique(ps) {
        forall k ensures Occurs(ps, k) <= 1 { assert Occurs(init, k) <= 1; }
      }
      if AtMostOnce(ps) {
        forall k ensures Occurs(init, k) <= 1 { assert Occurs(ps, k) <= 1; }
        assert Occurs(ps, last) <= 1;
      }
    }
  }

  // ---------- snapshots ----------

  lemma {:induction false} InsertOccurs(x: Position, ps: seq<Position>, k: Key)
    ensures Occurs(Insert(x, ps, EntryTime), k) == Occurs(ps, k) + if x.key == k then 1 else 0
  {
    OccursAppend([x], ps, k);
    if ps != [] && EntryTime(x) > EntryTime(ps[0]) {
      InsertOccurs(x, ps[1..], k);
      OccursAppend([ps[0]], Insert(x, ps[1..], EntryTime), k);
      OccursAppend([ps[0]], ps[1..], k);
      assert ps == [ps[0]] + ps[1..];
    }
  }

  lemma {:induction false} SortOccurs(ps: seq<Position>, k: Key)
    ensures Occurs(SortBy(ps, EntryTime), k) == Occurs(ps, k)
  {
    if ps != [] {
      SortOccurs(ps[1..], k);
      InsertOccurs(ps[0], SortBy(ps[1..], EntryTime), k);
      OccursAppend([ps[0]], ps[1..], k);
      assert ps == [ps[0]] + ps[1..];
    }
  }

  lemma SameCounts(a: seq<Position>, b: seq<Position>)
    requires forall k :: Occurs(a, k) == Occurs(b, k)
    ensures AtMostOnce(a) <==> AtMostOnce(b)
  {
    if AtMostOnce(a) { forall k ensures Occurs(b, k) <= 1 { assert Occurs(a, k) <= 1; } }
    if AtMostOnce(b) { forall k ensures Occurs(a, k) <= 1 { assert Occurs(b, k) <= 1; } }
  }

  lemma SortUnique(ps: seq<Position>)
    ensures Unique(SortBy(ps, EntryTime)) <==> Unique(ps)
    ensures forall p :: p in SortBy(ps, EntryTime) <==> p in ps
  {
    SortByIsSort(ps, EntryTime);
    forall p ensures p in SortBy(ps, EntryTime) <==> p in ps {
      assert p in SortBy(ps, EntryTime) <==> p in multiset(SortBy(ps, EntryTime));
    }
    UniqueByCount(ps);
    UniqueByCount(SortBy(ps, EntryTime));
    forall k ensures Occurs(SortBy(ps, EntryTime), k) == Occurs(ps, k) { SortOccurs(ps, k); }
    SameCounts(ps, SortBy(ps, EntryTime));
  }

  /** A key is listed after a snapshot exactly when the snapshot lists it; its row is the snapshot's
      with the old position's metadata carried over. */
  lemma SnapshotOutcome(incoming: seq<Position>, ps: seq<Position>, now: nat, k: Key)
    requires Unique(incoming)
    ensures Unique(Replaced(incoming, ps, now))
    ensures Find(Replaced(incoming, ps, now), k)
         == if Lists(incoming, k) then Some(Carried(Find(incoming, k).value, ps, now)) else None
  {
    var carried := CarriedAll(incoming, ps, now);
    assert forall i :: 0 <= i < |incoming| ==> carried[i].key == incoming[i].key;
    assert Unique(carried);
    SortUnique(carried);
    SameMembers(carried, Replaced(incoming, ps, now), k);
    FindIsMember(incoming, k);
    FindIsMember(carried, k);
    if Lists(incoming, k) {
      var i :| 0 <= i < |incoming| && incoming[i] == Find(incoming, k).value && incoming[i].key == k;
      FindUnique(carried, i);
    }
  }

  lemma {:induction false} MissingIs(ps: seq<Position>, incoming: seq<Position>)
    ensures forall k :: k in Missing(ps, incoming) <==> Lists(ps, k) && !Lists(incoming, k)
    ensures Distinct(Missing(ps, incoming))
  {
    if ps != [] { MissingIs(ps[..|ps| - 1], incoming); }
  }

  ghost predicate Distinct<T>(s: seq<T>) { forall i, j :: 0 <= i < j < |s| ==> s[i] != s[j] }

  // ---------- incremental updates ----------

  lemma {:induction false} FindWithout(ps: seq<Position>, gone: Key, k: Key)
    ensures Find(Without(ps, gone), k) == if k == gone then None else Find(ps, k)
    ensures Unique(ps) ==> Unique(Without(ps, gone))
  {
    if ps != [] {
      var n := |ps| - 1;
      var init := Without(ps[..n], gone);
      FindWithout(ps[..n], gone, k);
      FindWithout(ps[..n], gone, ps[n].key);
      FindAppend(init, ps[n], k);
      FindIsMember(init, ps[n].key);
      FindIsMember(ps[..n], ps[n].key);
      if Unique(ps) {
        assert forall i :: 0 <= i < n ==> ps[..n][i].key != ps[n].key;
      }
    }
  }

  lemma {:induction false} FindChangeLast(ps: seq<Position>, c: Change, mark: real, k: Key)
    ensures Find(ChangeLast(ps, c, mark), k)
         == if k == c.key && Lists(ps, k) then Some(Changed(Find(ps, k).value, c, mark)) else Find(ps, k)
  {
    if ps != [] {
      var n := |ps| - 1;
      FindChangeLast(ps[..n], c, mark, k);
      if ps[n].key == c.key {
        FindAppend(ps[..n], Changed(ps[n], c, mark), k);
      } else {
        FindAppend(ChangeLast(ps[..n], c, mark), ps[n], k);
      }
    }
  }

  lemma {:induction false} ChangeLastKeys(ps: seq<Position>, c: Change, mark: real)
    ensures |ChangeLast(ps, c, mark)| == |ps|
    ensures forall i :: 0 <= i < |ps| ==> ChangeLast(ps, c, mark)[i].key == ps[i].key
  {
    if ps != [] { ChangeLastKeys(ps[..|ps| - 1], c, mark); }
  }

  ghost predicate DistinctKeys(cs: seq<Change>) { forall i, j :: 0 <= i < j < |cs| ==> cs[i].key != cs[j].key }

  /** One change touches its own key only. */
  lemma AppliedAt(ps: seq<Position>, c: Change, known: seq<Position>, marks: map<string, real>, now: nat, k: Key)
    requires Find(ps, c.key) == Find(known, c.key)
    ensures Find(Applied(ps, c, known, marks, now), k)
         == if k == c.key then Outcome(Find(known, c.key), c, marks, now) else Find(ps, k)
  {
    FindWithout(ps, c.key, k);
    FindChangeLast(ps, c, MarkOf(marks, c.key.ticker), k);
    FindAppend(ps, Opened(c, marks, now), k);
  }

  lemma AppliedUnique(ps: seq<Position>, c: Change, known: seq<Position>, marks: map<string, real>, now: nat)
    requires Find(ps, c.key) == Find(known, c.key) && Unique(ps)
    ensures Unique(Applied(ps, c, known, marks, now))
  {
    FindWithout(ps, c.key, c.key);
    ChangeLastKeys(ps, c, MarkOf(marks, c.key.ticker));
    FindIsMember(ps, c.key);
  }

  /** What a change makes of its key: closed, changed or opened. */
  function Outcome(p: Option<Position>, c: Change, marks: map<string, real>, now: nat): Option<Position> {
    if c.size == 0.0 then None
    else if p.Some? then Some(Changed(p.value, c, MarkOf(marks, c.key.ticker)))
    else Some(Opened(c, marks, now))
  }

  /** After a batch of distinct keys each named key has its change's outcome and no other key has changed. */
  lemma {:induction false} BatchOutcome(ps: seq<Position>, cs: seq<Change>, marks: map<string, real>, now: nat)
    requires Unique(ps) && DistinctKeys(cs)
    ensures Unique(AppliedAll(ps, cs, ps, marks, now))
    ensures forall k :: (forall i :: 0 <= i < |cs| ==> cs[i].key != k) ==>
      Find(AppliedAll(ps, cs, ps, marks, now), k) == Find(ps, k)
    ensures forall i :: 0 <= i < |cs| ==>
      Find(AppliedAll(ps, cs, ps, marks, now), cs[i].key) == Outcome(Find(ps, cs[i].key), cs[i], marks, now)
  {
    if cs != [] {
      var n := |cs| - 1;
      var init := cs[..n];
      BatchOutcome(ps, init, marks, now);
      var before := AppliedAll(ps, init, ps, marks, now);
      assert forall i :: 0 <= i < n ==> init[i].key != cs[n].key;
      AppliedUnique(before, cs[n], ps, marks, now);
      forall k | forall i :: 0 <= i < |cs| ==> cs[i].key != k
        ensures Find(AppliedAll(ps, cs, ps, marks, now), k) == Find(ps, k)
      {
        AppliedAt(before, cs[n], ps, marks, now, k);
        assert cs[n].key != k && forall i :: 0 <= i < n ==> init[i].key == cs[i].key;
      }
      forall i | 0 <= i < |cs|
        ensures Find(AppliedAll(ps, cs, ps, marks, now), cs[i].key) == Outcome(Find(ps, cs[i].key), cs[i], marks, now)
      {
        AppliedAt(before, cs[n], ps, marks, now, cs[i].key);
        assert i < n ==> init[i] == cs[i];
      }
    }
  }

  lemma {:induction false} ClosedByIs(cs: seq<Change>, known: seq<Position>)
    requires DistinctKeys(cs)
    ensures forall k :: k in ClosedBy(cs, known) <==> exists i :: 0 <= i < |cs| && Closes(cs[i], known, k)
    ensures Distinct(ClosedBy(cs, known))
  {
    if cs != [] {
      var n := |cs| - 1;
      ClosedByIs(cs[..n], known);
      var before := ClosedBy(cs[..n], known);
      assert cs[n].key !in before by {
        assert forall i :: 0 <= i < n ==> !Closes(cs[..n][i], known, cs[n].key);
      }
      assert forall i :: 0 <= i < |before| ==> before[i] in before;
      forall k ensures k in ClosedBy(cs, known) <==> exists i :: 0 <= i < |cs| && Closes(cs[i], known, k) {
        if k in ClosedBy(cs[..n], known) {
          var i :| 0 <= i < n && Closes(cs[..n][i], known, k);
          assert Closes(cs[i], known, k);
        }
        if exists i :: 0 <= i < n && Closes(cs[i], known, k) {
          var i :| 0 <= i < n && Closes(cs[i], known, k);
          assert Closes(cs[..n][i], known, k);
        }
      }
    }
  }

  ghost predicate Closes(c: Change, known: seq<Position>, k: Key) { c.key == k && c.size == 0.0 && Lists(known, k) }

  // ---------- mark prices ----------

  lemma {:induction false} MarkOutcome(ps: seq<Position>, ticker: string, mark: real, k: Key)
    ensures Find(MarkedAll(ps, ticker, mark), k)
         == if Lists(ps, k) then Some(Marked(Find(ps, k).value, ticker, mark)) else None
    ensures Unique(ps) ==> Unique(MarkedAll(ps, ticker, mark))
  {
    if ps != [] {
      var n := |ps| - 1;
      MarkOutcome(ps[..n], ticker, mark, k);
      assert MarkedAll(ps, ticker, mark)[..n] == MarkedAll(ps[..n], ticker, mark);
    }
  }

  // ---------- what each call keeps ----------

  /** The batches the exchange and the platform send: no key twice. */
  ghost predicate Batch(c: Call) {
    (c.Snapshot? ==> Unique(c.incoming)) && (c.Incremental? ==> DistinctKeys(c.changes))
  }

  /** Keys stay unique. */
  lemma KeysStayUnique(s: Cache, c: Call)
    requires Unique(s.positions) && Batch(c)
    ensures Unique(Step(s, c).positions)
  {
    match c
    case Snapshot(_, incoming, _, _, now) => SnapshotOutcome(incoming, s.positions, now, Key("", ""));
    case Incremental(_, cs, _, _, now) => BatchOutcome(s.positions, cs, s.marks, now);
    case Mark(ticker, mark) => MarkOutcome(s.positions, ticker, mark, Key("", ""));
    case _ =>
  }

  /** How many changes of a batch would open a position of a key not listed yet. */
  function Openings(cs: seq<Change>, k: Key): nat {
    if cs == [] then 0
    else Openings(cs[..|cs| - 1], k) + if cs[|cs| - 1].key == k && cs[|cs| - 1].size != 0.0 then 1 else 0
  }

  lemma {:induction false} OccursWithout(ps: seq<Position>, gone: Key, k: Key)
    ensures Occurs(Without(ps, gone), k) == if k == gone then 0 else Occurs(ps, k)
  {
    if ps != [] {
      OccursWithout(ps[..|ps| - 1], gone, k);
      OccursAppend(Without(ps[..|ps| - 1], gone), [ps[|ps| - 1]], k);
    }
  }

  lemma {:induction false} OccursChangeLast(ps: seq<Position>, c: Change, mark: real, k: Key)
    ensures Occurs(ChangeLast(ps, c, mark), k) == Occurs(ps, k)
  {
    if ps != [] {
      var init, p := ps[..|ps| - 1], ps[|ps| - 1];
      OccursChangeLast(init, c, mark, k);
      OccursAppend(init, [Changed(p, c, mark)], k);
      OccursAppend(ChangeLast(init, c, mark), [p], k);
    }
  }

  lemma {:induction false} OccursApplied(ps: seq<Position>, cs: seq<Change>, marks: map<string, real>, now: nat, k: Key)
    ensures Lists(ps, k) ==> Occurs(AppliedAll(ps, cs, ps, marks, now), k) <= Occurs(ps, k)
    ensures !Lists(ps, k) ==> Occurs(AppliedAll(ps, cs, ps, marks, now), k) == Openings(cs, k)
  {
    OccursListed(ps, k);
    if cs != [] {
      var c, before := cs[|cs| - 1], AppliedAll(ps, cs[..|cs| - 1], ps, marks, now);
      OccursApplied(ps, cs[..|cs| - 1], marks, now, k);
      OccursStep(before, c, ps, marks, now, k);
    }
  }

  lemma OccursStep(before: seq<Position>, c: Change, known: seq<Position>, marks: map<string, real>, now: nat, k: Key)
    ensures Occurs(Applied(before, c, known, marks, now), k)
         == if k != c.key then Occurs(before, k)
            else if Lists(known, k) then if c.size == 0.0 then 0 else Occurs(before, k)
            else Occurs(before, k) + if c.size == 0.0 then 0 else 1
  {
    OccursWithout(before, c.key, k);
    OccursChangeLast(before, c, MarkOf(marks, c.key.ticker), k);
    OccursAppend(before, [Opened(c, marks, now)], k);
    OneOccurs(Opened(c, marks, now), k);
  }

  lemma OneOccurs(p: Position, k: Key)
    ensures Occurs([p], k) == if p.key == k then 1 else 0
  {
    assert [p][..0] == [];
  }

  ghost predicate OneOfEach(s: Cache, c: Call) {
    match c
    case Snapshot(_, incoming, _, _, _) => Unique(incoming)
    case Incremental(_, cs, _, _, _) => forall k :: !Lists(s.positions, k) ==> Openings(cs, k) <= 1
    case _ => true
  }

  /** For any batch at all: keys stay unique if and only if a snapshot lists no key twice,
      and an incremental batch opens no new key twice. */
  lemma KeysStayUniqueExactlyWhen(s: Cache, c: Call)
    requires Unique(s.positions) && Accepted(s, c)
    ensures Unique(Step(s, c).positions) <==> OneOfEach(s, c)
  {
    match c
    case Snapshot(_, incoming, _, _, now) =>
      var carried := CarriedAll(incoming, s.positions, now);
      assert forall i :: 0 <= i < |incoming| ==> carried[i].key == incoming[i].key;
      SortUnique(carried);
    case Incremental(_, cs, _, _, now) => IncrementalUnique(s, cs, now);
    case Mark(ticker, mark) => MarkOutcome(s.positions, ticker, mark, Key("", ""));
    case _ =>
  }

  lemma IncrementalUnique(s: Cache, cs: seq<Change>, now: nat)
    requires Unique(s.positions)
    ensures Unique(AppliedAll(s.positions, cs, s.positions, s.marks, now))
       <==> forall k :: !Lists(s.positions, k) ==> Openings(cs, k) <= 1
  {
    var after := AppliedAll(s.positions, cs, s.positions, s.marks, now);
    UniqueByCount(s.positions);
    UniqueByCount(after);
    forall k ensures Occurs(after, k) <= 1 <==> Lists(s.positions, k) || Openings(cs, k) <= 1 {
      OccursApplied(s.positions, cs, s.marks, now, k);
      assert Occurs(s.positions, k) <= 1;
    }
    if AtMostOnce(after) {
      forall k | !Lists(s.positions, k) ensures Openings(cs, k) <= 1 { assert Occurs(after, k) <= 1; }
    }
  }

  /** A batch with one new key twice lists it twice. */
  lemma TwiceInOneBatch(s: Cache, c: Change, source: Source, time: int, now: nat)
    requires c.size != 0.0 && !Lists(s.positions, c.key)
    ensures !Unique(Step(s, Incremental(source, [c, c], None, time, now)).positions)
  {
    var first := AppliedAll(s.positions, [c], s.positions, s.marks, now);
    assert [c, c][..1] == [c] && [c][..0] == [];
    assert AppliedAll(s.positions, [], s.positions, s.marks, now) == s.positions;
    assert first == s.positions + [Opened(c, s.marks, now)];
    var ps := Step(s, Incremental(source, [c, c], None, time, now)).positions;
    assert ps == first + [Opened(c, s.marks, now)];
    assert ps[|ps| - 2].key == ps[|ps| - 1].key;
  }

  lemma IncrementalClosed(s: Cache, cs: seq<Change>, marks: map<string, real>, now: nat, k: Key)
    requires Unique(s.positions) && DistinctKeys(cs)
    ensures k in ClosedBy(cs, s.positions)
       <==> Lists(s.positions, k) && !Lists(AppliedAll(s.positions, cs, s.positions, marks, now), k)
  {
    BatchOutcome(s.positions, cs, marks, now);
    ClosedByIs(cs, s.positions);
    if exists i :: 0 <= i < |cs| && cs[i].key == k {
      var i :| 0 <= i < |cs| && cs[i].key == k;
      assert Closes(cs[i], s.positions, k) <==> cs[i].size == 0.0 && Lists(s.positions, k);
    }
  }

  /** The closed events of a call name exactly the keys listed before it and not after it, each once. */
  lemma ClosedExactlyGone(s: Cache, c: Call)
    requires Unique(s.positions) && Batch(c)
    ensures forall k :: k in Closed(s, c) <==> Lists(s.positions, k) && !Lists(Step(s, c).positions, k)
    ensures Distinct(Closed(s, c))
  {
    forall k ensures k in Closed(s, c) <==> Lists(s.positions, k) && !Lists(Step(s, c).positions, k) {
      match c
      case Snapshot(_, incoming, _, _, now) =>
        MissingIs(s.positions, incoming);
        SnapshotOutcome(incoming, s.positions, now, k);
      case Incremental(_, cs, _, _, now) => IncrementalClosed(s, cs, s.marks, now, k);
      case Mark(ticker, mark) => MarkOutcome(s.positions, ticker, mark, k);
      case _ =>
    }
    match c
    case Snapshot(_, incoming, _, _, _) => MissingIs(s.positions, incoming);
    case Incremental(_, cs, _, _, _) => ClosedByIs(cs, s.positions);
    case _ =>
  }

  /** The tickers a call reports as new are exactly those of keys listed after it and not before. */
  lemma NewTickersExactlyOpened(s: Cache, c: Call, ticker: string)
    requires Unique(s.positions) && Batch(c)
    ensures ticker in NewTickers(s, c) <==> exists k: Key :: k.ticker == ticker && Enters(s, c, k)
  {
    match c
    case Snapshot(_, incoming, _, _, now) =>
      forall k: Key ensures Enters(s, c, k) <==> Accepted(s, c) && !Lists(s.positions, k) && Lists(incoming, k) {
        SnapshotOutcome(incoming, s.positions, now, k);
        FindIsMember(incoming, k);
      }
      forall p | p in incoming ensures Lists(incoming, p.key) { FindIsMember(incoming, p.key); }
      forall k: Key | Lists(incoming, k) ensures exists p :: p in incoming && p.key == k { FindIsMember(incoming, k); }
    case Incremental(_, cs, _, _, now) =>
      BatchOutcome(s.positions, cs, s.marks, now);
      forall k: Key
        ensures Enters(s, c, k) <==> !Lists(s.positions, k) && exists d :: d in cs && d.key == k && d.size != 0.0
      {
        if !Lists(s.positions, k) { OpensByChange(s, cs, now, k); }
      }
    case Mark(t, mark) =>
      forall k: Key ensures !Enters(s, c, k) { MarkOutcome(s.positions, t, mark, k); }
    case _ =>
  }

  predicate Enters(s: Cache, c: Call, k: Key) { !Lists(s.positions, k) && Lists(Step(s, c).positions, k) }

  lemma OpensByChange(s: Cache, cs: seq<Change>, now: nat, k: Key)
    requires Unique(s.positions) && DistinctKeys(cs) && !Lists(s.positions, k)
    ensures Lists(AppliedAll(s.positions, cs, s.positions, s.marks, now), k)
       <==> exists d :: d in cs && d.key == k && d.size != 0.0
  {
    BatchOutcome(s.positions, cs, s.marks, now);
    if exists i :: 0 <= i < |cs| && cs[i].key == k {
      var i :| 0 <= i < |cs| && cs[i].key == k;
      assert cs[i] in cs;
      assert Find(AppliedAll(s.positions, cs, s.positions, s.marks, now), k)
          == Outcome(Find(s.positions, k), cs[i], s.marks, now);
    }
  }

  /** While a key stays listed its entry time stays. */
  lemma EntryTimeStays(s: Cache, c: Call, k: Key)
    requires Unique(s.positions) && Batch(c) && Lists(s.positions, k) && Lists(Step(s, c).positions, k)
    ensures Find(Step(s, c).positions, k).value.meta.entryTime == Find(s.positions, k).value.meta.entryTime
  {
    match c
    case Snapshot(_, incoming, _, _, now) =>
      SnapshotOutcome(incoming, s.positions, now, k);
      FindIsMember(incoming, k);
    case Incremental(_, cs, _, _, now) => ChangeKeepsMeta(s, cs, now, k);
    case Mark(ticker, mark) => MarkOutcome(s.positions, ticker, mark, k);
    case _ =>
  }

  lemma ChangeKeepsMeta(s: Cache, cs: seq<Change>, now: nat, k: Key)
    requires Unique(s.positions) && DistinctKeys(cs) && Lists(s.positions, k)
    requires Lists(AppliedAll(s.positions, cs, s.positions, s.marks, now), k)
    ensures Find(AppliedAll(s.positions, cs, s.positions, s.marks, now), k).value.meta
      == Find(s.positions, k).value.meta
  {
    BatchOutcome(s.positions, cs, s.marks, now);
    if exists i :: 0 <= i < |cs| && cs[i].key == k {
      var i :| 0 <= i < |cs| && cs[i].key == k;
      assert Find(AppliedAll(s.positions, cs, s.positions, s.marks, now), k)
        == Outcome(Find(s.positions, k), cs[i], s.marks, now);
    }
  }

  // ---------- runs ----------

  ghost predicate Batches(calls: seq<Call>) { forall i :: 0 <= i < |calls| ==> Batch(calls[i]) }

  lemma {:induction false} RunsKeepUnique(s: Cache, calls: seq<Call>)
    requires Unique(s.positions) && Batches(calls)
    ensures Unique(Run(s, calls).positions)
  {
    if calls != [] {
      RunsKeepUnique(s, calls[..|calls| - 1]);
      KeysStayUnique(Run(s, calls[..|calls| - 1]), calls[|calls| - 1]);
    }
  }

  datatype Event = Opens | CloseEvent

  /** The life of one key: an entry whenever it becomes listed, and every closed event naming it. */
  function Life(s: Cache, calls: seq<Call>, k: Key): seq<Event> {
    if calls == [] then []
    else
      var init, c := calls[..|calls| - 1], calls[|calls| - 1];
      var before := Run(s, init);
      Life(s, init, k)
        + (if !Lists(before.positions, k) && Lists(Step(before, c).positions, k) then [Opens] else [])
        + (if k in Closed(before, c) then [CloseEvent] else [])
  }

  /** Openings and closed events of a key alternate, and the key is listed exactly after an opening. */
  lemma {:induction false} LifeAlternates(s: Cache, calls: seq<Call>, k: Key)
    requires Unique(s.positions) && Batches(calls) && !Lists(s.positions, k)
    ensures Alternates(Life(s, calls, k))
    ensures Lists(Run(s, calls).positions, k) <==> |Life(s, calls, k)| % 2 == 1
  {
    if calls != [] {
      var n := |calls| - 1;
      LifeAlternates(s, calls[..n], k);
      RunsKeepUnique(s, calls[..n]);
      ClosedExactlyGone(Run(s, calls[..n]), calls[n]);
      LifeGrows(Life(s, calls[..n], k), Lists(Run(s, calls[..n]).positions, k), Lists(Run(s, calls).positions, k),
                k in Closed(Run(s, calls[..n]), calls[n]), Life(s, calls, k));
    }
  }

  lemma LifeGrows(life: seq<Event>, before: bool, after: bool, closed: bool, more: seq<Event>)
    requires before <==> |life| % 2 == 1
    requires closed <==> before && !after
    requires more == life + (if !before && after then [Opens] else []) + (if closed then [CloseEvent] else [])
    requires Alternates(life)
    ensures Alternates(more) && (after <==> |more| % 2 == 1)
  {
  }

  ghost predicate Alternates(life: seq<Event>) {
    forall i :: 0 <= i < |life| ==> life[i] == if i % 2 == 0 then Opens else CloseEvent
  }

  /** Over a stretch in which a key stays listed its entry time is one and the same. */
  lemma {:induction false} EntryTimeConstant(s: Cache, calls: seq<Call>, k: Key)
    requires Unique(s.positions) && Batches(calls)
    requires forall i :: 0 <= i <= |calls| ==> Lists(Run(s, calls[..i]).positions, k)
    ensures Lists(s.positions, k) && Lists(Run(s, calls).positions, k)
    ensures Find(Run(s, calls).positions, k).value.meta.entryTime == Find(s.positions, k).value.meta.entryTime
  {
    var n := |calls| - 1;
    assert calls[..0] == [] && calls[..|calls|] == calls;
    if calls != [] {
      forall i | 0 <= i <= n ensures Lists(Run(s, calls[..n][..i]).positions, k) {
        assert calls[..n][..i] == calls[..i];
      }
      EntryTimeConstant(s, calls[..n], k);
      RunsKeepUnique(s, calls[..n]);
      EntryTimeStays(Run(s, calls[..n]), calls[n], k);
    }
  }

  // ---------- versions ----------

  predicate WritesPositions(c: Call) { c.Snapshot? || c.Incremental? }

  function AcceptedUpdates(s: Cache, calls: seq<Call>): nat {
    if calls == [] then 0
    else
      var init, c := calls[..|calls| - 1], calls[|calls| - 1];
      AcceptedUpdates(s, init) + if WritesPositions(c) && Accepted(Run(s, init), c) then 1 else 0
  }

  /** The version counts the accepted position updates. */
  lemma {:induction false} VersionCountsUpdates(s: Cache, calls: seq<Call>)
    ensures Run(s, calls).version.sequence == s.version.sequence + AcceptedUpdates(s, calls)
  {
    if calls != [] { VersionCountsUpdates(s, calls[..|calls| - 1]); }
  }

  predicate RejectedSnapshot(s: Cache, c: Call) {
    c.Snapshot? && !c.force && c.source == Rest && (s.version.source == WsUser || s.version.source == Platform)
    && c.time - s.version.time < 5000
  }

  /** A call is rejected, and then changes nothing and closes nothing, exactly when an unforced REST report
      arrives within the window after what a websocket or the platform wrote. */
  lemma RejectedExactlyWhen(s: Cache, c: Call)
    requires WritesPositions(c)
    ensures !Accepted(s, c) <==> RejectedSnapshot(s, c)
    ensures Step(s, c) == s && Closed(s, c) == [] <==> RejectedSnapshot(s, c)
  {
    if Accepted(s, c) { assert Step(s, c).version.sequence == s.version.sequence + 1; }
  }

  /** What a websocket or the platform wrote is protected: until the window is over no sequence of unforced REST
      snapshots changes anything. */
  lemma {:induction false} LiveStateProtected(s: Cache, reports: seq<Call>)
    requires s.version.source == WsUser || s.version.source == Platform
    requires forall i :: 0 <= i < |reports| ==> RestWithin(s, reports[i])
    ensures Run(s, reports) == s
  {
    if reports != [] { LiveStateProtected(s, reports[..|reports| - 1]); }
  }

  predicate RestWithin(s: Cache, c: Call) {
    c.Snapshot? && !c.force && c.source == Rest && c.time < s.version.time + 5000
  }

  // ---------- aggregates ----------

  /** After a tick with a positive balance the aggregates are those of the positions just marked. */
  lemma TickAggregates(s: Cache, ticker: string, mark: real)
    requires s.account.balance > 0.0
    ensures var after := Step(s, Mark(ticker, mark));
      && after.account.unrealized == Sum(Unrealized(after.positions))
      && after.account.equity == Max(0.0, after.account.balance + after.account.unrealized)
      && 0.0 <= after.account.available && after.account.balance == s.account.balance
      && ((forall i :: 0 <= i < |s.positions| ==> s.positions[i].marginUsed >= 0.0)
          ==> after.account.available <= after.account.equity)
  {
    var after := Step(s, Mark(ticker, mark));
    if forall i :: 0 <= i < |s.positions| ==> s.positions[i].marginUsed >= 0.0 {
      SumNonNegative(Margins(after.positions));
    }
  }

  ghost predicate WithinExtremes(a: Account) { a.minEquity <= a.equity <= a.maxEquity }

  lemma StepWithinExtremes(s: Cache, c: Call)
    ensures Accepted(s, c) ==> WithinExtremes(Step(s, c).account)
  {
  }

  /** Once a call has been accepted equity lies between the recorded extremes for the rest of the run. */
  lemma {:induction false} EquityWithinExtremes(s: Cache, calls: seq<Call>)
    requires WithinExtremes(s.account) || exists i :: 0 <= i < |calls| && Accepted(Run(s, calls[..i]), calls[i])
    ensures WithinExtremes(Run(s, calls).account)
  {
    if calls != [] {
      var n := |calls| - 1;
      StepWithinExtremes(Run(s, calls[..n]), calls[n]);
      if !Accepted(Run(s, calls[..n]), calls[n]) {
        if !WithinExtremes(s.account) {
          var i :| 0 <= i < |calls| && Accepted(Run(s, calls[..i]), calls[i]);
          assert calls[..n][..i] == calls[..i] && calls[..n][i] == calls[i];
        }
        EquityWithinExtremes(s, calls[..n]);
      }
    }
  }
}
