/**
 The candle downloader's cursor and retry loop, driven by an arbitrary stream of replies.
 It stops on every stream exactly when the timeframe is not negative (or nothing is asked for).
 */
module OhlcvFetch {
  import opened Numerics

  /** One call's outcome; a page carries the candles' timestamps. */
  datatype Reply = Page(stamps: seq<int>) | SymbolError | NetworkError | Unexpected

  datatype State = Running(since: int, retries: nat, written: nat) | Stopped(written: nat)

  const MAX_RETRIES := 5

  // ---------- the range to fetch ----------

  /** Milliseconds per candle; `parse` is Python's `int`, None when it raises. */
  function TfMs(timeframe: string, parse: string -> Option<int>): int {
    if timeframe == "" then 3600000
    else
      var unit, count := timeframe[|timeframe| - 1], parse(timeframe[..|timeframe| - 1]);
      if count.None? then 3600000
      else if unit == 'm' then count.value * 60000
      else if unit == 'h' then count.value * 3600000
      else if unit == 'd' then count.value * 86400000
      else if unit == 'w' then count.value * 604800000
      else 3600000
  }

  /** Only a recognised unit with a negative count gives a negative length. */
  lemma TfMsNegative(timeframe: string, parse: string -> Option<int>)
    ensures TfMs(timeframe, parse) < 0 <==>
      && timeframe != "" && timeframe[|timeframe| - 1] in {'m', 'h', 'd', 'w'}
      && parse(timeframe[..|timeframe| - 1]).Some? && parse(timeframe[..|timeframe| - 1]).value < 0
  {
  }

  /** A minute has sixty thousand milliseconds, an hour sixty minutes, a day 24 hours, a week seven days, and n of a
      unit last n times as long; a text that is empty, has no number or no unit reads as one hour. */
  lemma TfMsIs(n: string, parse: string -> Option<int>)
    ensures TfMs("", parse) == 60 * 60 * 1000
    ensures forall unit: char :: parse(n).None? || unit !in "mhdw" ==> TfMs(n + [unit], parse) == 60 * 60 * 1000
    ensures parse(n).Some? ==>
      && TfMs(n + "m", parse) == parse(n).value * 60 * 1000 && TfMs(n + "h", parse) == 60 * TfMs(n + "m", parse)
      && TfMs(n + "d", parse) == 24 * TfMs(n + "h", parse) && TfMs(n + "w", parse) == 7 * TfMs(n + "d", parse)
  {
    forall unit: char ensures (n + [unit])[..|n|] == n && (n + [unit])[|n|] == unit {
    }
    assert (n + "m")[..|n|] == n && (n + "h")[..|n|] == n && (n + "d")[..|n|] == n && (n + "w")[..|n|] == n;
  }

  /** Start of the fetch: the target, or two candles before the newest stored one when the target is covered. */
  function FetchSince(target: int, stored: Option<(int, int)>, tf: int): int {
    if stored.Some? && stored.value.0 <= target then MaxInt(target, stored.value.1 - tf * 2) else target
  }

  /** When the target is covered, the fetch leaves no hole after the stored candles if and only if the timeframe is not
      negative, or two candles back from the newest is no later than the target anyway. */
  lemma JoinsStoredExactlyWhen(target: int, oldest: int, newest: int, tf: int)
    requires oldest <= target
    ensures (forall t :: !Hole(target, oldest, newest, tf, t))
       <==> tf >= 0 || newest - tf * 2 <= target
  {
    var since := FetchSince(target, Some((oldest, newest)), tf);
    if tf < 0 && newest - tf * 2 > target {
      assert Hole(target, oldest, newest, tf, since - 1);
    }
  }

  /** A time from the target on that is neither stored nor fetched. */
  predicate Hole(target: int, oldest: int, newest: int, tf: int, t: int) {
    target <= t < FetchSince(target, Some((oldest, newest)), tf) && !(oldest <= t <= newest)
  }

  // ---------- one round ----------

  function Next(s: State, reply: Reply, now: int, tf: int, limit: int): State {
    if s.Stopped? then s
    else if s.since >= now then Stopped(s.written)
    else match reply
      case Page(stamps) =>
        if stamps == [] then Stopped(s.written)
        else
          var last, written := stamps[|stamps| - 1], s.written + |stamps|;
          if last <= s.since || |stamps| < limit then Stopped(written)
          else Running(last + tf, 0, written)
      case NetworkError =>
        if s.retries + 1 > MAX_RETRIES then Stopped(s.written) else s.(retries := s.retries + 1)
      case SymbolError => Stopped(s.written)
      case Unexpected => Stopped(s.written)
  }

  function After(replies: nat -> Reply, n: nat, s: State, now: int, tf: int, limit: int): State {
    if n == 0 then s else Next(After(replies, n - 1, s, now, tf, limit), replies(n - 1), now, tf, limit)
  }

  ghost predicate StopsOn(replies: nat -> Reply, since: int, now: int, tf: int, limit: int) {
    exists n: nat :: After(replies, n, Running(since, 0, 0), now, tf, limit).Stopped?
  }

  lemma {:induction false} StopsForGood(replies: nat -> Reply, m: nat, n: nat, s: State, now: int, tf: int, limit: int)
    requires m <= n && After(replies, m, s, now, tf, limit).Stopped?
    ensures After(replies, n, s, now, tf, limit) == After(replies, m, s, now, tf, limit)
  {
    if m < n { StopsForGood(replies, m, n - 1, s, now, tf, limit); }
  }

  /** Five network failures in a row are retried where they are; the sixth ends the fetch. */
  lemma {:induction false} SixthFailureStops(replies: nat -> Reply, n: nat, since: int, now: int, tf: int, limit: int)
    requires since < now && forall i: nat :: i < n ==> replies(i) == NetworkError
    ensures After(replies, n, Running(since, 0, 0), now, tf, limit)
         == if n <= 5 then Running(since, n, 0) else Stopped(0)
  {
    if n > 0 { SixthFailureStops(replies, n - 1, since, now, tf, limit); }
  }

  /** The loop on any stream of replies it stops on. */
  method FetchLoop(replies: nat -> Reply, since: int, now: int, tf: int, limit: int) returns (written: nat)
    requires StopsOn(replies, since, now, tf, limit)
    ensures exists n :: After(replies, n, Running(since, 0, 0), now, tf, limit) == Stopped(written)
  {
    written := 0;
    var cursor, retries, call := since, 0, 0;
    ghost var last: nat :| After(replies, last, Running(since, 0, 0), now, tf, limit).Stopped?;
    while cursor < now
      invariant After(replies, call, Running(since, 0, 0), now, tf, limit) == Running(cursor, retries, written)
      decreases last - call
    {
      if last <= call { StopsForGood(replies, last, call, Running(since, 0, 0), now, tf, limit); }
      var reply := replies(call);
      call := call + 1;
      assert After(replies, call, Running(since, 0, 0), now, tf, limit)
          == Next(Running(cursor, retries, written), reply, now, tf, limit);
      match reply {
        case Page(stamps) =>
          retries := 0;
          if stamps == [] {
            return;
          }
          written := written + |stamps|;
          var newest := stamps[|stamps| - 1];
          if newest <= cursor {
            return;
          }
          cursor := newest + tf;
          if |stamps| < limit {
            return;
          }
        case NetworkError =>
          retries := retries + 1;
          if retries > MAX_RETRIES {
            return;
          }
        case SymbolError => return;
        case Unexpected => return;
      }
    }
    assert After(replies, call + 1, Running(since, 0, 0), now, tf, limit) == Stopped(written);
  }

  // ---------- termination, both ways ----------

  ghost predicate AlwaysStops(since: int, now: int, tf: int, limit: int) {
    forall replies: nat -> Reply :: StopsOn(replies, since, now, tf, limit)
  }

  /** The replies that keep a backward-stepping cursor where it is: full pages ending one step ahead. */
  function Stall(since: int, tf: int, limit: int): nat -> Reply {
    (i: nat) => Page(seq(MaxInt(1, limit), (j: nat) => since - tf))
  }

  lemma {:induction false} StallKeepsRunning(since: int, now: int, tf: int, limit: int, n: nat)
    requires tf < 0 && since < now
    ensures var s := After(Stall(since, tf, limit), n, Running(since, 0, 0), now, tf, limit);
      s.Running? && s.since == since
  {
    if n > 0 { StallKeepsRunning(since, now, tf, limit, n - 1); }
  }

  function TimeLeft(s: State, now: int): int { if s.Stopped? then 0 else 1 + MaxInt(0, now - s.since) }

  function RetriesLeft(s: State): int { if s.Stopped? then 0 else MAX_RETRIES - s.retries }

  lemma {:induction false} StopsWithin(replies: nat -> Reply, n: nat, s: State, now: int, tf: int, limit: int)
    returns (k: nat)
    requires tf >= 0
    requires After(replies, n, s, now, tf, limit).Running?
      ==> After(replies, n, s, now, tf, limit).retries <= MAX_RETRIES
    ensures After(replies, k, s, now, tf, limit).Stopped?
    decreases TimeLeft(After(replies, n, s, now, tf, limit), now), RetriesLeft(After(replies, n, s, now, tf, limit))
  {
    var r := After(replies, n, s, now, tf, limit);
    if r.Stopped? {
      k := n;
    } else if Next(r, replies(n), now, tf, limit).Stopped? {
      k := n + 1;
    } else {
      k := StopsWithin(replies, n + 1, s, now, tf, limit);
    }
  }

  /** Every stream of replies ends the loop if and only if time cannot step backwards or nothing is asked for. */
  lemma TerminatesExactlyWhen(since: int, now: int, tf: int, limit: int)
    ensures AlwaysStops(since, now, tf, limit) <==> (tf >= 0 || since >= now)
  {
    var start := Running(since, 0, 0);
    if since >= now {
      forall replies: nat -> Reply ensures StopsOn(replies, since, now, tf, limit) {
        assert After(replies, 0, start, now, tf, limit) == start;
        assert After(replies, 1, start, now, tf, limit).Stopped?;
      }
    } else if tf >= 0 {
      forall replies: nat -> Reply ensures StopsOn(replies, since, now, tf, limit) {
        var k := StopsWithin(replies, 0, start, now, tf, limit);
      }
    } else {
      forall n: nat ensures After(Stall(since, tf, limit), n, start, now, tf, limit).Running? {
        StallKeepsRunning(since, now, tf, limit, n);
      }
      assert !StopsOn(Stall(since, tf, limit), since, now, tf, limit);
    }
  }
}
