/**
 The drawdown state machine: thresholds on the way in, recovery from the episode's worst
 drawdown on the way out, a manual override per episode and the entry gate that reads them.
 */
module DrawdownLatch {
  import opened Numerics

  datatype Level = Ok | Warning | Limit

  datatype Thresholds = Thresholds(warning: real, limit: real, recovery: real)

  function FromDrawdown(dd: real, t: Thresholds): Level {
    if dd >= t.limit then Limit else if dd >= t.warning then Warning else Ok
  }

  /** The drawdown an episode has to come back to before limit is left. */
  function RecoveryLevel(worst: real, t: Thresholds): real { worst * (1.0 - t.recovery) }

  function WithRecovery(previous: Level, dd: real, peak: real, t: Thresholds): (Level, real) {
    var worst := Max(peak, dd);
    if previous.Limit? && worst > 0.0 then
      if dd <= RecoveryLevel(worst, t) then (Ok, 0.0) else (Limit, worst)
    else
      var level := FromDrawdown(dd, t);
      (level, if level.Ok? then 0.0 else worst)
  }

  // ---------- rolling drawdown ----------

  /** Snapshots outside the window, and none at all, leave the current equity as the peak. */
  function PeakIn(history: seq<(int, real)>, cutoff: int, current: real): real {
    if history == [] then current
    else
      var (ts, equity), peak := history[|history| - 1], PeakIn(history[..|history| - 1], cutoff, current);
      if ts >= cutoff then Max(peak, equity) else peak
  }

  function Drawdown(peak: real, current: real): real {
    if peak <= 0.0 then 0.0 else Max((peak - current) / peak, 0.0)
  }

  method ComputeRollingDrawdown(history: seq<(int, real)>, current: real, windowMs: int, now: int)
    returns (dd: real, peak: real)
    ensures var p := PeakIn(history, now - windowMs, current);
      dd == Drawdown(p, current) && peak == if p <= 0.0 then 0.0 else p
  {
    var cutoff := now - windowMs;
    peak := current;
    for i := 0 to |history|
      invariant peak == PeakIn(history[..i], cutoff, current)
    {
      assert history[..i + 1][..i] == history[..i];
      if history[i].0 >= cutoff {
        peak := Max(peak, history[i].1);
      }
    }
    assert history[..|history|] == history;
    if peak <= 0.0 {
      return 0.0, 0.0;
    }
    dd := Max((peak - current) / peak, 0.0);
  }

  /** The peak is the highest equity of the window including the current one; the drawdown is a share of it. */
  lemma {:induction false} PeakIsHighest(history: seq<(int, real)>, cutoff: int, current: real)
    ensures current <= PeakIn(history, cutoff, current)
    ensures forall i :: 0 <= i < |history| && history[i].0 >= cutoff ==>
      history[i].1 <= PeakIn(history, cutoff, current)
    ensures PeakIn(history, cutoff, current) == current
         || exists i :: 0 <= i < |history| && history[i].0 >= cutoff && history[i].1 == PeakIn(history, cutoff, current)
  {
    if history != [] {
      var n := |history| - 1;
      var init := history[..n];
      PeakIsHighest(init, cutoff, current);
      if exists i :: 0 <= i < n && init[i].0 >= cutoff && init[i].1 == PeakIn(init, cutoff, current) {
        var i :| 0 <= i < n && init[i].0 >= cutoff && init[i].1 == PeakIn(init, cutoff, current);
        assert history[i] == init[i];
      }
      assert PeakIn(history, cutoff, current) != PeakIn(init, cutoff, current)
        ==> (history[n].0 >= cutoff && history[n].1 == PeakIn(history, cutoff, current));
    }
  }

  lemma DrawdownIsShare(history: seq<(int, real)>, cutoff: int, current: real)
    requires current >= 0.0
    ensures 0.0 <= Drawdown(PeakIn(history, cutoff, current), current) <= 1.0
  {
    PeakIsHighest(history, cutoff, current);
    var peak := PeakIn(history, cutoff, current);
    if peak > 0.0 {
      ShareLost(peak, current);
      DivideMonotone(0.0, current, peak);
    }
  }

  /** Of a positive peak it is the share that brings it down to the current equity; another peak loses nothing. */
  lemma DrawdownIsLost(history: seq<(int, real)>, cutoff: int, current: real)
    ensures var peak := PeakIn(history, cutoff, current);
      && (peak > 0.0 ==> peak - Drawdown(peak, current) * peak == current)
      && (peak <= 0.0 ==> Drawdown(peak, current) == 0.0)
  {
    PeakIsHighest(history, cutoff, current);
    var peak := PeakIn(history, cutoff, current);
    if peak > 0.0 {
      DivideMonotone(0.0, peak - current, peak);
      DivideBack(peak - current, peak);
    }
  }

  /** The drawdown seen at a tick is the fall to it from the highest equity of the ticks so far that are at most a
      window old. */
  lemma SeenIsFallInWindow(feed: seq<(int, real)>, windowMs: int, i: nat) returns (peak: real)
    requires i < |feed| && windowMs >= 0
    ensures forall j :: 0 <= j <= i && feed[i].0 - feed[j].0 <= windowMs ==> feed[j].1 <= peak
    ensures exists j :: 0 <= j <= i && feed[i].0 - feed[j].0 <= windowMs && feed[j].1 == peak
    ensures SeenAt(feed, windowMs, i) * peak == if peak > 0.0 then peak - feed[i].1 else 0.0
  {
    var seen, cutoff := feed[..i + 1], feed[i].0 - windowMs;
    peak := PeakIn(seen, cutoff, feed[i].1);
    PeakIsHighest(seen, cutoff, feed[i].1);
    DrawdownIsLost(seen, cutoff, feed[i].1);
    forall j | 0 <= j <= i && feed[i].0 - feed[j].0 <= windowMs ensures feed[j].1 <= peak { assert seen[j] == feed[j]; }
    if peak == feed[i].1 {
      assert feed[i].0 - feed[i].0 <= windowMs;
    } else {
      var j :| 0 <= j < |seen| && seen[j].0 >= cutoff && seen[j].1 == peak;
      assert feed[j] == seen[j];
    }
  }

  // ---------- one account's latch ----------

  /** `dd_previous_states` and `dd_episode_peaks` hold nothing before the first tick. */
  datatype Latch = Latch(previous: Option<Level>, peak: Option<real>, shown: Level, overridden: bool)

  function Fresh(): Latch { Latch(None, None, Ok, false) }

  function Previous(s: Latch): Level { if s.previous.Some? then s.previous.value else Ok }

  /** A recalculation: with thresholds set it evaluates the latch; without, the account shows ok. */
  function Tick(s: Latch, dd: real, thresholds: Option<Thresholds>): Latch {
    if thresholds.None? then s.(shown := Ok)
    else
      var previous := Previous(s);
      var (level, peak) := WithRecovery(previous, dd, if s.peak.Some? then s.peak.value else dd, thresholds.value);
      Latch(Some(level), Some(peak), level, s.overridden && !(previous.Limit? && !level.Limit?))
  }

  const MIN_REASON := 10

  /** The override endpoint refuses unless it is given a reason of ten characters and the account shows limit. */
  function Override(s: Latch, reason: string): Latch {
    if |reason| >= MIN_REASON && s.shown.Limit? then s.(overridden := true) else s
  }

  /** Every evaluation reads the settings anew, so the thresholds may change within a run. */
  datatype Action = Evaluate(dd: real, t: Thresholds) | Unconfigured | Grant(reason: string)

  function Act(s: Latch, a: Action): Latch {
    match a
    case Evaluate(dd, t) => Tick(s, dd, Some(t))
    case Unconfigured => Tick(s, 0.0, None)
    case Grant(reason) => Override(s, reason)
  }

  function Run(actions: seq<Action>): Latch {
    if actions == [] then Fresh() else Act(Run(actions[..|actions| - 1]), actions[|actions| - 1])
  }

  class AccountLatch {
    var previous: Option<Level>
    var peak: Option<real>
    var shown: Level
    var overridden: bool

    function State(): Latch
      reads this
    {
      Latch(previous, peak, shown, overridden)
    }

    constructor ()
      ensures State() == Fresh()
    {
      previous, peak, shown, overridden := None, None, Ok, false;
    }

    method Recalculate(dd: real, thresholds: Option<Thresholds>)
      modifies this
      ensures State() == Tick(old(State()), dd, thresholds)
    {
      if thresholds.None? {
        shown := Ok;
        return;
      }
      var prev := if previous.Some? then previous.value else Ok;
      var episode := if peak.Some? then peak.value else dd;
      var (level, worst) := WithRecovery(prev, dd, episode, thresholds.value);
      shown := level;
      peak := Some(worst);
      if level != prev {
        previous := Some(level);
        if prev.Limit? && !level.Limit? {
          overridden := false;
        }
      } else {
        previous := Some(level);
      }
    }

    /** `reason` comes stripped of surrounding blanks. */
    method Grant(reason: string) returns (answer: Answer)
      modifies this`overridden
      ensures State() == Override(old(State()), reason)
      ensures answer == if |reason| < MIN_REASON then NoReason
                        else if !old(State()).shown.Limit? then NotInLimit
                        else if old(State()).overridden then AlreadyActive
                        else Granted
    {
      if |reason| < MIN_REASON {
        return NoReason;
      }
      if !shown.Limit? {
        return NotInLimit;
      }
      if overridden {
        return AlreadyActive;
      }
      overridden := true;
      return Granted;
    }
  }

  datatype Answer = NoReason | NotInLimit | AlreadyActive | Granted

  // ---------- the episode peak ----------

  ghost predicate Sane(t: Thresholds) { t.limit > 0.0 && 0.0 < t.recovery < 1.0 }

  ghost predicate Reading(a: Action) { a.Evaluate? ==> a.dd >= 0.0 && Sane(a.t) }

  ghost predicate Readings(actions: seq<Action>) {
    forall i :: 0 <= i < |actions| ==> Reading(actions[i])
  }

  /** The largest drawdown evaluated since the last evaluation that came out ok (0 when that was the last one). */
  function WorstSinceOk(actions: seq<Action>): real {
    if actions == [] then 0.0
    else
      var init, last := actions[..|actions| - 1], actions[|actions| - 1];
      if !last.Evaluate? then WorstSinceOk(init)
      else if Previous(Run(actions)).Ok? then 0.0
      else Max(WorstSinceOk(init), last.dd)
  }

  /** In every reachable state the stored peak is that maximum, and it is positive while in limit. */
  lemma {:induction false} PeakIsWorstSinceOk(actions: seq<Action>)
    requires Readings(actions)
    ensures var s := Run(actions);
      && (s.peak.Some? ==> s.peak.value == WorstSinceOk(actions))
      && (s.peak.None? ==> s.previous.None? && WorstSinceOk(actions) == 0.0)
      && (Previous(s).Limit? ==> s.peak.Some? && s.peak.value > 0.0)
      && (Previous(s).Ok? ==> WorstSinceOk(actions) == 0.0)
      && WorstSinceOk(actions) >= 0.0
  {
    if actions != [] {
      PeakIsWorstSinceOk(actions[..|actions| - 1]);
    }
  }

  ghost predicate InLimit(actions: seq<Action>) { Previous(Run(actions)).Limit? }

  /** Limit is left exactly at an evaluation whose drawdown has come down to the part of the episode's worst, itself
      included, that the recovery leaves, and always to ok. So one as bad as the worst before never leaves it. */
  lemma LimitLeftExactlyOnRecovery(actions: seq<Action>, dd: real, t: Thresholds) returns (worst: real)
    requires Sane(t) && Readings(actions) && dd >= 0.0 && InLimit(actions)
    ensures worst == Max(WorstSinceOk(actions), dd)
    ensures !InLimit(actions + [Evaluate(dd, t)]) <==> dd <= worst * (1.0 - t.recovery)
    ensures var after := Run(actions + [Evaluate(dd, t)]);
      !InLimit(actions + [Evaluate(dd, t)]) ==> Previous(after).Ok? && after.peak == Some(0.0)
    ensures dd >= WorstSinceOk(actions) ==> InLimit(actions + [Evaluate(dd, t)])
  {
    worst := Max(WorstSinceOk(actions), dd);
    LeftAtLevel(actions, dd, t, worst);
    LevelBelowWorst(worst, t);
  }

  lemma LeftAtLevel(actions: seq<Action>, dd: real, t: Thresholds, worst: real)
    requires Readings(actions) && dd >= 0.0 && InLimit(actions) && worst == Max(WorstSinceOk(actions), dd)
    ensures var after := Run(actions + [Evaluate(dd, t)]);
      && (!Previous(after).Limit? <==> dd <= RecoveryLevel(worst, t)) && worst > 0.0
      && (!Previous(after).Limit? ==> Previous(after).Ok? && after.peak == Some(0.0))
  {
    PeakIsWorstSinceOk(actions);
    assert (actions + [Evaluate(dd, t)])[..|actions|] == actions;
  }

  lemma LevelBelowWorst(worst: real, t: Thresholds)
    requires worst > 0.0 && Sane(t)
    ensures RecoveryLevel(worst, t) == worst * (1.0 - t.recovery) < worst
  {
    StrictProduct(0.0, t.recovery, worst);
  }

  /** Outside limit the thresholds alone decide: limit from its threshold on, below it warning from its own, else ok. */
  lemma LimitEnteredExactlyAtThreshold(actions: seq<Action>, dd: real, t: Thresholds)
    requires Sane(t) && Readings(actions) && dd >= 0.0 && !InLimit(actions)
    ensures InLimit(actions + [Evaluate(dd, t)]) <==> dd >= t.limit
    ensures Previous(Run(actions + [Evaluate(dd, t)])).Warning? <==> t.warning <= dd < t.limit
  {
    PeakIsWorstSinceOk(actions);
    assert (actions + [Evaluate(dd, t)])[..|actions|] == actions;
  }

  /** Without any drawdown in an episode there is nothing to recover from: a limit of zero is not left at zero. */
  lemma ZeroLimitStays(t: Thresholds)
    requires t.limit <= 0.0
    ensures InLimit([Evaluate(0.0, t)]) && InLimit([Evaluate(0.0, t), Evaluate(0.0, t)])
  {
    var one, two := [Evaluate(0.0, t)], [Evaluate(0.0, t), Evaluate(0.0, t)];
    assert one[..0] == [] && two[..1] == one;
  }

  /** An account shows what its last evaluation came to, or ok once its thresholds have been removed; removing them and
      granting overrides leave the latch and its episode as they are. */
  lemma ShownIsLatest(actions: seq<Action>, a: Action)
    ensures var before, after := Run(actions), Run(actions + [a]);
      && (a.Evaluate? ==> Some(after.shown) == after.previous)
      && (a.Unconfigured? ==> after.shown == Ok && after.overridden == before.overridden)
      && (a.Grant? ==> after.shown == before.shown)
      && (!a.Evaluate? ==> after.previous == before.previous && after.peak == before.peak)
  {
    assert (actions + [a])[..|actions|] == actions;
  }

  /** The worst drawdown of an episode after further actions. */
  function WorstAfter(worst: real, more: seq<Action>): real {
    if more == [] then worst
    else
      var before, last := WorstAfter(worst, more[..|more| - 1]), more[|more| - 1];
      if last.Evaluate? then Max(before, last.dd) else before
  }

  /** An evaluation that has not come down to what its recovery leaves of the worst. */
  predicate StaysAbove(a: Action, worst: real) { a.Evaluate? ==> a.dd > worst * (1.0 - a.t.recovery) }

  ghost predicate NotRecovered(first: real, more: seq<Action>, i: nat)
    requires i < |more|
  {
    StaysAbove(more[i], WorstAfter(first, more[..i + 1]))
  }

  ghost predicate EpisodeLasts(actions: seq<Action>, more: seq<Action>) {
    forall i :: 0 <= i <= |more| ==> InLimit(actions + more[..i])
  }

  /** The hysteresis over whole runs: an episode lasts through all further actions if and only if no evaluation among
      them comes down to what its recovery leaves of the worst drawdown by then. */
  lemma {:induction false} EpisodeLastsExactlyWhen(actions: seq<Action>, more: seq<Action>)
    requires Readings(actions) && Readings(more) && InLimit(actions)
    ensures EpisodeLasts(actions, more)
       <==> forall i :: 0 <= i < |more| ==> NotRecovered(WorstSinceOk(actions), more, i)
    ensures EpisodeLasts(actions, more) ==> WorstSinceOk(actions + more) == WorstAfter(WorstSinceOk(actions), more)
    decreases |more|
  {
    var worst := WorstSinceOk(actions);
    if more == [] {
      assert actions + more == actions;
      forall i | 0 <= i <= |more| ensures InLimit(actions + more[..i]) { assert actions + more[..i] == actions; }
    } else {
      var n := |more| - 1;
      EpisodeLastsExactlyWhen(actions, more[..n]);
      EpisodeParts(actions, more);
      LastApart(actions, more);
      if EpisodeLasts(actions, more[..n]) {
        assert more[..n][..n] == more[..n];
        EpisodeStep(actions, more, actions + more[..n], worst);
      }
    }
  }

  lemma EpisodeParts(actions: seq<Action>, more: seq<Action>)
    requires more != []
    ensures var n, worst := |more| - 1, WorstSinceOk(actions);
      && (EpisodeLasts(actions, more) <==> EpisodeLasts(actions, more[..n]) && InLimit(actions + more))
      && ((forall i :: 0 <= i < |more| ==> NotRecovered(worst, more, i))
          <==> (forall i :: 0 <= i < n ==> NotRecovered(worst, more[..n], i)) && NotRecovered(worst, more, n))
  {
    var n, worst := |more| - 1, WorstSinceOk(actions);
    assert more[..n + 1] == more;
    forall i | 0 <= i <= n ensures InLimit(actions + more[..n][..i]) <==> InLimit(actions + more[..i]) {
      assert more[..n][..i] == more[..i];
    }
    forall i | 0 <= i < n ensures NotRecovered(worst, more[..n], i) <==> NotRecovered(worst, more, i) {
      assert more[..n][..i + 1] == more[..i + 1];
    }
  }

  lemma EpisodeStep(actions: seq<Action>, more: seq<Action>, before: seq<Action>, first: real)
    requires more != [] && Readings(before) && Reading(more[|more| - 1]) && InLimit(before)
    requires actions + more == before + [more[|more| - 1]]
    requires WorstSinceOk(before) == WorstAfter(first, more[..|more| - 1])
    ensures InLimit(actions + more) <==> NotRecovered(first, more, |more| - 1)
    ensures InLimit(actions + more) ==> WorstSinceOk(actions + more) == WorstAfter(first, more)
  {
    var worst := EpisodeNext(before, more[|more| - 1]);
    assert worst == WorstAfter(first, more) && more[..|more|] == more;
  }

  lemma LastApart(actions: seq<Action>, more: seq<Action>)
    requires more != [] && Readings(actions) && Readings(more)
    ensures actions + more == actions + more[..|more| - 1] + [more[|more| - 1]]
    ensures Readings(actions + more[..|more| - 1]) && Reading(more[|more| - 1])
  {
    var before := actions + more[..|more| - 1];
    forall i | 0 <= i < |before| ensures Reading(before[i]) {
      if i >= |actions| { assert before[i] == more[i - |actions|]; }
    }
  }

  lemma EpisodeNext(before: seq<Action>, a: Action) returns (worst: real)
    requires Readings(before) && Reading(a) && InLimit(before)
    ensures worst == if a.Evaluate? then Max(WorstSinceOk(before), a.dd) else WorstSinceOk(before)
    ensures InLimit(before + [a]) <==> StaysAbove(a, worst)
    ensures InLimit(before + [a]) ==> WorstSinceOk(before + [a]) == worst
  {
    if a.Evaluate? {
      worst := EvaluationStays(before, a);
      WorstNext(before, a);
    } else {
      worst := WorstSinceOk(before);
      NothingEvaluated(before, a);
    }
  }

  lemma EvaluationStays(before: seq<Action>, a: Action) returns (worst: real)
    requires Readings(before) && Reading(a) && InLimit(before) && a.Evaluate?
    ensures worst == Max(WorstSinceOk(before), a.dd)
    ensures InLimit(before + [a]) <==> StaysAbove(a, worst)
  {
    worst := LimitLeftExactlyOnRecovery(before, a.dd, a.t);
  }

  lemma NothingEvaluated(before: seq<Action>, a: Action)
    requires !a.Evaluate?
    ensures WorstSinceOk(before + [a]) == WorstSinceOk(before) && (InLimit(before + [a]) <==> InLimit(before))
  {
    assert (before + [a])[..|before|] == before;
  }

  lemma WorstNext(before: seq<Action>, a: Action)
    requires a.Evaluate?
    ensures InLimit(before + [a]) ==> WorstSinceOk(before + [a]) == Max(WorstSinceOk(before), a.dd)
  {
    assert (before + [a])[..|before|] == before;
  }

  /** Repeating the drawdown that ended an episode falls back into limit exactly when it is still at or above the
      limit. */
  lemma BounceExactlyWhen(actions: seq<Action>, dd: real, t: Thresholds) returns (worst: real)
    requires Sane(t) && Readings(actions) && dd >= 0.0
    requires InLimit(actions) && !InLimit(actions + [Evaluate(dd, t)])
    ensures worst == Max(WorstSinceOk(actions), dd)
    ensures InLimit(actions + [Evaluate(dd, t)] + [Evaluate(dd, t)]) <==> dd >= t.limit
    ensures worst * (1.0 - t.recovery) < t.limit ==> !InLimit(actions + [Evaluate(dd, t)] + [Evaluate(dd, t)])
  {
    worst := LimitLeftExactlyOnRecovery(actions, dd, t);
    LimitEnteredExactlyAtThreshold(actions + [Evaluate(dd, t)], dd, t);
  }

  // ---------- override and gate ----------

  datatype Mode = Enforced | Advisory

  datatype Reason = SettingsUnreadable | LimitEnforced

  /** `settings` is the enforcement mode, None when it cannot be read. */
  function GateReason(s: Latch, settings: Option<Mode>): Option<Reason> {
    if !s.shown.Limit? then None
    else if s.overridden then None
    else if settings.None? then Some(SettingsUnreadable)
    else if settings.value.Enforced? then Some(LimitEnforced)
    else None
  }

  datatype Order = Order(reduceOnly: bool, closePosition: bool, kind: string)

  /** `kind` is the lower-cased order type. */
  predicate IsNewEntry(o: Order) {
    && !o.reduceOnly && !o.closePosition
    && o.kind !in {"stop_loss", "take_profit", "trailing_stop", "stop_loss_limit", "take_profit_limit",
                   "stop_market", "take_profit_market"}
  }

  function CheckOrder(s: Latch, o: Order, settings: Option<Mode>): Option<Reason> {
    if !IsNewEntry(o) then None else GateReason(s, settings)
  }

  /** What the account shows is its latch, unless its thresholds have been removed since. */
  lemma {:induction false} ShownFollows(actions: seq<Action>)
    ensures var s := Run(actions);
      && (s.shown.Limit? ==> Previous(s).Limit?)
      && (s.overridden ==> Previous(s).Limit?)
  {
    if actions != [] { ShownFollows(actions[..|actions| - 1]); }
  }

  /** An override never outlives its episode: an evaluation that enters limit always blocks, when enforced, every order
      that does more than lessen a position. */
  lemma NextEpisodeBlocks(actions: seq<Action>, dd: real, o: Order, settings: Option<Mode>, t: Thresholds)
    requires Sane(t) && Readings(actions) && dd >= t.limit && !InLimit(actions)
    requires !Lessens(o) && settings != Some(Advisory)
    ensures var s := Run(actions + [Evaluate(dd, t)]);
      !s.overridden && CheckOrder(s, o, settings) == Some(if settings.None? then SettingsUnreadable else LimitEnforced)
  {
    ShownFollows(actions);
    ProtectiveKinds();
    LimitEnteredExactlyAtThreshold(actions, dd, t);
    assert (actions + [Evaluate(dd, t)])[..|actions|] == actions;
  }

  /** Within an episode the override holds: evaluations that stay in limit keep letting new entries through. */
  lemma {:induction false} OverrideHolds(actions: seq<Action>, more: seq<Action>, o: Order, settings: Option<Mode>)
    requires Run(actions).overridden
    requires forall i :: 0 <= i <= |more| ==> InLimit(actions + more[..i])
    ensures Run(actions + more).overridden && CheckOrder(Run(actions + more), o, settings) == None
    decreases |more|
  {
    if more == [] {
      assert actions + more == actions;
    } else {
      var n := |more| - 1;
      forall i | 0 <= i <= n ensures InLimit(actions + more[..n][..i]) { assert more[..n][..i] == more[..i]; }
      OverrideHolds(actions, more[..n], o, settings);
      assert more[..n + 1] == more;
      assert (actions + more)[..|actions + more| - 1] == actions + more[..n];
    }
  }

  /** The gate blocks exactly new entries in limit, without override, unless the mode reads advisory. */
  lemma BlockedExactlyWhen(s: Latch, o: Order, settings: Option<Mode>)
    ensures CheckOrder(s, o, settings).Some?
       <==> IsNewEntry(o) && s.shown.Limit? && !s.overridden && settings != Some(Advisory)
  {
  }

  const PROTECTIVE := ["stop_loss", "take_profit", "trailing_stop", "stop_loss_limit", "take_profit_limit",
                       "stop_market", "take_profit_market"]

  /** An order that only reduces, closes or protects a position. */
  predicate Lessens(o: Order) { o.reduceOnly || o.closePosition || o.kind in PROTECTIVE }

  lemma ProtectiveKinds()
    ensures PROTECTIVE[0] in PROTECTIVE && PROTECTIVE[1] in PROTECTIVE && PROTECTIVE[2] in PROTECTIVE
    ensures PROTECTIVE[3] in PROTECTIVE && PROTECTIVE[4] in PROTECTIVE && PROTECTIVE[5] in PROTECTIVE
    ensures PROTECTIVE[6] in PROTECTIVE
  {
  }

  /** Such an order is never blocked. */
  lemma ExitsAlwaysPass(s: Latch, o: Order, settings: Option<Mode>)
    requires Lessens(o)
    ensures CheckOrder(s, o, settings) == None
  {
  }

  /** A grant lets entries through from a blocking account on if and only if its reason has ten characters. */
  lemma GrantUnblocksExactlyWhen(actions: seq<Action>, reason: string, o: Order, settings: Option<Mode>)
    requires CheckOrder(Run(actions), o, settings).Some?
    ensures CheckOrder(Run(actions + [Grant(reason)]), o, settings) == None <==> |reason| >= 10
  {
    assert (actions + [Grant(reason)])[..|actions|] == actions;
  }

  // ---------- the stateful evaluator ----------

  /** `derive_dd_evaluator`'s closure: it keeps every equity it is shown and its own episode peak. */
  class Evaluator {
    const thresholds: Thresholds
    const windowMs: int
    var peak: real
    var history: seq<(int, real)>

    constructor (t: Thresholds, windowMs: int)
      ensures thresholds == t && this.windowMs == windowMs && peak == 0.0 && history == []
    {
      thresholds, this.windowMs, peak, history := t, windowMs, 0.0, [];
    }

    method Evaluate(current: Level, equity: real, now: int) returns (level: Level)
      modifies this
      ensures history == old(history) + [(now, equity)]
      ensures var dd := Drawdown(PeakIn(old(history) + [(now, equity)], now - windowMs, equity), equity);
        (level, peak) == WithRecovery(current, dd, old(peak), thresholds)
    {
      history := history + [(now, equity)];
      var dd, _ := ComputeRollingDrawdown(history, equity, windowMs, now);
      var (next, worst) := WithRecovery(current, dd, peak, thresholds);
      peak := worst;
      level := next;
    }
  }

  /** Fed its own answers, the evaluator steps as an account latch does once it has a peak; on the first tick too. */
  lemma EvaluatorIsLatch(s: Latch, dd: real, t: Thresholds)
    requires dd >= 0.0 && (s.peak.None? ==> s.previous.None?)
    ensures var peak := if s.peak.Some? then s.peak.value else 0.0;
      var (level, worst) := WithRecovery(Previous(s), dd, peak, t);
      var after := Tick(s, dd, Some(t));
      after.previous == Some(level) && after.peak == Some(worst)
  {
  }

  /** The drawdown the evaluator sees at tick i of a feed of times and equities. */
  function SeenAt(feed: seq<(int, real)>, windowMs: int, i: nat): real
    requires i < |feed|
  {
    Drawdown(PeakIn(feed[..i + 1], feed[i].0 - windowMs, feed[i].1), feed[i].1)
  }

  /** State and peak after a feed, each answer fed back; it starts from ok. */
  function Fed(feed: seq<(int, real)>, windowMs: int, t: Thresholds): (Level, real) {
    if feed == [] then (Ok, 0.0)
    else
      var n := |feed| - 1;
      var (level, peak) := Fed(feed[..n], windowMs, t);
      WithRecovery(level, SeenAt(feed, windowMs, n), peak, t)
  }

  /** The same feed as evaluations of an account. */
  function AsActions(feed: seq<(int, real)>, windowMs: int, t: Thresholds): seq<Action> {
    seq(|feed|, i requires 0 <= i < |feed| => Evaluate(SeenAt(feed, windowMs, i), t))
  }

  /** Over any feed, fed its own answers, the evaluator is in the state and at the peak of the account's latch. */
  lemma {:induction false} EvaluatorRunIsLatchRun(feed: seq<(int, real)>, windowMs: int, t: Thresholds)
    requires feed != []
    ensures var s := Run(AsActions(feed, windowMs, t));
      s.previous == Some(Fed(feed, windowMs, t).0) && s.peak == Some(Fed(feed, windowMs, t).1)
  {
    var n := |feed| - 1;
    var actions := AsActions(feed, windowMs, t);
    assert actions[..n] == AsActions(feed[..n], windowMs, t) by {
      forall i | 0 <= i < n ensures SeenAt(feed[..n], windowMs, i) == SeenAt(feed, windowMs, i) {
        assert feed[..n][..i + 1] == feed[..i + 1];
      }
    }
    if n > 0 { EvaluatorRunIsLatchRun(feed[..n], windowMs, t); }
    EvaluatorIsLatch(Run(actions[..n]), SeenAt(feed, windowMs, n), t);
  }

  /** And what the object computes is one such step. */
  method FeedEvaluator(feed: seq<(int, real)>, t: Thresholds, windowMs: int) returns (level: Level, peak: real)
    ensures (level, peak) == Fed(feed, windowMs, t)
  {
    var e := new Evaluator(t, windowMs);
    level := Ok;
    for i := 0 to |feed|
      invariant fresh(e) && e.thresholds == t && e.windowMs == windowMs && e.history == feed[..i]
      invariant (level, e.peak) == Fed(feed[..i], windowMs, t)
    {
      assert feed[..i + 1] == feed[..i] + [(feed[i].0, feed[i].1)];
      assert feed[..i + 1][..i] == feed[..i] && feed[..i + 1][..i + 1] == feed[..i + 1];
      level := e.Evaluate(level, feed[i].1, feed[i].0);
    }
    assert feed[..|feed|] == feed;
    peak := e.peak;
  }
}
