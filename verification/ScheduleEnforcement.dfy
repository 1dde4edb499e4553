/** The schedule manager: its polling loop over whole runs, and when the loop is alive. */
module ScheduleEnforcement {
  import opened Wrappers
  import opened AccessControl

  const WARNING_THRESHOLD := 5 * MINUTE

  datatype ViolationAction = Logoff | Shutdown

  datatype Policy = Policy(settings: Settings, violationAction: ViolationAction)

  /** One pass of the loop: the clock, and the schedule that was current at that moment. */
  datatype Tick = Tick(now: Instant, schedule: Option<Policy>)

  datatype Action = Nothing | Warn | Violate(action: ViolationAction)

  ghost predicate Enabled(t: Tick) {
    t.schedule.Some? && t.schedule.value.settings.enabled
  }

  ghost predicate Allowed(t: Tick) {
    t.schedule.Some? && IsAccessAllowed(t.schedule.value.settings, t.now)
  }

  /** Access is allowed and ends in less than five minutes. */
  ghost predicate Expiring(t: Tick) {
    t.schedule.Some? &&
    var r := TimeRemaining(t.schedule.value.settings, t.now);
    r.Some? && r.value < 3_000_000_000
  }

  /** A warning at or before pass `i`, at most one minute old at that pass. */
  ghost predicate RecentlyWarned(ticks: seq<Tick>, log: seq<Action>, i: nat)
    requires i < |ticks| && |log| <= |ticks|
  {
    exists j :: 0 <= j <= i && j < |log| && log[j] == Warn && ticks[i].now - ticks[j].now <= 600_000_000
  }

  /** What a run owes at pass `i`. */
  ghost predicate Sound(ticks: seq<Tick>, log: seq<Action>, i: nat)
    requires i < |log| <= |ticks|
  {
    && (log[i] == Warn ==> Expiring(ticks[i]))
    && (Expiring(ticks[i]) ==> RecentlyWarned(ticks, log, i))
    && (log[i].Violate? <==> Enabled(ticks[i]) && !Allowed(ticks[i]))
    && (log[i].Violate? ==> ticks[i].schedule.Some? && log[i].action == ticks[i].schedule.value.violationAction)
  }

  ghost predicate WarningsSpaced(ticks: seq<Tick>, log: seq<Action>)
    requires |log| <= |ticks|
  {
    forall i, j :: 0 <= i < j < |log| && log[i] == Warn && log[j] == Warn ==> ticks[j].now - ticks[i].now > 600_000_000
  }

  /** `last` is the time of the newest warning, which is the latest in time as well; 0 is "never". */
  ghost predicate LastWarning(ticks: seq<Tick>, log: seq<Action>, last: Instant)
    requires |log| <= |ticks|
  {
    && (forall k :: 0 <= k < |log| && log[k] == Warn ==> ticks[k].now <= last)
    && (last == 0 || exists j :: 0 <= j < |log| && log[j] == Warn && ticks[j].now == last)
  }

  /** The loop, one element of `ticks` per pass until it is cancelled. */
  method EnforceSchedules(ticks: seq<Tick>) returns (log: seq<Action>)
    requires forall i :: 0 <= i < |ticks| ==> ticks[i].now > MINUTE
    ensures |log| == |ticks|
    ensures WarningsSpaced(ticks, log)
    ensures forall i :: 0 <= i < |log| ==> Sound(ticks, log, i)
  {
    log := [];
    var lastWarningTime: Instant := 0;
    for n := 0 to |ticks|
      invariant |log| == n
      invariant LastWarning(ticks, log, lastWarningTime)
      invariant WarningsSpaced(ticks, log)
      invariant forall i :: 0 <= i < n ==> Sound(ticks, log, i)
    {
      var now, schedule := ticks[n].now, ticks[n].schedule;
      ghost var lastBefore := lastWarningTime;
      var action := Nothing;
      if schedule.Some? && schedule.value.settings.enabled {
        var timeRemaining := TimeRemaining(schedule.value.settings, now);
        if timeRemaining.Some? {
          if timeRemaining.value < WARNING_THRESHOLD && now - lastWarningTime > MINUTE {
            action := Warn;
            lastWarningTime := now;
          }
        } else if !IsAccessAllowed(schedule.value.settings, now) {
          action := Violate(schedule.value.violationAction);
        }
      }
      PassKeepsSound(ticks, log, lastBefore, action);
      PassKeepsWarnings(ticks, log, lastBefore, action, lastWarningTime);
      log := log + [action];
    }
  }

  /** What one pass decides, said from the outside. */
  ghost predicate Decides(t: Tick, last: Instant, action: Action) {
    && (action == Warn <==> Expiring(t) && t.now - last > MINUTE)
    && (action.Violate? <==> Enabled(t) && !Allowed(t))
    && (action.Violate? ==> t.schedule.Some? && action.action == t.schedule.value.violationAction)
  }

  lemma {:induction false} PassKeepsSound(ticks: seq<Tick>, log: seq<Action>, last: Instant, action: Action)
    requires |log| < |ticks| && ticks[|log|].now > MINUTE
    requires LastWarning(ticks, log, last)
    requires forall i :: 0 <= i < |log| ==> Sound(ticks, log, i)
    requires var t := ticks[|log|];
      t.schedule.Some? && t.schedule.value.settings.enabled ==>
        var r := TimeRemaining(t.schedule.value.settings, t.now);
        action == if r.Some? then (if r.value < WARNING_THRESHOLD && t.now - last > MINUTE then Warn else Nothing)
                  else if !IsAccessAllowed(t.schedule.value.settings, t.now)
                  then Violate(t.schedule.value.violationAction)
                  else Nothing
    requires !Enabled(ticks[|log|]) ==> action == Nothing
    ensures Decides(ticks[|log|], last, action)
    ensures forall i :: 0 <= i <= |log| ==> Sound(ticks, log + [action], i)
  {
    var more, n := log + [action], |log|;
    if ticks[n].schedule.Some? {
      RemainingIffAllowed(ticks[n].schedule.value.settings, ticks[n].now);
    }
    forall i | 0 <= i <= n ensures Sound(ticks, more, i) {
      if i < n {
        assert Sound(ticks, log, i);
        if Expiring(ticks[i]) {
          var j :| 0 <= j <= i && log[j] == Warn && ticks[i].now - ticks[j].now <= MINUTE;
          assert more[j] == Warn;
        }
      } else if Expiring(ticks[n]) {
        if action == Warn {
          assert more[n] == Warn && ticks[n].now - ticks[n].now <= MINUTE;
        } else {
          var j :| 0 <= j < |log| && log[j] == Warn && ticks[j].now == last;
          assert more[j] == Warn;
        }
      }
    }
  }

  lemma {:induction false} PassKeepsWarnings(
    ticks: seq<Tick>, log: seq<Action>, last: Instant, action: Action, last': Instant)
    requires |log| < |ticks|
    requires LastWarning(ticks, log, last) && WarningsSpaced(ticks, log)
    requires Decides(ticks[|log|], last, action)
    requires last' == if action == Warn then ticks[|log|].now else last
    ensures LastWarning(ticks, log + [action], last') && WarningsSpaced(ticks, log + [action])
  {
    var more := log + [action];
    if action == Warn {
      assert more[|log|] == Warn;
    } else if last != 0 {
      var j :| 0 <= j < |log| && log[j] == Warn && ticks[j].now == last;
      assert more[j] == Warn;
    }
  }

  /** Nobody is logged off out of the blue: when a pass acts and the pass before, less than five
      minutes earlier under the same schedule, still allowed access, that earlier pass warned or
      followed a warning at most one minute old. The time remaining must be right at that pass;
      `PromiseIffNoGap` says exactly when it is. */
  lemma {:induction false} WarnedBeforeViolation(ticks: seq<Tick>, log: seq<Action>, n: nat)
    requires n + 1 < |ticks| == |log|
    requires Sound(ticks, log, n)
    requires Enabled(ticks[n + 1]) && !Allowed(ticks[n + 1]) && Allowed(ticks[n])
    requires ticks[n].schedule == ticks[n + 1].schedule
    requires KeepsPromise(ticks[n].schedule.value.settings, ticks[n].now)
    requires ticks[n].now <= ticks[n + 1].now < ticks[n].now + WARNING_THRESHOLD
    ensures RecentlyWarned(ticks, log, n)
  {
    var s := ticks[n].schedule.value.settings;
    RemainingIffAllowed(s, ticks[n].now);
    assert TimeRemaining(s, ticks[n].now).value < WARNING_THRESHOLD;
  }

  // ---- Starting and stopping the loop -------------------------------------------------------

  /** A loop runs until its token is cancelled, and ends some time after that. */
  datatype LoopState = Active | Cancelled | Ended

  /** The flag, and every loop ever started, oldest first. The manager itself knows only the last one. */
  datatype Loops = Loops(running: bool, loops: seq<LoopState>)

  const NO_LOOPS := Loops(false, [])

  /** `Stop` is the part of stopping before its `await`: the stop returns when the loop it cancelled
      has ended, and anything may happen until then. */
  datatype Event = Start | Stop | LoopEnds(k: nat)

  function Next(s: Loops, e: Event): Loops {
    match e
    case Start => if s.running then s else Loops(true, s.loops + [Active])
    case Stop =>
      if !s.running || |s.loops| == 0 then s.(running := false)
      else Loops(false, s.loops[|s.loops| - 1 := Cancelled])
    case LoopEnds(k) =>
      if k < |s.loops| && s.loops[k] == Cancelled then s.(loops := s.loops[k := Ended]) else s
  }

  function RunLoops(s: Loops, events: seq<Event>): Loops {
    if |events| == 0 then s else Next(RunLoops(s, events[..|events| - 1]), events[|events| - 1])
  }

  /** The flag is set exactly while there is a loop that is not cancelled, and that is the last one. */
  ghost predicate LoopsInv(s: Loops) {
    && (s.running ==> |s.loops| > 0)
    && forall i :: 0 <= i < |s.loops| ==> (s.loops[i] == Active <==> s.running && i == |s.loops| - 1)
  }

  ghost predicate Alive(s: Loops, i: int) {
    0 <= i < |s.loops| && s.loops[i] != Ended
  }

  ghost predicate AtMostOneAlive(s: Loops) {
    forall i, j :: Alive(s, i) && Alive(s, j) ==> i == j
  }

  ghost predicate NoneAlive(s: Loops) {
    forall i :: !Alive(s, i)
  }

  /** Over every run, however calls and endings interleave, at most one loop is not cancelled. */
  lemma {:induction false} OneUncancelledLoop(s: Loops, events: seq<Event>)
    requires LoopsInv(s)
    ensures LoopsInv(RunLoops(s, events))
  {
    if |events| > 0 {
      OneUncancelledLoop(s, events[..|events| - 1]);
    }
  }

  /** A start that takes effect although a loop is still alive: a stop has cancelled it and waits. */
  ghost predicate StartsTooEarly(s: Loops, e: Event) {
    e == Start && !s.running && !NoneAlive(s)
  }

  lemma {:induction false} StepAlone(s: Loops, e: Event)
    requires LoopsInv(s) && AtMostOneAlive(s)
    ensures AtMostOneAlive(Next(s, e)) <==> !StartsTooEarly(s, e)
  {
    var s' := Next(s, e);
    if StartsTooEarly(s, e) {
      var i :| Alive(s, i);
      assert Alive(s', i) && Alive(s', |s.loops|);
    } else {
      forall i, j | Alive(s', i) && Alive(s', j) ensures i == j {
        assert i < |s.loops| ==> Alive(s, i);
        assert j < |s.loops| ==> Alive(s, j);
      }
    }
  }

  /** Two loops are never alive together exactly when no start takes effect while a stop is waiting. */
  lemma {:induction false} AloneIffNoEarlyStart(events: seq<Event>)
    ensures (forall n :: 0 <= n <= |events| ==> AtMostOneAlive(RunLoops(NO_LOOPS, events[..n])))
       <==> (forall n :: 0 <= n < |events| ==> !StartsTooEarly(RunLoops(NO_LOOPS, events[..n]), events[n]))
  {
    forall n | 0 <= n < |events|
      ensures RunLoops(NO_LOOPS, events[..n + 1]) == Next(RunLoops(NO_LOOPS, events[..n]), events[n])
      ensures LoopsInv(RunLoops(NO_LOOPS, events[..n]))
    {
      OneUncancelledLoop(NO_LOOPS, events[..n]);
      assert events[..n + 1][..n] == events[..n];
    }
    if forall n :: 0 <= n < |events| ==> !StartsTooEarly(RunLoops(NO_LOOPS, events[..n]), events[n]) {
      for n := 0 to |events|
        invariant forall m :: 0 <= m <= n ==> AtMostOneAlive(RunLoops(NO_LOOPS, events[..m]))
      {
        StepAlone(RunLoops(NO_LOOPS, events[..n]), events[n]);
      }
    } else {
      var n :| 0 <= n < |events| && StartsTooEarly(RunLoops(NO_LOOPS, events[..n]), events[n]);
      if AtMostOneAlive(RunLoops(NO_LOOPS, events[..n])) {
        StepAlone(RunLoops(NO_LOOPS, events[..n]), events[n]);
        assert !AtMostOneAlive(RunLoops(NO_LOOPS, events[..n + 1]));
      }
    }
  }

  /** A loop that has ended stays so, and loops are only added. */
  lemma {:induction false} EndedStays(s: Loops, events: seq<Event>)
    requires LoopsInv(s)
    ensures |s.loops| <= |RunLoops(s, events).loops|
    ensures forall i :: 0 <= i < |s.loops| && s.loops[i] == Ended ==> RunLoops(s, events).loops[i] == Ended
  {
    if |events| > 0 {
      EndedStays(s, events[..|events| - 1]);
      OneUncancelledLoop(s, events[..|events| - 1]);
    }
  }

  /** When a stop of the only loop returns, so that this loop has ended, no loop is left exactly when
      those started in the meantime have ended as well. */
  lemma {:induction false} StopLeavesNone(s: Loops, events: seq<Event>)
    requires LoopsInv(s) && s.running && AtMostOneAlive(s)
    requires var after := RunLoops(Next(s, Stop), events);
      |s.loops| <= |after.loops| && after.loops[|s.loops| - 1] == Ended
    ensures var after := RunLoops(Next(s, Stop), events);
      NoneAlive(after) <==> forall i :: |s.loops| <= i < |after.loops| ==> after.loops[i] == Ended
  {
    var stopped, k := Next(s, Stop), |s.loops| - 1;
    var after := RunLoops(stopped, events);
    forall i | 0 <= i < k ensures stopped.loops[i] == Ended {
      assert Alive(s, k) && !Alive(s, i);
    }
    EndedStays(stopped, events);
    if NoneAlive(after) {
      forall i | |s.loops| <= i < |after.loops| ensures after.loops[i] == Ended {
        assert !Alive(after, i);
      }
    }
  }

  /** The flag is cleared before the wait, so a start during it begins a second loop, and the stop
      returns with that loop alive. */
  lemma {:induction false} StartDuringStop()
    ensures RunLoops(NO_LOOPS, [Start, Stop, Start]) == Loops(true, [Cancelled, Active])
    ensures RunLoops(NO_LOOPS, [Start, Stop, Start, LoopEnds(0)]) == Loops(true, [Ended, Active])
  {
    var s := NO_LOOPS;
    assert RunLoops(s, []) == s;
    assert [Start][..0] == [] && [Start, Stop][..1] == [Start] && [Start, Stop, Start][..2] == [Start, Stop];
    assert [Start, Stop, Start, LoopEnds(0)][..3] == [Start, Stop, Start];
    assert RunLoops(s, [Start]) == Loops(true, [Active]);
    assert RunLoops(s, [Start, Stop]) == Loops(false, [Cancelled]);
  }

  class ScheduleManager {
    var currentSchedule: Option<Policy>
    var isEnforcementRunning: bool
    /** The number of the loop in `_enforcementTask`, whose token is in `_enforcementCts`. */
    var enforcementTask: Option<nat>
    ghost var loops: seq<LoopState>

    ghost function State(): Loops
      reads this
    {
      Loops(isEnforcementRunning, loops)
    }

    ghost predicate Valid()
      reads this
    {
      LoopsInv(State()) && enforcementTask == if |loops| == 0 then None else Some(|loops| - 1)
    }

    /** The flag is set exactly while an enabled schedule is in force. */
    ghost predicate InForce()
      reads this
    {
      isEnforcementRunning <==> currentSchedule.Some? && currentSchedule.value.settings.enabled
    }

    constructor ()
      ensures Valid() && InForce() && currentSchedule == None && State() == NO_LOOPS
    {
      currentSchedule, isEnforcementRunning, enforcementTask, loops := None, false, None, [];
    }

    method StartEnforcement()
      requires Valid()
      modifies this
      ensures Valid() && currentSchedule == old(currentSchedule) && State() == Next(old(State()), Start)
    {
      if isEnforcementRunning {
        return;
      }
      isEnforcementRunning := true;
      enforcementTask := Some(if enforcementTask.Some? then enforcementTask.value + 1 else 0);
      loops := loops + [Active];
    }

    /** Up to its `await`; `awaited` is the loop whose end the caller then waits for. */
    method StopEnforcement() returns (awaited: Option<nat>)
      requires Valid()
      modifies this
      ensures Valid() && currentSchedule == old(currentSchedule) && State() == Next(old(State()), Stop)
      ensures awaited == if old(isEnforcementRunning) then Some(|loops| - 1) else None
      ensures awaited.Some? ==> loops[awaited.value] == Cancelled
    {
      if !isEnforcementRunning {
        return None;
      }
      loops := loops[enforcementTask.value := Cancelled];
      isEnforcementRunning := false;
      return enforcementTask;
    }

    /** Settings from the server; `null` is ignored. */
    method UpdateScheduleFromSettings(settings: Option<Policy>) returns (awaited: Option<nat>)
      requires Valid()
      modifies this
      ensures Valid()
      ensures settings.Some? ==>
        && currentSchedule == settings && InForce()
        && State() == Next(old(State()), if settings.value.settings.enabled then Start else Stop)
      ensures settings.None? ==> currentSchedule == old(currentSchedule) && State() == old(State())
      ensures awaited.Some? <==> settings.Some? && !settings.value.settings.enabled && old(isEnforcementRunning)
    {
      awaited := None;
      if settings.None? {
        return;
      }
      currentSchedule := settings;
      if settings.value.settings.enabled && !isEnforcementRunning {
        StartEnforcement();
      } else if !settings.value.settings.enabled && isEnforcementRunning {
        awaited := StopEnforcement();
      }
    }

    /** "Delete" disables the schedule and stops the loop. */
    method DeleteSchedule() returns (awaited: Option<nat>)
      requires Valid()
      modifies this
      ensures Valid() && InForce() && State() == Next(old(State()), Stop)
      ensures awaited.Some? <==> old(isEnforcementRunning)
      ensures currentSchedule.Some? <==> old(currentSchedule).Some?
      ensures currentSchedule.Some? ==>
        var policy := old(currentSchedule).value;
        currentSchedule == Some(policy.(settings := policy.settings.(enabled := false)))
    {
      if currentSchedule.Some? {
        currentSchedule := Some(currentSchedule.value.(settings := currentSchedule.value.settings.(enabled := false)));
      }
      awaited := StopEnforcement();
    }
  }
}
