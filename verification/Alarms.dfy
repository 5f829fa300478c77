/** When an event fires that was set from outside the handlers: once, with the deadline that the call
    asked for, and not before. */
module Alarms {
  import opened Schedule
  import opened Dispatch
  import opened DispatchTheorems

  /** No handler touches k. */
  ghost predicate LeftAlone(m: Machine, k: nat) {
    && IsEvent(k)
    && forall log: seq<Firing> :: log != [] && May(m, log[|log| - 1].id, log[|log| - 1].kind) ==>
         Touching(m.handler(log), k) == []
  }

  /** Where k is: in one of the lists, or idle. */
  predicate Waits(s: Sched, k: nat, kind: Kind) {
    match kind
    case Cycles => k in s.cyc
    case Time => k in s.tim
    case None => k !in s.cyc && k !in s.tim
  }

  /** From log position n on, k has fired exactly once, with this deadline. */
  predicate FiredOnce(log: seq<Firing>, k: nat, kind: Kind, due: nat, n: nat) {
    Fires(log, k, n) == 1 && exists j :: n <= j < |log| && log[j] == Firing(k, due, kind)
  }

  /** k has not fired since n and is to fire at due, or never if it is idle. */
  predicate Awaits(s: Sched, k: nat, kind: Kind, due: nat, n: nat)
    requires |s.time| == NUM_EVENTS && k < NUM_EVENTS
  {
    n <= |s.log| && Fires(s.log, k, n) == 0 && Waits(s, k, kind) && s.time[k] == due
  }

  /** k has fired once since n, at due and not before, and is idle. */
  predicate Done(s: Sched, k: nat, kind: Kind, due: nat, n: nat) {
    && n <= |s.log| && FiredOnce(s.log, k, kind, due, n) && k !in s.cyc && k !in s.tim
    && kind != None && due <= if kind == Cycles then s.counter else s.now
  }

  predicate Tracked(s: Sched, k: nat, kind: Kind, due: nat, n: nat)
    requires |s.time| == NUM_EVENTS && k < NUM_EVENTS
  {
    Awaits(s, k, kind, due, n) || Done(s, k, kind, due, n)
  }

  lemma Logged(log: seq<Firing>, f: Firing, k: nat, kind: Kind, due: nat, n: nat)
    requires n <= |log|
    ensures f.id != k ==> Fires(log + [f], k, n) == Fires(log, k, n)
    ensures f.id != k && FiredOnce(log, k, kind, due, n) ==> FiredOnce(log + [f], k, kind, due, n)
    ensures f == Firing(k, due, kind) && Fires(log, k, n) == 0 ==> FiredOnce(log + [f], k, kind, due, n)
  {
    hide Fires;
    FiresNext(log, f, k, n);
    if FiredOnce(log, k, kind, due, n) {
      var j :| n <= j < |log| && log[j] == Firing(k, due, kind);
      assert (log + [f])[j] == log[j];
    }
    assert (log + [f])[|log|] == f;
  }

  // ----- one dispatch

  lemma DispatchCycleTracks(m: Machine, s: Sched, horizon: nat, k: nat, kind: Kind, due: nat, n: nat)
    requires Compliant(m, horizon) && Wf(s) && Placed(m, s) && ClockOk(m, s) && s.counter <= horizon
    requires s.cyc != [] && s.time[s.cyc[0]] <= s.counter && LeftAlone(m, k) && Tracked(s, k, kind, due, n)
    ensures var t := DispatchCycle(m, s);
    |t.time| == NUM_EVENTS && Tracked(t, k, kind, due, n) && (Done(s, k, kind, due, n) ==> Done(t, k, kind, due, n))
  {
    hide ApplyAll, PoliteAll, Fires, FiredOnce, Touching, Polite;
    FireCycleFacts(s);
    assert s.cyc[0] in s.cyc;
    var i, r := s.cyc[0], FireCycle(s);
    ClockSteps(m, r, m.handler(r.log), Last(r));
    UntouchedBy(m, r, m.handler(r.log), k);
    Logged(s.log, Firing(i, s.time[i], Cycles), k, kind, due, n);
  }

  lemma DispatchTimeTracks(m: Machine, s: Sched, horizon: nat, k: nat, kind: Kind, due: nat, n: nat)
    requires Compliant(m, horizon) && Wf(s) && Placed(m, s) && ClockOk(m, s) && s.counter <= horizon
    requires s.tim != [] && s.time[s.tim[0]] <= s.now && LeftAlone(m, k) && Tracked(s, k, kind, due, n)
    ensures var t := DispatchTime(m, s);
    |t.time| == NUM_EVENTS && Tracked(t, k, kind, due, n) && (Done(s, k, kind, due, n) ==> Done(t, k, kind, due, n))
  {
    hide ApplyAll, PoliteAll, Fires, FiredOnce, Touching, Polite;
    FireTimeFacts(s);
    assert s.tim[0] in s.tim;
    var i, r := s.tim[0], FireTime(s);
    ClockSteps(m, r, m.handler(r.log), Last(r));
    UntouchedBy(m, r, m.handler(r.log), k);
    Logged(s.log, Firing(i, s.time[i], Time), k, kind, due, n);
  }

  // ----- both loops, and runs

  lemma {:induction false} RunCyclesTracks(m: Machine, s: Sched, horizon: nat, k: nat, kind: Kind, due: nat, n: nat)
    requires Compliant(m, horizon) && Wf(s) && Placed(m, s) && ClockOk(m, s) && s.counter <= horizon
    requires LeftAlone(m, k) && Tracked(s, k, kind, due, n)
    ensures var r := RunCycles(m, s, horizon);
    |r.time| == NUM_EVENTS && Tracked(r, k, kind, due, n) && (Done(s, k, kind, due, n) ==> Done(r, k, kind, due, n))
    decreases Overdue(s, NUM_EVENTS)
  {
    hide Compliant, Overdue, DispatchCycle, LeftAlone, Tracked, Done, ClockOk;
    IsLeftAlone(m, k);
    TimesInRange(s, k);
    if s.cyc != [] && s.time[s.cyc[0]] <= s.counter {
      HandlersValid(m, horizon);
      DispatchDecreases(m, s, horizon);
      DispatchCycleTracks(m, s, horizon, k, kind, due, n);
      DispatchCycleClock(m, s, horizon);
      RunCyclesTracks(m, DispatchCycle(m, s), horizon, k, kind, due, n);
    }
  }

  lemma IsLeftAlone(m: Machine, k: nat)
    requires LeftAlone(m, k)
    ensures IsEvent(k)
  {
  }

  lemma {:induction false} RunTimeTracks(m: Machine, s: Sched, horizon: nat, k: nat, kind: Kind, due: nat, n: nat)
    requires Compliant(m, horizon) && Wf(s) && Placed(m, s) && ClockOk(m, s) && s.counter <= horizon
    requires LeftAlone(m, k) && Tracked(s, k, kind, due, n)
    ensures var r := RunTime(m, s, horizon);
    |r.time| == NUM_EVENTS && Tracked(r, k, kind, due, n) && (Done(s, k, kind, due, n) ==> Done(r, k, kind, due, n))
    decreases HALF - s.now, DueCount(s, NUM_EVENTS)
  {
    hide Compliant, DueCount, DispatchTime, LeftAlone, FiredOnce, Fires;
    IsLeftAlone(m, k);
    if s.tim != [] && Diff(s.time[s.tim[0]], s.now) <= 0 {
      assert s.tim[0] in s.tim;
      HandlersValid(m, horizon);
      DispatchTimeDecreases(m, s, horizon);
      DispatchTimeTracks(m, s, horizon, k, kind, due, n);
      RunTimeTracks(m, DispatchTime(m, s), horizon, k, kind, due, n);
    }
  }

  lemma AdvanceTracks(m: Machine, s: Sched, cycles: nat, horizon: nat, k: nat, kind: Kind, due: nat, n: nat)
    requires Compliant(m, horizon) && Wf(s) && Placed(m, s) && ClockOk(m, s) && s.counter + cycles <= horizon
    requires LeftAlone(m, k) && Tracked(s, k, kind, due, n)
    ensures var r := Advance(m, s, cycles, horizon);
    |r.time| == NUM_EVENTS && Tracked(r, k, kind, due, n) && (Done(s, k, kind, due, n) ==> Done(r, k, kind, due, n))
  {
    hide Compliant, RunCycles, RunTime, LeftAlone, FiredOnce, Fires, Wf;
    HandlersValid(m, horizon);
    IsLeftAlone(m, k);
    TimesInRange(s, k);
    LaterWf(m, s, cycles);
    RunCyclesTracks(m, Later(s, cycles), horizon, k, kind, due, n);
    var a := AfterCycles(m, s, cycles, horizon);
    TimesInRange(a, k);
    if a.check <= a.counter {
      ReadClockOk(m, a, horizon);
      RunTimeTracks(m, ReadClock(m, a), horizon, k, kind, due, n);
    }
  }

  lemma {:induction false} RunTracks(m: Machine, s: Sched, batches: seq<nat>, horizon: nat, k: nat, kind: Kind,
                                     due: nat, n: nat)
    requires Compliant(m, horizon) && Wf(s) && Placed(m, s) && ClockOk(m, s) && s.counter + Total(batches) <= horizon
    requires LeftAlone(m, k) && Tracked(s, k, kind, due, n)
    ensures var r := Run(m, s, batches, horizon);
            && |r.time| == NUM_EVENTS && Tracked(r, k, kind, due, n) && (batches != [] ==> NoneDue(r))
            && (Done(s, k, kind, due, n) ==> Done(r, k, kind, due, n))
    decreases |batches|
  {
    hide Compliant, Advance, AfterCycles, Wf, LeftAlone, Tracked, Done, ClockOk, NoneDue, InOrder;
    IsLeftAlone(m, k);
    TimesInRange(s, k);
    if batches != [] {
      AdvanceTracks(m, s, batches[0], horizon, k, kind, due, n);
      AdvanceSafe(m, s, batches[0], horizon);
      RunTracks(m, Advance(m, s, batches[0], horizon), batches[1..], horizon, k, kind, due, n);
    }
  }

  // ----- events set by cycles

  /** A pending cycle event that the handlers leave alone fires exactly once, with its deadline, in the
      first call of CycInt_AddCycles with which the counter reaches the deadline, and in none before. */
  lemma FiresWhenDue(m: Machine, s: Sched, batches: seq<nat>, horizon: nat, k: nat)
    requires Compliant(m, horizon) && Wf(s) && Placed(m, s) && ClockOk(m, s) && s.counter + Total(batches) <= horizon
    requires LeftAlone(m, k) && k in s.cyc
    ensures var r, due, n := Run(m, s, batches, horizon), s.time[k], |s.log|;
            && |r.time| == NUM_EVENTS
            && if batches != [] && due <= s.counter + Total(batches) then Done(r, k, Cycles, due, n)
               else Awaits(r, k, Cycles, due, n)
  {
    hide Compliant, Run, LeftAlone, FiredOnce, Wf, ClockOk;
    IsLeftAlone(m, k);
    TimesInRange(s, k);
    RunTracks(m, s, batches, horizon, k, Cycles, s.time[k], |s.log|);
    if batches == [] {
      RunNothing(m, s, horizon);
    }
  }

  lemma RunNothing(m: Machine, s: Sched, horizon: nat)
    requires Compliant(m, horizon) && Wf(s) && Placed(m, s) && ClockOk(m, s) && s.counter <= horizon
    ensures Total([]) == 0 && Run(m, s, [], horizon) == s
  {
  }

  /** The state after a call that puts k on the cycle list. */
  lemma Armed(m: Machine, s: Sched, a: Action)
    requires Wf(s) && Placed(m, s) && ClockOk(m, s) && IsEvent(a.id) && May(m, a.id, Cycles)
    requires a.AddCycles? || a.UpdateCycles? || (!m.realtime && (a.AddTime? || a.UpdateTime?))
    ensures var t := Apply(m, s, a);
            Wf(t) && Placed(m, t) && ClockOk(m, t) && t.counter == s.counter && t.log == s.log && a.id in t.cyc
  {
    hide ArmCycles, ArmTime, Disarm, Wf;
    ApplyMoves(m, s, a);
    UnclockedArms(m, s, a);
    TimesInRange(s, a.id);
    match a
    case AddCycles(d, i) => ArmFacts(s, i, s.counter + d);
    case UpdateCycles(d, i) => ArmFacts(s, i, s.time[i] + d);
    case AddTime(usual, fast, i) => ArmFacts(s, i, s.counter + Scaled(m, usual));
    case UpdateTime(usual, fast, i) => ArmFacts(s, i, s.time[i] + Scaled(m, usual));
    case _ =>
  }

  /** The deadline that a call asks for, in cycles: with 64-bit wrap-around. */
  lemma CyclesDeadline(m: Machine, s: Sched, k: nat, d: nat)
    requires Wf(s) && IsEvent(k)
    ensures |Apply(m, s, AddCycles(d, k)).time| == |Apply(m, s, UpdateCycles(d, k)).time| == NUM_EVENTS
    ensures Apply(m, s, AddCycles(d, k)).time[k] == (s.counter + d) % WORD
    ensures Apply(m, s, UpdateCycles(d, k)).time[k] == (s.time[k] + d) % WORD
  {
    hide ArmCycles, ArmTime, Disarm, Wf;
    TimesInRange(s, k);
    ArmFacts(s, k, s.counter + d);
    ArmFacts(s, k, s.time[k] + d);
    TimesInRange(Apply(m, s, AddCycles(d, k)), k);
    TimesInRange(Apply(m, s, UpdateCycles(d, k)), k);
  }

  lemma TimeDeadline(m: Machine, s: Sched, k: nat, d: nat, fast: nat)
    requires Wf(s) && IsEvent(k) && !m.realtime
    ensures |Apply(m, s, AddTime(d, fast, k)).time| == |Apply(m, s, UpdateTime(d, fast, k)).time| == NUM_EVENTS
    ensures Apply(m, s, AddTime(d, fast, k)).time[k] == (s.counter + d * m.freq) % WORD
    ensures Apply(m, s, UpdateTime(d, fast, k)).time[k] == (s.time[k] + d * m.freq) % WORD
  {
    hide ArmCycles, ArmTime, Disarm, Wf;
    TimesInRange(s, k);
    ArmFacts(s, k, s.counter + Scaled(m, d));
    ArmFacts(s, k, s.time[k] + Scaled(m, d));
    TimesInRange(Apply(m, s, AddTime(d, fast, k)), k);
    TimesInRange(Apply(m, s, UpdateTime(d, fast, k)), k);
    Wrapped(s.counter, d * m.freq);
    Wrapped(s.time[k], d * m.freq);
  }

  lemma Wrapped(a: nat, b: nat)
    ensures (a + b % WORD) % WORD == (a + b) % WORD
  {
  }

  /** After CycInt_AddCyclesEvent(d, k) at counter c, and likewise after the other calls that count in
      cycles, k fires exactly once, with deadline c + d, in the first call of CycInt_AddCycles that
      reaches it, and in none before. */
  lemma AddedFires(m: Machine, s: Sched, a: Action, batches: seq<nat>, horizon: nat)
    requires Compliant(m, horizon) && Wf(s) && Placed(m, s) && ClockOk(m, s) && s.counter + Total(batches) <= horizon
    requires LeftAlone(m, a.id) && May(m, a.id, Cycles)
    requires a.AddCycles? || a.UpdateCycles? || (!m.realtime && (a.AddTime? || a.UpdateTime?))
    ensures var t := Apply(m, s, a);
            Wf(t) && Placed(m, t) && ClockOk(m, t) && t.counter == s.counter && t.log == s.log
    ensures var due := match a {
                         case AddCycles(d, _) => (s.counter + d) % WORD
                         case UpdateCycles(d, k) => (s.time[k] + d) % WORD
                         case AddTime(usual, _, _) => (s.counter + usual * m.freq) % WORD
                         case UpdateTime(usual, _, k) => (s.time[k] + usual * m.freq) % WORD
                         case Remove(_) => 0
                       };
            var r := Run(m, Apply(m, s, a), batches, horizon);
            && |r.time| == NUM_EVENTS
            && if batches != [] && due <= s.counter + Total(batches) then Done(r, a.id, Cycles, due, |s.log|)
               else Awaits(r, a.id, Cycles, due, |s.log|)
  {
    hide Compliant, Run, LeftAlone, Done, Awaits, Wf, ClockOk, Apply;
    IsLeftAlone(m, a.id);
    TimesInRange(s, a.id);
    Armed(m, s, a);
    match a {
      case AddCycles(d, k) => CyclesDeadline(m, s, k, d);
      case UpdateCycles(d, k) => CyclesDeadline(m, s, k, d);
      case AddTime(usual, fast, k) => TimeDeadline(m, s, k, usual, fast);
      case UpdateTime(usual, fast, k) => TimeDeadline(m, s, k, usual, fast);
      case _ =>
    }
    FiresWhenDue(m, Apply(m, s, a), batches, horizon, a.id);
  }

  /** After CycInt_RemovePendingEvent(k) it does not fire any more. */
  lemma RemovedIsSilent(m: Machine, s: Sched, k: nat, batches: seq<nat>, horizon: nat)
    requires Compliant(m, horizon) && Wf(s) && Placed(m, s) && ClockOk(m, s) && s.counter + Total(batches) <= horizon
    requires LeftAlone(m, k)
    ensures var t := Apply(m, s, Remove(k));
    Wf(t) && Placed(m, t) && ClockOk(m, t) && t.counter == s.counter && t.log == s.log
    ensures var r := Run(m, Apply(m, s, Remove(k)), batches, horizon);
            Fires(r.log, k, |s.log|) == 0 && k !in r.cyc && k !in r.tim
  {
    hide Compliant, Run, LeftAlone, Wf, ArmCycles, ArmTime, Disarm;
    IsLeftAlone(m, k);
    TimesInRange(s, k);
    DisarmFacts(s, k);
    DisarmKeepsClock(s, k);
    var t := Apply(m, s, Remove(k));
    TimesInRange(t, k);
    RunTracks(m, t, batches, horizon, k, None, t.time[k], |s.log|);
  }

  // ----- events set by the host clock

  /** The host clock is looked at again soon. */
  predicate CheckSoon(m: Machine, s: Sched) {
    s.check <= s.counter + CHECK_INTERVAL * m.freq
  }

  lemma ScaledBound(m: Machine, t: nat)
    requires t <= CHECK_INTERVAL
    ensures Scaled(m, t) <= CHECK_INTERVAL * m.freq
  {
    MulOrder(t, CHECK_INTERVAL, m.freq);
  }

  lemma ApplyCheck(m: Machine, s: Sched, a: Action)
    requires Wf(s) && IsEvent(a.id) && CheckSoon(m, s)
    ensures CheckSoon(m, Apply(m, s, a))
  {
    hide Scaled, Insert, Without, Wf;
    match a
    case AddTime(usual, fast, _) =>
      if Chosen(usual, fast) < CHECK_INTERVAL {
        ScaledBound(m, Chosen(usual, fast));
      }
    case _ =>
  }

  lemma {:induction false} ApplyAllCheck(m: Machine, s: Sched, acts: seq<Action>)
    requires Wf(s) && ValidActions(acts) && CheckSoon(m, s)
    ensures CheckSoon(m, ApplyAll(m, s, acts))
    decreases |acts|
  {
    hide Apply, CheckSoon;
    if acts != [] {
      ApplyMoves(m, s, acts[0]);
      ApplyCheck(m, s, acts[0]);
      ApplyAllCheck(m, Apply(m, s, acts[0]), acts[1..]);
    }
  }

  lemma {:induction false} RunCyclesCheck(m: Machine, s: Sched, horizon: nat)
    requires Compliant(m, horizon) && Wf(s) && Placed(m, s) && s.counter <= horizon && CheckSoon(m, s)
    ensures CheckSoon(m, RunCycles(m, s, horizon))
    decreases Overdue(s, NUM_EVENTS)
  {
    hide Compliant, Overdue, CheckSoon, ApplyAll, DispatchCycle;
    if s.cyc != [] && s.time[s.cyc[0]] <= s.counter {
      HandlersValid(m, horizon);
      DispatchDecreases(m, s, horizon);
      DispatchCheck(m, s);
      RunCyclesCheck(m, DispatchCycle(m, s), horizon);
    }
  }

  lemma DispatchCheck(m: Machine, s: Sched)
    requires Wf(s) && CheckSoon(m, s) && forall log :: ValidActions(m.handler(log))
    ensures s.cyc != [] && s.time[s.cyc[0]] <= s.counter ==> CheckSoon(m, DispatchCycle(m, s))
    ensures s.tim != [] ==> CheckSoon(m, DispatchTime(m, s))
  {
    hide ApplyAll;
    if s.cyc != [] && s.time[s.cyc[0]] <= s.counter {
      FireCycleFacts(s);
      ApplyAllCheck(m, FireCycle(s), m.handler(FireCycle(s).log));
    }
    if s.tim != [] {
      FireTimeFacts(s);
      ApplyAllCheck(m, FireTime(s), m.handler(FireTime(s).log));
    }
  }

  /** After the time events were served, the host clock is looked at again when the next of them is due,
      but not later than CHECK_INTERVAL microseconds from now. */
  lemma {:induction false} NextLook(m: Machine, s: Sched, horizon: nat)
    requires Compliant(m, horizon) && Wf(s) && Placed(m, s) && ClockOk(m, s) && s.counter <= horizon
    ensures var r := RunTime(m, s, horizon);
            && |r.time| == NUM_EVENTS && CheckSoon(m, r)
            && (r.tim == [] ==> r.check == (r.counter + CHECK_INTERVAL * m.freq) % WORD)
            && (r.tim != [] ==>
                  var i := r.tim[0];
                  && i < NUM_EVENTS && r.now < r.time[i]
                  && var wait := if r.time[i] - r.now < CHECK_INTERVAL then r.time[i] - r.now else CHECK_INTERVAL;
                  r.check == (r.counter + wait * m.freq) % WORD)
    decreases HALF - s.now, DueCount(s, NUM_EVENTS)
  {
    hide Compliant, DueCount, DispatchTime, Wf, ClockOk, NextCheck, CheckSoon;
    TimesInRange(s, 0);
    HandlersValid(m, horizon);
    if s.tim != [] {
      DueHead(m, s);
    }
    if s.tim == [] || Diff(s.time[s.tim[0]], s.now) > 0 {
      Stops(m, s, horizon);
    } else {
      DispatchTimeDecreases(m, s, horizon);
      NextLook(m, DispatchTime(m, s), horizon);
    }
  }

  lemma DueHead(m: Machine, s: Sched)
    requires Wf(s) && ClockOk(m, s) && s.tim != []
    ensures |s.time| == NUM_EVENTS && s.tim[0] < NUM_EVENTS && s.time[s.tim[0]] < HALF && s.now < HALF
    ensures Diff(s.time[s.tim[0]], s.now) <= 0 <==> s.time[s.tim[0]] <= s.now
    ensures Diff(s.time[s.tim[0]], s.now) == s.time[s.tim[0]] - s.now
  {
    assert s.tim[0] in s.tim;
  }

  lemma ClockNow(m: Machine, s: Sched)
    requires Wf(s) && ClockOk(m, s)
    ensures |s.time| == NUM_EVENTS && s.now < HALF
  {
  }

  /** The time loop ends. */
  lemma Stops(m: Machine, s: Sched, horizon: nat)
    requires Wf(s) && ClockOk(m, s) && (s.tim == [] || Diff(s.time[s.tim[0]], s.now) > 0)
    ensures s.now < WORD && |s.time| == NUM_EVENTS && var r := s.(check := NextCheck(m, s));
            && CheckSoon(m, r) && (s.tim == [] ==> r.check == (r.counter + CHECK_INTERVAL * m.freq) % WORD)
            && (s.tim != [] ==>
                  var i := s.tim[0];
                  && i < NUM_EVENTS && s.now < s.time[i]
                  && var wait := if s.time[i] - s.now < CHECK_INTERVAL then s.time[i] - s.now else CHECK_INTERVAL;
                  r.check == (r.counter + wait * m.freq) % WORD)
  {
    hide Wf, ClockOk, Scaled, Diff;
    ClockNow(m, s);
    if s.tim != [] {
      DueHead(m, s);
    }
    var wait: nat := CHECK_INTERVAL;
    if s.tim != [] && s.time[s.tim[0]] - s.now < CHECK_INTERVAL {
      wait := s.time[s.tim[0]] - s.now;
    }
    LookAfter(m, s.counter, wait);
  }

  lemma LookAfter(m: Machine, counter: nat, wait: nat)
    requires wait <= CHECK_INTERVAL
    ensures (counter + Scaled(m, wait)) % WORD == (counter + wait * m.freq) % WORD <= counter + CHECK_INTERVAL * m.freq
  {
    ScaledBound(m, wait);
    Wrapped(counter, wait * m.freq);
  }

  lemma AdvanceCheck(m: Machine, s: Sched, cycles: nat, horizon: nat)
    requires Compliant(m, horizon) && Wf(s) && Placed(m, s) && ClockOk(m, s) && s.counter + cycles <= horizon
    requires CheckSoon(m, s)
    ensures CheckSoon(m, Advance(m, s, cycles, horizon))
  {
    hide Compliant, RunCycles, RunTime, Wf;
    HandlersValid(m, horizon);
    LaterWf(m, s, cycles);
    RunCyclesCheck(m, Later(s, cycles), horizon);
    var a := AfterCycles(m, s, cycles, horizon);
    if a.check <= a.counter {
      RunCyclesFacts(m, Later(s, cycles), horizon);
      ReadClockOk(m, a, horizon);
      NextLook(m, ReadClock(m, a), horizon);
    }
  }

  lemma {:induction false} RunCheck(m: Machine, s: Sched, batches: seq<nat>, horizon: nat)
    requires Compliant(m, horizon) && Wf(s) && Placed(m, s) && ClockOk(m, s) && s.counter + Total(batches) <= horizon
    requires CheckSoon(m, s)
    ensures CheckSoon(m, Run(m, s, batches, horizon))
    decreases |batches|
  {
    hide Compliant, Advance, Wf, ClockOk, CheckSoon;
    if batches != [] {
      AdvanceCheck(m, s, batches[0], horizon);
      RunCheck(m, Advance(m, s, batches[0], horizon), batches[1..], horizon);
    }
  }

  /** A time event that is due and that the handlers leave alone. */
  ghost predicate Overripe(m: Machine, s: Sched, k: nat)
    requires |s.time| == NUM_EVENTS && k < NUM_EVENTS
  {
    k in s.tim && s.time[k] <= m.clock(s.ticks)
  }

  lemma ClockForward(m: Machine, a: nat, b: nat)
    requires a <= b && forall n: nat :: m.clock(n) <= m.clock(n + 1) && m.clock(n) < HALF
    ensures m.clock(a) <= m.clock(b)
    decreases b - a
  {
    if a < b {
      ClockForward(m, a, b - 1);
      assert m.clock(b - 1) <= m.clock(b - 1 + 1);
    }
  }

  /** While such an event waits, no polite call puts off the look at the host clock. */
  lemma KeepsCheck(m: Machine, s: Sched, a: Action, f: Firing, k: nat)
    requires Wf(s) && IsEvent(a.id) && IsEvent(k) && a.id != k && Polite(m, s, a, f) && Overripe(m, s, k)
    requires forall n: nat :: m.clock(n) <= m.clock(n + 1) && m.clock(n) < HALF
    ensures var t := Apply(m, s, a);
            Wf(t) && Overripe(m, t, k) && t.check == s.check && t.time[k] == s.time[k] && s.ticks <= t.ticks
  {
    hide ArmCycles, ArmTime, Disarm, Extends;
    ApplyMoves(m, s, a);
    var t := Apply(m, s, a);
    assert m.clock(s.ticks) <= m.clock(s.ticks + 1);
    if m.realtime && (a.AddTime? || a.UpdateTime?) {
      RealtimeArms(m, s, a);
      if a.AddTime? {
        NotHead(t, k, a.id);
        AddedCheck(m, s, a);
      } else {
        UpdatedCheck(m, s, a);
      }
    } else {
      UnclockedArms(m, s, a);
      UnclockedCheck(m, s, a);
    }
  }

  lemma NotHead(t: Sched, k: nat, i: nat)
    requires Wf(t) && k in t.tim && i < NUM_EVENTS && t.time[k] < t.time[i]
    ensures t.tim != [] && t.tim[0] != i
  {
    var a :| 0 <= a < |t.tim| && t.tim[a] == k;
    if a > 0 {
      assert t.time[t.tim[0]] <= t.time[t.tim[a]];
    }
  }

  lemma AddedCheck(m: Machine, s: Sched, a: Action)
    requires Wf(s) && IsEvent(a.id) && m.realtime && a.AddTime?
    ensures var t := Apply(m, s, a); t.tim != [] && t.tim[0] != a.id ==> t.check == s.check
  {
    hide Insert, Without, Wf;
  }

  lemma UpdatedCheck(m: Machine, s: Sched, a: Action)
    requires Wf(s) && IsEvent(a.id) && m.realtime && a.UpdateTime?
    ensures Apply(m, s, a).check == s.check
  {
    hide Insert, Without, Wf;
  }

  lemma UnclockedCheck(m: Machine, s: Sched, a: Action)
    requires Wf(s) && IsEvent(a.id) && !(m.realtime && (a.AddTime? || a.UpdateTime?))
    ensures Apply(m, s, a).check == s.check
  {
    hide Insert, Without, Wf;
  }

  lemma {:induction false} KeepsCheckAll(m: Machine, s: Sched, acts: seq<Action>, f: Firing, k: nat)
    requires Wf(s) && ValidActions(acts) && IsEvent(k) && Touching(acts, k) == [] && PoliteAll(m, s, acts, f)
             && Overripe(m, s, k)
    requires forall n: nat :: m.clock(n) <= m.clock(n + 1) && m.clock(n) < HALF
    ensures var t := ApplyAll(m, s, acts); Overripe(m, t, k) && t.check == s.check && t.time[k] == s.time[k]
    decreases |acts|
  {
    hide Apply, Polite, Wf, Overripe;
    TimesInRange(s, k);
    if acts != [] {
      ApplyMoves(m, s, acts[0]);
      KeepsCheck(m, s, acts[0], f, k);
      KeepsCheckAll(m, Apply(m, s, acts[0]), acts[1..], f, k);
    }
  }

  lemma {:induction false} RunCyclesKeepsCheck(m: Machine, s: Sched, horizon: nat, k: nat)
    requires Compliant(m, horizon) && Wf(s) && Placed(m, s) && s.counter <= horizon && LeftAlone(m, k)
             && Overripe(m, s, k)
    ensures var r := RunCycles(m, s, horizon); Overripe(m, r, k) && r.check == s.check && r.time[k] == s.time[k]
    decreases Overdue(s, NUM_EVENTS)
  {
    hide Compliant, Overdue, DispatchCycle, LeftAlone, Overripe;
    IsLeftAlone(m, k);
    if s.cyc != [] && s.time[s.cyc[0]] <= s.counter {
      HandlersValid(m, horizon);
      DispatchDecreases(m, s, horizon);
      DispatchKeepsCheck(m, s, horizon, k);
      RunCyclesKeepsCheck(m, DispatchCycle(m, s), horizon, k);
    }
  }

  lemma DispatchKeepsCheck(m: Machine, s: Sched, horizon: nat, k: nat)
    requires Compliant(m, horizon) && Wf(s) && Placed(m, s) && s.counter <= horizon && LeftAlone(m, k)
             && Overripe(m, s, k)
    requires s.cyc != [] && s.time[s.cyc[0]] <= s.counter
    ensures var r := DispatchCycle(m, s);
    |r.time| == NUM_EVENTS && Overripe(m, r, k) && r.check == s.check && r.time[k] == s.time[k]
  {
    hide ApplyAll, PoliteAll, Touching, Polite;
    FireCycleFacts(s);
    assert s.cyc[0] in s.cyc;
    var r := FireCycle(s);
    KeepsCheckAll(m, r, m.handler(r.log), Last(r), k);
  }

  /** One call of CycInt_AddCycles either looks at the clock and serves the event, or leaves it and the
      next look as they are. */
  lemma AdvanceServes(m: Machine, s: Sched, cycles: nat, horizon: nat, k: nat, n: nat)
    requires Compliant(m, horizon) && Wf(s) && Placed(m, s) && ClockOk(m, s) && s.counter + cycles <= horizon
    requires LeftAlone(m, k) && Overripe(m, s, k) && Awaits(s, k, Time, s.time[k], n)
    ensures var r := Advance(m, s, cycles, horizon);
            && |r.time| == NUM_EVENTS
            && if s.check <= s.counter + cycles then Done(r, k, Time, s.time[k], n)
               else Awaits(r, k, Time, s.time[k], n) && Overripe(m, r, k) && r.check == s.check
  {
    hide Compliant, RunCycles, RunTime, LeftAlone, FiredOnce, Wf;
    HandlersValid(m, horizon);
    IsLeftAlone(m, k);
    TimesInRange(s, k);
    LaterWf(m, s, cycles);
    var s0 := Later(s, cycles);
    RunCyclesKeepsCheck(m, s0, horizon, k);
    RunCyclesFacts(m, s0, horizon);
    AdvanceTracks(m, s, cycles, horizon, k, Time, s.time[k], n);
    RunCyclesTracks(m, s0, horizon, k, Time, s.time[k], n);
    var a := AfterCycles(m, s, cycles, horizon);
    TimesInRange(a, k);
    if a.check <= a.counter {
      ReadClockOk(m, a, horizon);
      ReadNow(m, a, horizon);
      RunTimeFacts(m, ReadClock(m, a), horizon);
    }
  }

  lemma ReadNow(m: Machine, s: Sched, horizon: nat)
    requires Compliant(m, horizon)
    ensures ReadClock(m, s).now == m.clock(s.ticks)
  {
    hide PoliteAll;
  }

  /** A time event that is due and that the handlers leave alone fires exactly once, with its deadline,
      when the counter has reached the next look at the host clock. */
  lemma {:induction false} DueIsServed(m: Machine, s: Sched, batches: seq<nat>, horizon: nat, k: nat, n: nat)
    requires Compliant(m, horizon) && Wf(s) && Placed(m, s) && ClockOk(m, s) && s.counter + Total(batches) <= horizon
    requires LeftAlone(m, k) && Overripe(m, s, k) && Awaits(s, k, Time, s.time[k], n)
    requires batches != [] && s.check <= s.counter + Total(batches)
    ensures var r := Run(m, s, batches, horizon); Done(r, k, Time, s.time[k], n)
    decreases |batches|
  {
    hide Compliant, Advance, AfterCycles, Wf, LeftAlone, Done, ClockOk, Overripe, Fires;
    IsLeftAlone(m, k);
    TimesInRange(s, k);
    AdvanceServes(m, s, batches[0], horizon, k, n);
    var t := Advance(m, s, batches[0], horizon);
    if s.check <= s.counter + batches[0] {
      RunTracks(m, t, batches[1..], horizon, k, Time, s.time[k], n);
    } else {
      assert Total(batches) == batches[0] + Total(batches[1..]);
      DueIsServed(m, t, batches[1..], horizon, k, n);
    }
  }

  /** After CycInt_AddTimeEvent(usual, fast, k) with the host clock at t in realtime mode, k fires at most
      once, with deadline t + usual, or t + fast if that is given, and not before; and once the clock has
      passed the deadline, before another CHECK_INTERVAL microseconds' worth of cycles have gone by. */
  lemma AddedTimeFires(m: Machine, s: Sched, usual: nat, fast: nat, k: nat, before: seq<nat>, after: seq<nat>,
                       horizon: nat)
    requires Compliant(m, horizon) && Wf(s) && Placed(m, s) && ClockOk(m, s) && CheckSoon(m, s)
    requires m.realtime && LeftAlone(m, k) && May(m, k, Time) && s.counter + Total(before) + Total(after) <= horizon
    requires m.clock(s.ticks) + (if fast == 0 then usual else fast) < HALF
    ensures var t := Apply(m, s, AddTime(usual, fast, k));
            Wf(t) && Placed(m, t) && ClockOk(m, t) && t.counter == s.counter && t.log == s.log
    ensures var due := m.clock(s.ticks) + if fast == 0 then usual else fast;
            var u := Run(m, Apply(m, s, AddTime(usual, fast, k)), before, horizon);
            var v := Run(m, u, after, horizon);
            && |u.time| == |v.time| == NUM_EVENTS
            && Tracked(u, k, Time, due, |s.log|) && Tracked(v, k, Time, due, |s.log|)
            && (due <= m.clock(u.ticks) && after != [] && CHECK_INTERVAL * m.freq <= Total(after) ==>
                  Done(v, k, Time, due, |s.log|))
  {
    hide Compliant, Run, LeftAlone, Done, Awaits, Tracked, Wf, ClockOk, Apply, Placed, CheckSoon;
    IsLeftAlone(m, k);
    ClockGood(m, horizon);
    TimeArmed(m, s, usual, fast, k);
    var due, t := m.clock(s.ticks) + (if fast == 0 then usual else fast), Apply(m, s, AddTime(usual, fast, k));
    Starts(t, k, due);
    TrackedTwice(m, t, before, after, horizon, k, due, |s.log|);
  }

  lemma ClockGood(m: Machine, horizon: nat)
    requires Compliant(m, horizon)
    ensures forall n: nat :: m.clock(n) <= m.clock(n + 1) && m.clock(n) < HALF
  {
    hide PoliteAll;
  }

  lemma Starts(s: Sched, k: nat, due: nat)
    requires |s.time| == NUM_EVENTS && k < NUM_EVENTS && k in s.tim && s.time[k] == due
    ensures Awaits(s, k, Time, due, |s.log|) && Tracked(s, k, Time, due, |s.log|)
  {
  }

  lemma TrackedTwice(m: Machine, s: Sched, before: seq<nat>, after: seq<nat>, horizon: nat, k: nat, due: nat, n: nat)
    requires Compliant(m, horizon) && Wf(s) && Placed(m, s) && ClockOk(m, s) && CheckSoon(m, s)
    requires s.counter + Total(before) + Total(after) <= horizon && LeftAlone(m, k) && Tracked(s, k, Time, due, n)
    ensures var u := Run(m, s, before, horizon);
            var v := Run(m, u, after, horizon);
            && |u.time| == |v.time| == NUM_EVENTS && Tracked(u, k, Time, due, n) && Tracked(v, k, Time, due, n)
            && (due <= m.clock(u.ticks) && after != [] && CHECK_INTERVAL * m.freq <= Total(after) ==>
                  Done(v, k, Time, due, n))
  {
    hide Compliant, Run, LeftAlone, Done, Awaits, Wf, ClockOk, Placed, CheckSoon;
    IsLeftAlone(m, k);
    RunTracks(m, s, before, horizon, k, Time, due, n);
    RunCheck(m, s, before, horizon);
    var u := Run(m, s, before, horizon);
    RunTracks(m, u, after, horizon, k, Time, due, n);
    if due <= m.clock(u.ticks) && after != [] && CHECK_INTERVAL * m.freq <= Total(after) && Awaits(u, k, Time, due, n) {
      SoonEnough(m, u);
      IsOverripe(m, u, k, due, n);
      DueIsServed(m, u, after, horizon, k, n);
    }
  }

  lemma IsOverripe(m: Machine, s: Sched, k: nat, due: nat, n: nat)
    requires |s.time| == NUM_EVENTS && k < NUM_EVENTS && Awaits(s, k, Time, due, n) && due <= m.clock(s.ticks)
    ensures s.time[k] == due && Overripe(m, s, k)
  {
  }

  lemma SoonEnough(m: Machine, s: Sched)
    requires CheckSoon(m, s)
    ensures s.check <= s.counter + CHECK_INTERVAL * m.freq
  {
  }

  lemma TimeArmed(m: Machine, s: Sched, usual: nat, fast: nat, k: nat)
    requires Wf(s) && Placed(m, s) && ClockOk(m, s) && CheckSoon(m, s) && m.realtime && IsEvent(k) && May(m, k, Time)
    requires m.clock(s.ticks) + (if fast == 0 then usual else fast) < HALF
    requires forall n: nat :: m.clock(n) <= m.clock(n + 1) && m.clock(n) < HALF
    ensures var t := Apply(m, s, AddTime(usual, fast, k));
            && Wf(t) && Placed(m, t) && ClockOk(m, t) && CheckSoon(m, t) && t.counter == s.counter && t.log == s.log
            && |t.time| == NUM_EVENTS && k in t.tim && t.time[k] == m.clock(s.ticks) + if fast == 0 then usual else fast
  {
    hide ArmCycles, ArmTime, Disarm, CheckSoon, Wf;
    var a := AddTime(usual, fast, k);
    ApplyMoves(m, s, a);
    ApplyCheck(m, s, a);
    RealtimeArms(m, s, a);
    TimesInRange(s, k);
    TimesInRange(Apply(m, s, a), k);
    assert m.clock(s.ticks) <= m.clock(s.ticks + 1);
  }

  /** CycInt_UpdateTimeEvent in realtime mode keeps the beat: the new deadline is the old one and r, unless
      the host clock is more than half of r past the old one; then it is the present and r. */
  lemma KeepsBeat(m: Machine, s: Sched, usual: nat, fast: nat, k: nat)
    requires Wf(s) && m.realtime && IsEvent(k) && s.time[k] <= m.clock(s.ticks) < HALF
    requires m.clock(s.ticks) + (if fast == 0 then usual else fast) < HALF
    ensures var r, late, t := if fast == 0 then usual else fast, m.clock(s.ticks) - s.time[k],
            Apply(m, s, UpdateTime(usual, fast, k));
            && Wf(t) && k in t.tim
            && t.time[k] == if late <= r / 2 then s.time[k] + r else m.clock(s.ticks) + r
  {
    hide ArmCycles, ArmTime, Disarm, Wf;
    var r, now := Chosen(usual, fast), m.clock(s.ticks);
    ApplyMoves(m, s, UpdateTime(usual, fast, k));
    TimesInRange(s, k);
    Bookkeeping(s, s.check, now, s.ticks + 1);
    ArmFacts(s.(ticks := s.ticks + 1, now := now), k, (if now - s.time[k] > r / 2 then now else s.time[k]) + r);
  }

  /** The condition can be met: the two handlers of Clockwork leave every other event alone. */
  lemma ClockworkLeavesAlone(realtime: bool, freq: nat, clock: nat -> nat, j: nat, r: nat, k: nat, p: nat, i: nat)
    requires IsEvent(i) && i != j && i != k
    ensures LeftAlone(Clockwork(realtime, freq, clock, j, r, k, p), i)
  {
    hide Touching;
    TouchingOne(UpdateTime(r, 0, j), i);
    TouchingOne(UpdateCycles(p, k), i);
    TouchingNone(i);
  }
}
