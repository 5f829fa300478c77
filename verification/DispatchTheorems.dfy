/** What CycInt_AddCycles guarantees over whole runs. */
module DispatchTheorems {
  import opened Schedule
  import opened Dispatch

  ghost predicate NoneDue(s: Sched)
    requires |s.time| == NUM_EVENTS
  {
    forall i :: i in s.cyc && i < NUM_EVENTS ==> s.counter < s.time[i]
  }

  // ----- the cycle loop

  lemma {:induction false} RunCyclesFacts(m: Machine, s: Sched, horizon: nat)
    requires Compliant(m, horizon) && Wf(s) && Placed(m, s) && s.counter <= horizon
    ensures var r := RunCycles(m, s, horizon); NoneDue(r) && (ClockOk(m, s) ==> ClockOk(m, r))
    decreases Overdue(s, NUM_EVENTS)
  {
    hide Compliant, ClockOk, Overdue, DispatchCycle;
    if s.cyc == [] || s.time[s.cyc[0]] > s.counter {
      forall i | i in s.cyc && i < NUM_EVENTS
        ensures s.counter < s.time[i]
      {
        var a :| 0 <= a < |s.cyc| && s.cyc[a] == i;
      }
    } else {
      HandlersValid(m, horizon);
      DispatchDecreases(m, s, horizon);
      DispatchCycleClock(m, s, horizon);
      RunCyclesFacts(m, DispatchCycle(m, s), horizon);
    }
  }

  lemma HandlersValid(m: Machine, horizon: nat)
    requires Compliant(m, horizon)
    ensures (forall log :: ValidActions(m.handler(log))) && horizon < MAX
  {
  }

  lemma DispatchCycleClock(m: Machine, s: Sched, horizon: nat)
    requires Compliant(m, horizon) && Wf(s) && Placed(m, s) && s.counter <= horizon && s.cyc != []
             && s.time[s.cyc[0]] <= s.counter
    ensures ClockOk(m, s) ==> ClockOk(m, DispatchCycle(m, s))
  {
    hide PoliteAll, ApplyAll;
    FireCycleFacts(s);
    var r := FireCycle(s);
    if ClockOk(m, s) {
      assert ClockOk(m, r);
      ClockSteps(m, r, m.handler(r.log), Last(r));
    }
  }

  /** Every pending cycle event is due at b or later. */
  ghost predicate NotBefore(s: Sched, b: nat)
    requires |s.time| == NUM_EVENTS
  {
    forall i :: i in s.cyc && i < NUM_EVENTS ==> b <= s.time[i]
  }

  /** From position n on the log holds cycle firings with deadlines in order, from b to c. */
  ghost predicate InOrder(log: seq<Firing>, n: nat, b: nat, c: nat) {
    && (forall k :: n <= k < |log| ==> log[k].kind == Cycles && b <= log[k].due <= c)
    && (forall j, k :: n <= j < k < |log| ==> log[j].due <= log[k].due)
  }

  /** After a dispatch no pending deadline lies before the one that has been served. */
  lemma DispatchNotBefore(m: Machine, s: Sched, horizon: nat)
    requires Compliant(m, horizon) && Wf(s) && Placed(m, s) && s.counter <= horizon && s.cyc != []
             && s.time[s.cyc[0]] <= s.counter
    ensures NotBefore(DispatchCycle(m, s), s.time[s.cyc[0]])
  {
    hide Compliant, DispatchCycle;
    HandlersValid(m, horizon);
    DispatchDecreases(m, s, horizon);
    var t, k := DispatchCycle(m, s), s.cyc[0];
    forall i | i in t.cyc && i < NUM_EVENTS
      ensures s.time[k] <= t.time[i]
    {
      if i != k && t.time[i] <= s.counter {
        assert Term(t, i) <= Term(s, i);
        assert i in s.cyc && s.time[i] <= t.time[i];
        var a :| 0 <= a < |s.cyc| && s.cyc[a] == i;
      }
    }
  }

  /** The cycle loop appends to the log only, fires nothing before its deadline, and serves
      deadlines in order. */
  lemma {:induction false} RunCyclesInOrder(m: Machine, s: Sched, horizon: nat, b: nat)
    requires Compliant(m, horizon) && Wf(s) && Placed(m, s) && s.counter <= horizon && NotBefore(s, b)
    ensures var r := RunCycles(m, s, horizon); s.log <= r.log && InOrder(r.log, |s.log|, b, s.counter)
    decreases Overdue(s, NUM_EVENTS)
  {
    hide Compliant, Overdue, DispatchCycle, NotBefore;
    if s.cyc != [] && s.time[s.cyc[0]] <= s.counter {
      HandlersValid(m, horizon);
      DispatchDecreases(m, s, horizon);
      DispatchNotBefore(m, s, horizon);
      var t, d := DispatchCycle(m, s), s.time[s.cyc[0]];
      HeadNotBefore(s, b);
      RunCyclesInOrder(m, t, horizon, d);
      var r := RunCycles(m, t, horizon);
      assert r == RunCycles(m, s, horizon);
      assert t.log[|s.log|] == Firing(s.cyc[0], d, Cycles) && r.log[|s.log|] == t.log[|s.log|];
    }
  }

  lemma HeadNotBefore(s: Sched, b: nat)
    requires Wf(s) && NotBefore(s, b) && s.cyc != []
    ensures b <= s.time[s.cyc[0]]
  {
    assert s.cyc[0] in s.cyc;
  }

  // ----- CycInt_AddCycles

  function ReadClock(m: Machine, s: Sched): Sched {
    s.(now := m.clock(s.ticks) % WORD, ticks := s.ticks + 1)
  }

  function Later(s: Sched, cycles: nat): Sched {
    s.(counter := s.counter + cycles)
  }

  lemma LaterWf(m: Machine, s: Sched, cycles: nat)
    requires Wf(s) && s.counter + cycles <= MAX
    ensures Wf(Later(s, cycles)) && (ClockOk(m, s) ==> ClockOk(m, Later(s, cycles)))
            && (Placed(m, s) ==> Placed(m, Later(s, cycles)))
  {
    hide Sorted, Distinct, InRange;
  }

  lemma ReadClockOk(m: Machine, s: Sched, horizon: nat)
    requires Compliant(m, horizon) && Wf(s) && Placed(m, s) && ClockOk(m, s)
    ensures var r := ReadClock(m, s); Wf(r) && Placed(m, r) && ClockOk(m, r) && s.now <= r.now
  {
    hide Sorted, Distinct, InRange, PoliteAll;
    assert m.clock(s.ticks) <= m.clock(s.ticks + 1);
  }

  /** The state after the cycle loop. */
  ghost function AfterCycles(m: Machine, s: Sched, cycles: nat, horizon: nat): (r: Sched)
    requires Compliant(m, horizon) && Wf(s) && Placed(m, s) && ClockOk(m, s) && s.counter + cycles <= horizon
    ensures Wf(r) && Placed(m, r) && ClockOk(m, r) && r.counter == s.counter + cycles
  {
    LaterWf(m, s, cycles);
    RunCyclesFacts(m, Later(s, cycles), horizon);
    RunCycles(m, Later(s, cycles), horizon)
  }

  /** CycInt_AddCycles: first the cycle loop, then, when it is time to look at the host clock, the
      time loop. */
  ghost function Advance(m: Machine, s: Sched, cycles: nat, horizon: nat): (r: Sched)
    requires Compliant(m, horizon) && Wf(s) && Placed(m, s) && ClockOk(m, s) && s.counter + cycles <= horizon
    ensures Wf(r) && Placed(m, r) && ClockOk(m, r) && r.counter == s.counter + cycles
  {
    var s1 := AfterCycles(m, s, cycles, horizon);
    if s1.check <= s1.counter then
      ReadClockOk(m, s1, horizon);
      RunTime(m, ReadClock(m, s1), horizon)
    else s1
  }

  lemma {:induction false} RunTimeFacts(m: Machine, s: Sched, horizon: nat)
    requires Compliant(m, horizon) && Wf(s) && Placed(m, s) && ClockOk(m, s) && s.counter <= horizon && NoneDue(s)
    ensures var r := RunTime(m, s, horizon);
            && NoneDue(r) && s.log <= r.log && s.now <= r.now
            && (forall k :: |s.log| <= k < |r.log| ==> r.log[k].kind == Time && r.log[k].due <= r.now)
            && (forall i :: i in r.tim && i < NUM_EVENTS ==> r.now < r.time[i])
    decreases HALF - s.now, DueCount(s, NUM_EVENTS)
  {
    hide Compliant, DueCount, DispatchTime;
    if s.tim == [] || Diff(s.time[s.tim[0]], s.now) > 0 {
      forall i | i in s.tim && i < NUM_EVENTS
        ensures s.now < s.time[i]
      {
        var a :| 0 <= a < |s.tim| && s.tim[a] == i;
        assert s.tim[0] in s.tim;
      }
    } else {
      assert s.tim[0] in s.tim;
      HandlersValid(m, horizon);
      DispatchTimeDecreases(m, s, horizon);
      var t := DispatchTime(m, s);
      StillNoneDue(s, t);
      RunTimeFacts(m, t, horizon);
      var r := RunTime(m, t, horizon);
      assert t.log[|s.log|] == Firing(s.tim[0], s.time[s.tim[0]], Time) && r.log[|s.log|] == t.log[|s.log|];
    }
  }

  lemma StillNoneDue(s: Sched, t: Sched)
    requires |s.time| == |t.time| == NUM_EVENTS && t.counter == s.counter && NoneDue(s)
    requires forall i :: 0 <= i < NUM_EVENTS ==> Term(t, i) <= Term(s, i)
    ensures NoneDue(t)
  {
    forall i | i in t.cyc && i < NUM_EVENTS
      ensures t.counter < t.time[i]
    {
      assert Term(t, i) <= Term(s, i) == 0;
    }
  }

  /** CycInt_AddCycles fires no cycle event early, leaves none that is due, serves deadlines in
      order, and only then turns to the time events. */
  lemma AdvanceSafe(m: Machine, s: Sched, cycles: nat, horizon: nat)
    requires Compliant(m, horizon) && Wf(s) && Placed(m, s) && ClockOk(m, s) && s.counter + cycles <= horizon
    ensures var a, r := AfterCycles(m, s, cycles, horizon), Advance(m, s, cycles, horizon);
            && NoneDue(r)
            && s.log <= a.log <= r.log && InOrder(a.log, |s.log|, 0, s.counter + cycles)
            && (forall k :: |a.log| <= k < |r.log| ==> r.log[k].kind == Time && r.log[k].due <= r.now)
  {
    hide Compliant, RunCycles, RunTime, Wf;
    HandlersValid(m, horizon);
    LaterWf(m, s, cycles);
    var s0 := Later(s, cycles);
    RunCyclesFacts(m, s0, horizon);
    TimesInRange(s0, 0);
    RunCyclesInOrder(m, s0, horizon, 0);
    var a := AfterCycles(m, s, cycles, horizon);
    if a.check <= a.counter {
      ReadClockOk(m, a, horizon);
      RunTimeFacts(m, ReadClock(m, a), horizon);
    }
  }

  // ----- a periodic event

  function Touching(acts: seq<Action>, k: nat): seq<Action> {
    if acts == [] then [] else (if acts[0].id == k then [acts[0]] else []) + Touching(acts[1..], k)
  }

  /** The call re-arms k with period p in cycles. */
  predicate Rearms(m: Machine, a: Action, k: nat, p: nat) {
    a == UpdateCycles(p, k) || (!m.realtime && a.UpdateTime? && a.id == k && Scaled(m, a.usual) == p)
  }

  /** The handler of k re-arms it with period p and does nothing else to it; no other handler touches
      it.  This is asked only where an event goes off in a list it is used in. */
  ghost predicate Periodic(m: Machine, k: nat, p: nat) {
    && IsEvent(k) && 0 < p
    && forall log: seq<Firing> :: log != [] && May(m, log[|log| - 1].id, log[|log| - 1].kind) ==>
         PeriodicHere(m, k, p, log)
  }

  ghost predicate PeriodicHere(m: Machine, k: nat, p: nat, log: seq<Firing>)
    requires log != []
  {
    var calls, f := Touching(m.handler(log), k), log[|log| - 1];
    if f.id == k && f.kind == Cycles then |calls| == 1 && Rearms(m, calls[0], k, p) else calls == []
  }

  /** How often k has fired from log position n on. */
  function Fires(log: seq<Firing>, k: nat, n: nat): nat {
    if |log| <= n then 0
    else Fires(log[..|log| - 1], k, n) + if log[|log| - 1].id == k then 1 else 0
  }

  /** Deadline number j of the period: t0 + j p. */
  function Nth(t0: nat, p: nat, j: nat): nat {
    t0 + j * p
  }

  lemma NthStep(t0: nat, p: nat, j: nat)
    ensures Nth(t0, p, j + 1) == Nth(t0, p, j) + p
  {
  }

  ghost predicate OnSchedule(s: Sched, k: nat, t0: nat, p: nat, n: nat)
    requires |s.time| == NUM_EVENTS && k < NUM_EVENTS
  {
    var j := Fires(s.log, k, n);
    k in s.cyc && s.time[k] == Nth(t0, p, j) && (0 < j ==> Nth(t0, p, j - 1) <= s.counter)
  }

  lemma {:induction false} UntouchedBy(m: Machine, s: Sched, acts: seq<Action>, k: nat)
    requires Wf(s) && ValidActions(acts) && IsEvent(k) && Touching(acts, k) == []
    ensures var t := ApplyAll(m, s, acts);
            t.time[k] == s.time[k] && (k in t.cyc <==> k in s.cyc) && (k in t.tim <==> k in s.tim)
    decreases |acts|
  {
    hide Apply, Wf;
    TimesInRange(s, k);
    if acts != [] {
      ApplyMoves(m, s, acts[0]);
      UntouchedBy(m, Apply(m, s, acts[0]), acts[1..], k);
    }
  }

  lemma {:induction false} RearmedBy(m: Machine, s: Sched, acts: seq<Action>, k: nat, p: nat, f: Firing)
    requires Wf(s) && ValidActions(acts) && IsEvent(k) && PoliteAll(m, s, acts, f)
    requires |Touching(acts, k)| == 1 && Rearms(m, Touching(acts, k)[0], k, p)
    ensures var t := ApplyAll(m, s, acts); t.time[k] == s.time[k] + p && k in t.cyc
    decreases |acts|
  {
    hide ArmCycles, ArmTime, Wf, Disarm;
    TimesInRange(s, k);
    ApplyMoves(m, s, acts[0]);
    if acts[0].id == k {
      assert Touching(acts, k) == [acts[0]] + Touching(acts[1..], k);
      assert acts[0] == Touching(acts, k)[0] && Touching(acts[1..], k) == [];
      ArmFacts(s, k, s.time[k] + p);
      UntouchedBy(m, Apply(m, s, acts[0]), acts[1..], k);
    } else {
      RearmedBy(m, Apply(m, s, acts[0]), acts[1..], k, p, f);
    }
  }

  lemma HandlerIsPolite(m: Machine, r: Sched, horizon: nat)
    requires Compliant(m, horizon) && JustFired(m, r) && r.counter <= horizon
    ensures Wf(r) && ValidActions(m.handler(r.log)) && PoliteAll(m, r, m.handler(r.log), Last(r))
  {
    hide PoliteAll;
  }

  lemma HandlerIsPeriodic(m: Machine, k: nat, p: nat, log: seq<Firing>)
    requires Periodic(m, k, p) && log != [] && May(m, log[|log| - 1].id, log[|log| - 1].kind)
    ensures PeriodicHere(m, k, p, log)
  {
    hide Touching;
  }

  lemma FiresNext(log: seq<Firing>, f: Firing, k: nat, n: nat)
    requires n <= |log|
    ensures Fires(log + [f], k, n) == Fires(log, k, n) + if f.id == k then 1 else 0
  {
    assert (log + [f])[..|log|] == log;
  }

  /** What firing the head of the cycle list leaves to its handler. */
  lemma FiredHead(m: Machine, s: Sched, horizon: nat, k: nat, p: nat, n: nat)
    requires Compliant(m, horizon) && Wf(s) && Placed(m, s) && s.counter <= horizon && s.cyc != []
             && s.time[s.cyc[0]] <= s.counter
    requires Periodic(m, k, p) && n <= |s.log|
    ensures forall log :: ValidActions(m.handler(log))
    ensures var r := FireCycle(s);
            && Wf(r) && r.log != [] && PoliteAll(m, r, m.handler(r.log), Last(r)) && r.time == s.time
            && r.counter == s.counter
            && Fires(r.log, k, n) == Fires(s.log, k, n) + (if s.cyc[0] == k then 1 else 0)
            && PeriodicHere(m, k, p, r.log) && r.log[|r.log| - 1].kind == Cycles && r.log[|r.log| - 1].id == s.cyc[0]
            && (forall j :: j in r.cyc <==> j in s.cyc && j != s.cyc[0])
            && DispatchCycle(m, s) == ApplyAll(m, r, m.handler(r.log))
  {
    hide ApplyAll, PoliteAll, Fires, Wf, ValidActions, Periodic, PeriodicHere;
    HandlersValid(m, horizon);
    TimesInRange(s, 0);
    FireCycleFacts(s);
    var r := FireCycle(s);
    HandlerIsPolite(m, r, horizon);
    HandlerIsPeriodic(m, k, p, r.log);
    FiresNext(s.log, Firing(s.cyc[0], s.time[s.cyc[0]], Cycles), k, n);
  }

  lemma FiredOnSchedule(m: Machine, s: Sched, horizon: nat, k: nat, t0: nat, p: nat, n: nat)
    requires Compliant(m, horizon) && Wf(s) && Placed(m, s) && s.counter <= horizon && s.cyc != []
             && s.time[s.cyc[0]] <= s.counter
    requires Periodic(m, k, p) && n <= |s.log| && OnSchedule(s, k, t0, p, n) && s.cyc[0] == k
    ensures OnSchedule(DispatchCycle(m, s), k, t0, p, n)
  {
    hide ApplyAll, PoliteAll, Wf, Nth, Fires, Touching, Compliant, Periodic, ValidActions, DispatchCycle, FireCycle;
    PeriodicEvent(m, k, p);
    FiredHead(m, s, horizon, k, p, n);
    var r := FireCycle(s);
    TimesInRange(s, k);
    NthStep(t0, p, Fires(s.log, k, n));
    RearmedBy(m, r, m.handler(r.log), k, p, Last(r));
    DispatchFrame(m, s);
  }

  lemma DispatchFrame(m: Machine, s: Sched)
    requires Wf(s) && s.cyc != [] && s.time[s.cyc[0]] <= s.counter && forall log :: ValidActions(m.handler(log))
    ensures |DispatchCycle(m, s).time| == NUM_EVENTS && DispatchCycle(m, s).counter == s.counter
    ensures DispatchCycle(m, s).log == FireCycle(s).log
  {
    hide DispatchCycle, ValidActions;
    TimesInRange(DispatchCycle(m, s), 0);
  }

  lemma OtherOnSchedule(m: Machine, s: Sched, horizon: nat, k: nat, t0: nat, p: nat, n: nat)
    requires Compliant(m, horizon) && Wf(s) && Placed(m, s) && s.counter <= horizon && s.cyc != []
             && s.time[s.cyc[0]] <= s.counter
    requires Periodic(m, k, p) && n <= |s.log| && OnSchedule(s, k, t0, p, n) && s.cyc[0] != k
    ensures OnSchedule(DispatchCycle(m, s), k, t0, p, n)
  {
    hide ApplyAll, PoliteAll, Wf, Nth, Fires, Touching, Compliant, Periodic, ValidActions, DispatchCycle, FireCycle;
    PeriodicEvent(m, k, p);
    FiredHead(m, s, horizon, k, p, n);
    var r := FireCycle(s);
    TimesInRange(s, k);
    UntouchedBy(m, r, m.handler(r.log), k);
    DispatchFrame(m, s);
  }

  lemma DispatchCycleOnSchedule(m: Machine, s: Sched, horizon: nat, k: nat, t0: nat, p: nat, n: nat)
    requires Compliant(m, horizon) && Wf(s) && Placed(m, s) && s.counter <= horizon && s.cyc != []
             && s.time[s.cyc[0]] <= s.counter
    requires Periodic(m, k, p) && n <= |s.log| && OnSchedule(s, k, t0, p, n)
    ensures OnSchedule(DispatchCycle(m, s), k, t0, p, n)
  {
    hide OnSchedule, DispatchCycle, Wf, Compliant, Periodic;
    if s.cyc[0] == k {
      FiredOnSchedule(m, s, horizon, k, t0, p, n);
    } else {
      OtherOnSchedule(m, s, horizon, k, t0, p, n);
    }
  }

  lemma {:induction false} RunCyclesOnSchedule(m: Machine, s: Sched, horizon: nat, k: nat, t0: nat, p: nat, n: nat)
    requires Compliant(m, horizon) && Wf(s) && Placed(m, s) && s.counter <= horizon
    requires Periodic(m, k, p) && n <= |s.log| && OnSchedule(s, k, t0, p, n)
    ensures var r := RunCycles(m, s, horizon); OnSchedule(r, k, t0, p, n) && n <= |r.log|
    decreases Overdue(s, NUM_EVENTS)
  {
    hide Compliant, Overdue, DispatchCycle, Periodic, OnSchedule;
    PeriodicEvent(m, k, p);
    if s.cyc != [] && s.time[s.cyc[0]] <= s.counter {
      HandlersValid(m, horizon);
      DispatchDecreases(m, s, horizon);
      DispatchCycleOnSchedule(m, s, horizon, k, t0, p, n);
      RunCyclesOnSchedule(m, DispatchCycle(m, s), horizon, k, t0, p, n);
    }
  }

  lemma PeriodicEvent(m: Machine, k: nat, p: nat)
    requires Periodic(m, k, p)
    ensures IsEvent(k) && 0 < p
  {
  }

  lemma DispatchTimeOnSchedule(m: Machine, s: Sched, horizon: nat, k: nat, t0: nat, p: nat, n: nat)
    requires Compliant(m, horizon) && Wf(s) && Placed(m, s) && s.tim != []
    requires Periodic(m, k, p) && n <= |s.log| && OnSchedule(s, k, t0, p, n)
    ensures OnSchedule(DispatchTime(m, s), k, t0, p, n)
  {
    hide ApplyAll, PoliteAll, Nth, Wf, Periodic, Touching;
    PeriodicEvent(m, k, p);
    FireTimeFacts(s);
    TimesInRange(s, k);
    assert s.tim[0] in s.tim;
    var r := FireTime(s);
    HandlerIsPeriodic(m, k, p, r.log);
    assert r.log[..|r.log| - 1] == s.log;
    UntouchedBy(m, r, m.handler(r.log), k);
  }

  lemma {:induction false} RunTimeOnSchedule(m: Machine, s: Sched, horizon: nat, k: nat, t0: nat, p: nat, n: nat)
    requires Compliant(m, horizon) && Wf(s) && Placed(m, s) && ClockOk(m, s) && s.counter <= horizon
    requires Periodic(m, k, p) && n <= |s.log| && OnSchedule(s, k, t0, p, n)
    ensures var r := RunTime(m, s, horizon); OnSchedule(r, k, t0, p, n) && n <= |r.log|
    decreases HALF - s.now, DueCount(s, NUM_EVENTS)
  {
    hide Compliant, DueCount, DispatchTime, Periodic, Nth;
    PeriodicEvent(m, k, p);
    if s.tim != [] && Diff(s.time[s.tim[0]], s.now) <= 0 {
      assert s.tim[0] in s.tim;
      HandlersValid(m, horizon);
      DispatchTimeDecreases(m, s, horizon);
      DispatchTimeOnSchedule(m, s, horizon, k, t0, p, n);
      RunTimeOnSchedule(m, DispatchTime(m, s), horizon, k, t0, p, n);
    }
  }

  /** CycInt_AddCycles called with each batch of cycles in turn. */
  ghost function Run(m: Machine, s: Sched, batches: seq<nat>, horizon: nat): (r: Sched)
    requires Compliant(m, horizon) && Wf(s) && Placed(m, s) && ClockOk(m, s) && s.counter + Total(batches) <= horizon
    ensures Wf(r) && Placed(m, r) && ClockOk(m, r) && r.counter == s.counter + Total(batches)
    decreases |batches|
  {
    if batches == [] then s else Run(m, Advance(m, s, batches[0], horizon), batches[1..], horizon)
  }

  function Total(batches: seq<nat>): nat {
    if batches == [] then 0 else batches[0] + Total(batches[1..])
  }

  lemma AdvanceOnSchedule(m: Machine, s: Sched, cycles: nat, horizon: nat, k: nat, t0: nat, p: nat, n: nat)
    requires Compliant(m, horizon) && Wf(s) && Placed(m, s) && ClockOk(m, s) && s.counter + cycles <= horizon
    requires Periodic(m, k, p) && n <= |s.log| && OnSchedule(s, k, t0, p, n)
    ensures var r := Advance(m, s, cycles, horizon); OnSchedule(r, k, t0, p, n) && n <= |r.log|
  {
    hide Compliant, RunCycles, RunTime, Wf, Periodic, Nth;
    HandlersValid(m, horizon);
    PeriodicEvent(m, k, p);
    LaterWf(m, s, cycles);
    TimesInRange(s, k);
    RunCyclesOnSchedule(m, Later(s, cycles), horizon, k, t0, p, n);
    var a := AfterCycles(m, s, cycles, horizon);
    TimesInRange(a, k);
    if a.check <= a.counter {
      ReadClockOk(m, a, horizon);
      RunTimeOnSchedule(m, ReadClock(m, a), horizon, k, t0, p, n);
    }
  }

  lemma {:induction false} RunOnSchedule(m: Machine, s: Sched, batches: seq<nat>, horizon: nat, k: nat, t0: nat, p: nat,
                                         n: nat)
    requires Compliant(m, horizon) && Wf(s) && Placed(m, s) && ClockOk(m, s) && s.counter + Total(batches) <= horizon
    requires Periodic(m, k, p) && n <= |s.log| && OnSchedule(s, k, t0, p, n) && (NoneDue(s) || batches != [])
    ensures var r := Run(m, s, batches, horizon); OnSchedule(r, k, t0, p, n) && NoneDue(r)
    decreases |batches|
  {
    hide Compliant, Advance, AfterCycles, Wf, Periodic, OnSchedule, ClockOk, NoneDue, InOrder;
    PeriodicEvent(m, k, p);
    TimesInRange(s, k);
    if batches != [] {
      var t := Advance(m, s, batches[0], horizon);
      AdvanceOnSchedule(m, s, batches[0], horizon, k, t0, p, n);
      AdvanceSafe(m, s, batches[0], horizon);
      RunOnSchedule(m, t, batches[1..], horizon, k, t0, p, n);
    }
  }

  /** With t0 + (j - 1) p <= c < t0 + j p, j is the number of deadlines that have passed. */
  lemma CountPassed(t0: nat, p: nat, j: nat, c: nat)
    requires 0 < p && c < Nth(t0, p, j) && (0 < j ==> Nth(t0, p, j - 1) <= c)
    ensures j == if c < t0 then 0 else (c - t0) / p + 1
  {
    if 0 < j {
      var d := c - t0;
      assert (j - 1) * p <= d < j * p;
      QuotientIs(d, p, j - 1);
    }
  }

  lemma MulOrder(a: nat, b: nat, p: nat)
    ensures a <= b ==> a * p <= b * p
  {
  }

  lemma QuotientIs(d: nat, p: nat, q: nat)
    requires 0 < p && q * p <= d < (q + 1) * p
    ensures d / p == q
  {
    var e := d / p;
    assert e * p <= d < (e + 1) * p;
    MulOrder(e + 1, q, p);
    MulOrder(q + 1, e, p);
  }

  /** An event first due at t0 whose handler always re-arms it with Update(p) has fired exactly
      (c - t0) / p + 1 times when the counter has reached c >= t0, and not at all before: however
      the cycles came in batches, and whatever the other handlers did. */
  lemma PeriodicCount(m: Machine, s: Sched, batches: seq<nat>, horizon: nat, k: nat, p: nat)
    requires Compliant(m, horizon) && Wf(s) && Placed(m, s) && ClockOk(m, s) && s.counter + Total(batches) <= horizon
    requires Periodic(m, k, p) && k in s.cyc && batches != []
    ensures var r, t0 := Run(m, s, batches, horizon), s.time[k];
            Fires(r.log, k, |s.log|) == if r.counter < t0 then 0 else (r.counter - t0) / p + 1
  {
    hide Compliant, Advance, AfterCycles, Wf, ClockOk, Run, Nth, Periodic;
    PeriodicEvent(m, k, p);
    TimesInRange(s, k);
    var t0, n := s.time[k], |s.log|;
    NthZero(t0, p);
    RunOnSchedule(m, s, batches, horizon, k, t0, p, n);
    var r := Run(m, s, batches, horizon);
    TimesInRange(r, k);
    CountPassed(t0, p, Fires(r.log, k, n), r.counter);
  }

  lemma NthZero(t0: nat, p: nat)
    ensures Nth(t0, p, 0) == t0
  {
  }

  // ----- the assumptions can be met

  /** Two handlers as they are usually written, without asking how the event went off: j re-arms itself
      in microseconds and k in cycles. */
  function Clockwork(realtime: bool, freq: nat, clock: nat -> nat, j: nat, r: nat, k: nat, p: nat): Machine {
    Machine(realtime, freq, clock,
            (log: seq<Firing>) =>
              if log != [] && log[|log| - 1].id == j then [UpdateTime(r, 0, j)]
              else if log != [] && log[|log| - 1].id == k then [UpdateCycles(p, k)]
              else [],
            i => if i == k then {Cycles} else {Cycles, Time})
  }

  lemma OneAction(m: Machine, s: Sched, a: Action, f: Firing)
    requires Wf(s) && IsEvent(a.id) && Polite(m, s, a, f)
    ensures ValidActions([a]) && PoliteAll(m, s, [a], f)
  {
    ApplyMoves(m, s, a);
    assert [a][1..] == [];
  }

  lemma TouchingOne(a: Action, i: nat)
    ensures Touching([a], i) == if a.id == i then [a] else []
  {
    assert [a][1..] == [];
  }

  lemma ClockworkPolite(m: Machine, s: Sched, j: nat, r: nat, k: nat, p: nat, horizon: nat)
    requires m == Clockwork(m.realtime, m.freq, m.clock, j, r, k, p) && JustFired(m, s) && s.counter <= horizon
    requires IsEvent(j) && IsEvent(k) && j != k && 0 < p && horizon + p <= MAX && (m.realtime ==> horizon < HALF)
    requires 0 < r && 0 < r * m.freq && horizon + r * m.freq <= MAX
    requires forall n: nat :: m.clock(n) + r < HALF
    ensures ValidActions(m.handler(s.log)) && PoliteAll(m, s, m.handler(s.log), Last(s))
  {
    hide PoliteAll, Wf;
    var f := Last(s);
    TimesInRange(s, f.id);
    if f.id == j {
      OneAction(m, s, UpdateTime(r, 0, j), f);
    } else if f.id == k {
      OneAction(m, s, UpdateCycles(p, k), f);
    } else {
      NoAction(m, s, f);
    }
  }

  lemma NoAction(m: Machine, s: Sched, f: Firing)
    requires Wf(s)
    ensures ValidActions([]) && PoliteAll(m, s, [], f)
  {
  }

  lemma ClockworkPeriodic(m: Machine, j: nat, r: nat, k: nat, p: nat)
    requires m == Clockwork(m.realtime, m.freq, m.clock, j, r, k, p)
    requires IsEvent(j) && IsEvent(k) && j != k && 0 < p && 0 < r * m.freq <= MAX
    ensures Periodic(m, k, p) && (!m.realtime ==> Periodic(m, j, r * m.freq))
  {
    hide Touching;
    TouchingOne(UpdateTime(r, 0, j), j); TouchingOne(UpdateTime(r, 0, j), k);
    TouchingOne(UpdateCycles(p, k), j); TouchingOne(UpdateCycles(p, k), k);
    TouchingNone(j); TouchingNone(k);
  }

  lemma TouchingNone(i: nat)
    ensures Touching([], i) == []
  {
  }

  /** These handlers are compliant in both modes; k is periodic, and without real time so is j. */
  lemma ClockworkComplies(realtime: bool, freq: nat, clock: nat -> nat, j: nat, r: nat, k: nat, p: nat, horizon: nat)
    requires IsEvent(j) && IsEvent(k) && j != k && 0 < p && horizon + p <= MAX && (realtime ==> horizon < HALF)
    requires 0 < r && 0 < r * freq && horizon + r * freq <= MAX
    requires forall n: nat :: clock(n) <= clock(n + 1) && clock(n) + r < HALF
    ensures var m := Clockwork(realtime, freq, clock, j, r, k, p);
            Compliant(m, horizon) && Periodic(m, k, p) && (!realtime ==> Periodic(m, j, r * freq))
  {
    hide PoliteAll, Periodic, Wf;
    var m := Clockwork(realtime, freq, clock, j, r, k, p);
    forall s | JustFired(m, s) && s.counter <= horizon
      ensures PoliteAll(m, s, m.handler(s.log), Last(s))
    {
      ClockworkPolite(m, s, j, r, k, p, horizon);
    }
    ClockworkPeriodic(m, j, r, k, p);
  }
}
