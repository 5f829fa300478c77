/** Setting an event with the calls of cycInt.c and letting time pass: when it fires. */
module AlarmRuns {
  import opened Schedule
  import opened Dispatch
  import opened DispatchTheorems
  import opened CycInt
  import opened Alarms

  /** What whole dispatches need. */
  ghost predicate Starting(sch: Scheduler, total: nat, horizon: nat)
    reads sch, sch.events
  {
    && sch.Valid() && Compliant(sch.machine, horizon) && Placed(sch.machine, sch.Abs())
    && ClockOk(sch.machine, sch.Abs())
    && sch.counter + total <= horizon
  }

  /** CycInt_AddCycles for each batch in turn. */
  method Pass(sch: Scheduler, batches: seq<nat>, ghost horizon: nat)
    requires Starting(sch, Total(batches), horizon)
    modifies sch, sch.events
    ensures Starting(sch, 0, horizon) && Wf(old(sch.Abs())) && sch.counter == old(sch.counter) + Total(batches)
    ensures sch.Abs() == Run(sch.machine, old(sch.Abs()), batches, horizon)
  {
    hide Wf, Represents, Advance, Compliant, ClockOk, Placed;
    ghost var s, m := sch.Abs(), sch.machine;
    assert batches[0..] == batches;
    for k := 0 to |batches|
      invariant Starting(sch, Total(batches[k..]), horizon)
                && sch.counter + Total(batches[k..]) == old(sch.counter) + Total(batches)
      invariant Run(m, sch.Abs(), batches[k..], horizon) == Run(m, s, batches, horizon)
    {
      assert batches[k..][0] == batches[k] && batches[k..][1..] == batches[k + 1..];
      sch.AddCycles(batches[k], horizon);
    }
  }

  /** CycInt_AddCyclesEvent at counter c: the event fires once, at c + cycles. */
  method SetByCycles(sch: Scheduler, cycles: nat, k: nat, batches: seq<nat>, ghost horizon: nat)
    requires Starting(sch, Total(batches), horizon) && LeftAlone(sch.machine, k) && May(sch.machine, k, Cycles)
    modifies sch, sch.events
    ensures sch.Valid() && k < NUM_EVENTS && |sch.Abs().time| == NUM_EVENTS
    ensures var due, n := (old(sch.counter) + cycles) % WORD, |old(sch.Abs().log)|;
            if batches != [] && due <= old(sch.counter) + Total(batches) then Done(sch.Abs(), k, Cycles, due, n)
            else Awaits(sch.Abs(), k, Cycles, due, n)
  {
    hide Wf, Represents, Compliant, ClockOk, Placed, Apply, Done, Awaits, LeftAlone, Run;
    IsLeftAlone(sch.machine, k);
    AddedFires(sch.machine, sch.Abs(), Action.AddCycles(cycles, k), batches, horizon);
    sch.AddCyclesEvent(cycles, k);
    Pass(sch, batches, horizon);
  }

  /** CycInt_AddCycleTimeEvent, likewise, with microseconds; realtime mode prefers the short delay. */
  method SetByCycleTime(sch: Scheduler, usual: nat, fast: nat, k: nat, batches: seq<nat>, ghost horizon: nat)
    requires Starting(sch, Total(batches), horizon) && LeftAlone(sch.machine, k) && May(sch.machine, k, Cycles)
    modifies sch, sch.events
    ensures sch.Valid() && k < NUM_EVENTS && |sch.Abs().time| == NUM_EVENTS
    ensures var delay := if sch.machine.realtime && fast != 0 then fast else usual;
            var due, n := (old(sch.counter) + delay * sch.machine.freq) % WORD, |old(sch.Abs().log)|;
            if batches != [] && due <= old(sch.counter) + Total(batches) then Done(sch.Abs(), k, Cycles, due, n)
            else Awaits(sch.Abs(), k, Cycles, due, n)
  {
    hide Wf, Represents, Compliant, ClockOk, Placed, Apply, Done, Awaits, LeftAlone, Run;
    IsLeftAlone(sch.machine, k);
    ghost var delay := if sch.machine.realtime && fast != 0 then fast else usual;
    Wrapped(sch.counter, delay * sch.machine.freq);
    AddedFires(sch.machine, sch.Abs(), Action.AddCycles(Scaled(sch.machine, delay), k), batches, horizon);
    sch.AddCycleTimeEvent(usual, fast, k);
    Pass(sch, batches, horizon);
  }

  /** CycInt_AddTimeEvent without real time: the event fires once, after so many microseconds' worth of
      cycles. */
  method SetByTime(sch: Scheduler, usual: nat, fast: nat, k: nat, batches: seq<nat>, ghost horizon: nat)
    requires Starting(sch, Total(batches), horizon) && LeftAlone(sch.machine, k) && !sch.machine.realtime
    modifies sch, sch.events
    ensures sch.Valid() && k < NUM_EVENTS && |sch.Abs().time| == NUM_EVENTS
    ensures var due, n := (old(sch.counter) + usual * sch.machine.freq) % WORD, |old(sch.Abs().log)|;
            if batches != [] && due <= old(sch.counter) + Total(batches) then Done(sch.Abs(), k, Cycles, due, n)
            else Awaits(sch.Abs(), k, Cycles, due, n)
  {
    hide Wf, Represents, Compliant, ClockOk, Placed, Apply, Done, Awaits, LeftAlone, Run;
    IsLeftAlone(sch.machine, k);
    AddedFires(sch.machine, sch.Abs(), AddTime(usual, fast, k), batches, horizon);
    sch.AddTimeEvent(usual, fast, k);
    Pass(sch, batches, horizon);
  }

  /** CycInt_AddTimeEvent in real time: the event fires at most once, at its time on the host clock and not
      before. */
  method SetByClock(sch: Scheduler, usual: nat, fast: nat, k: nat, batches: seq<nat>, ghost horizon: nat)
    requires Starting(sch, Total(batches), horizon) && CheckSoon(sch.machine, sch.Abs())
    requires LeftAlone(sch.machine, k) && sch.machine.realtime && May(sch.machine, k, Time)
    requires sch.machine.clock(sch.ticks) + (if fast == 0 then usual else fast) < HALF
    modifies sch, sch.events
    ensures Starting(sch, 0, horizon) && CheckSoon(sch.machine, sch.Abs()) && k < NUM_EVENTS
            && |sch.Abs().time| == NUM_EVENTS
    ensures sch.counter == old(sch.counter) + Total(batches)
    ensures var due := sch.machine.clock(old(sch.ticks)) + if fast == 0 then usual else fast;
            Tracked(sch.Abs(), k, Time, due, |old(sch.Abs().log)|)
  {
    hide Wf, Represents, Compliant, ClockOk, Placed, Apply, Tracked, CheckSoon, LeftAlone, Run;
    ghost var m, s, a := sch.machine, sch.Abs(), AddTime(usual, fast, k);
    IsLeftAlone(m, k);
    ClockGood(m, horizon);
    TimeArmed(m, s, usual, fast, k);
    ghost var due := m.clock(s.ticks) + if fast == 0 then usual else fast;
    Starts(Apply(m, s, a), k, due);
    RunTracks(m, Apply(m, s, a), batches, horizon, k, Time, due, |s.log|);
    RunCheck(m, Apply(m, s, a), batches, horizon);
    sch.AddTimeEvent(usual, fast, k);
    Pass(sch, batches, horizon);
  }

  /** Once the host clock has passed its time, it fires within CHECK_INTERVAL microseconds' worth of cycles. */
  method LetItFire(sch: Scheduler, k: nat, batches: seq<nat>, ghost due: nat, ghost n: nat, ghost horizon: nat)
    requires Starting(sch, Total(batches), horizon) && CheckSoon(sch.machine, sch.Abs()) && LeftAlone(sch.machine, k)
    requires |sch.Abs().time| == NUM_EVENTS && k < NUM_EVENTS && Tracked(sch.Abs(), k, Time, due, n)
    requires due <= sch.machine.clock(sch.ticks) && batches != [] && CHECK_INTERVAL * sch.machine.freq <= Total(batches)
    modifies sch, sch.events
    ensures Starting(sch, 0, horizon) && Done(sch.Abs(), k, Time, due, n)
  {
    hide Wf, Represents, Compliant, ClockOk, Placed, Tracked, Done, CheckSoon, LeftAlone, Run;
    TrackedTwice(sch.machine, sch.Abs(), [], batches, horizon, k, due, n);
    RunNothing(sch.machine, sch.Abs(), horizon);
    Pass(sch, batches, horizon);
  }
}
