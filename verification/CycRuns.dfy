/** Whole runs of the scheduler of cycInt.c: any sequence of resets, calls and dispatches. */
module CycRuns {
  import opened Schedule
  import opened Dispatch
  import opened DispatchTheorems
  import opened CycInt

  datatype Op =
    | Clear                  // CycInt_Reset
    | Call(action: Action)   // an add, update or remove from outside the handlers
    | Elapse(cycles: nat)    // CycInt_AddCycles
    | Count(cycles: nat)     // the parts of CycInt_AddCycles, with any handlers
    | FireCycle
    | LookAtClock
    | FireTime

  /** A whole dispatch is only started where it is known to end; its parts need only handlers that
      name events.  An event is fired when the loops of CycInt_AddCycles would fire it. */
  ghost predicate Enabled(m: Machine, s: Sched, op: Op, horizon: nat)
    requires Wf(s)
  {
    match op
    case Clear => true
    case Call(a) => IsEvent(a.id)
    case Elapse(c) => Compliant(m, horizon) && Placed(m, s) && ClockOk(m, s) && s.counter + c <= horizon
    case Count(c) => s.counter + c <= MAX
    case FireCycle => s.cyc != [] && s.time[s.cyc[0]] <= s.counter && forall log :: ValidActions(m.handler(log))
    case LookAtClock => true
    case FireTime => s.tim != [] && forall log :: ValidActions(m.handler(log))
  }

  ghost function Perform(m: Machine, s: Sched, op: Op, horizon: nat): (r: Sched)
    requires Wf(s) && Enabled(m, s, op, horizon)
    ensures Wf(r)
  {
    match op
    case Clear => Sched(0, if m.realtime then 0 else MAX, 0, [], [], seq(NUM_EVENTS, i => MAX), s.ticks, s.log)
    case Call(a) => ApplyMoves(m, s, a); Apply(m, s, a)
    case Elapse(c) => Advance(m, s, c, horizon)
    case Count(c) => LaterWf(m, s, c); Later(s, c)
    case FireCycle => DispatchCycle(m, s)
    case LookAtClock => ReadClock(m, s)
    case FireTime => DispatchTime(m, s)
  }

  /** After a reset, whole dispatches can be started. */
  lemma FreshStart(m: Machine, s: Sched, horizon: nat, cycles: nat)
    requires Wf(s) && Compliant(m, horizon) && cycles <= horizon
    ensures var r := Perform(m, s, Clear, horizon); r.counter == 0 && Enabled(m, r, Elapse(cycles), horizon)
  {
    hide PoliteAll;
    assert m.clock(s.ticks) <= m.clock(s.ticks + 1);
  }

  ghost predicate AllEnabled(m: Machine, s: Sched, ops: seq<Op>, horizon: nat)
    requires Wf(s)
    decreases |ops|
  {
    ops == [] || (Enabled(m, s, ops[0], horizon) && AllEnabled(m, Perform(m, s, ops[0], horizon), ops[1..], horizon))
  }

  /** The abstract scheduler after a run; its queues are sorted, duplicate-free and disjoint. */
  ghost function Outcome(m: Machine, s: Sched, ops: seq<Op>, horizon: nat): (r: Sched)
    requires Wf(s) && AllEnabled(m, s, ops, horizon)
    ensures Wf(r)
    decreases |ops|
  {
    if ops == [] then s else Outcome(m, Perform(m, s, ops[0], horizon), ops[1..], horizon)
  }

  /** Every run of the linked scheduler ends in a state that spells out the abstract outcome. */
  method Run(sch: Scheduler, ops: seq<Op>, ghost horizon: nat)
    requires sch.Valid() && AllEnabled(sch.machine, sch.Abs(), ops, horizon)
    modifies sch, sch.events
    ensures sch.Valid() && sch.Abs() == Outcome(sch.machine, old(sch.Abs()), ops, horizon)
  {
    hide Wf, Represents, Apply, Advance, Compliant, ClockOk, Placed, DispatchCycle, DispatchTime;
    ghost var s, m := sch.Abs(), sch.machine;
    assert ops[0..] == ops;
    for k := 0 to |ops|
      invariant sch.Valid() && AllEnabled(m, sch.Abs(), ops[k..], horizon)
      invariant Outcome(m, sch.Abs(), ops[k..], horizon) == Outcome(m, s, ops, horizon)
    {
      assert ops[k..][0] == ops[k] && ops[k..][1..] == ops[k + 1..];
      match ops[k] {
        case Clear => sch.Reset();
        case Call(a) => sch.Perform(a);
        case Elapse(c) => sch.AddCycles(c, horizon);
        case Count(c) => sch.CountCycles(c);
        case FireCycle =>
          sch.Deadlines();
          assert sch.cyc[0] in sch.cyc;
          sch.FireNextCycle();
        case LookAtClock => sch.ReadHostClock();
        case FireTime => sch.FireNextTime();
      }
    }
  }
}
