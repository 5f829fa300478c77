/** Dispatching: CycInt_AddCycles fires what is due and lets each handler re-enter the scheduler.
    With handlers that re-arm only into the future the loops end, nothing fires early, nothing due
    stays behind, and deadlines are served in order.
 */
module Dispatch {
  import opened Schedule

  predicate ValidActions(acts: seq<Action>) {
    forall k :: 0 <= k < |acts| ==> IsEvent(acts[k].id)
  }

  function ApplyAll(m: Machine, s: Sched, acts: seq<Action>): (r: Sched)
    requires Wf(s) && ValidActions(acts)
    ensures Wf(r) && r.counter == s.counter && r.log == s.log
    decreases |acts|
  {
    if acts == [] then s else
      ApplyMoves(m, s, acts[0]);
      ApplyAll(m, Apply(m, s, acts[0]), acts[1..])
  }

  function Last(s: Sched): Firing
    requires s.log != []
  {
    s.log[|s.log| - 1]
  }

  /** The head of the cycle list leaves it and is logged with its deadline. */
  function FireCycle(s: Sched): (r: Sched)
    requires Wf(s) && s.cyc != []
  {
    var i := s.cyc[0];
    s.(cyc := s.cyc[1..], log := s.log + [Firing(i, s.time[i], Cycles)])
  }

  function FireTime(s: Sched): (r: Sched)
    requires Wf(s) && s.tim != []
  {
    var i := s.tim[0];
    s.(tim := s.tim[1..], log := s.log + [Firing(i, s.time[i], Time)])
  }

  // ----- handlers that re-arm into the future

  /** Whether event i is used in this list.  Without real time every event is a cycle event. */
  predicate May(m: Machine, i: nat, kind: Kind) {
    if m.realtime then kind in m.kinds(i) else kind == Cycles
  }

  /** Every pending event is in a list it is used in. */
  ghost predicate Placed(m: Machine, s: Sched) {
    (forall i :: i in s.cyc ==> May(m, i, Cycles)) && (forall i :: i in s.tim ==> May(m, i, Time))
  }

  /** Delays are positive and deadlines do not overflow; events go where they are used; UpdateCycles
      is used on the handler's own event only, where it extends the deadline that has just passed. */
  ghost predicate Polite(m: Machine, s: Sched, a: Action, f: Firing)
    requires Wf(s) && IsEvent(a.id)
  {
    match a
    case AddCycles(d, i) => May(m, i, Cycles) && 0 < d && s.counter + d <= MAX
    case UpdateCycles(d, i) => May(m, i, Cycles) && Extends(s, i, d, f)
    case AddTime(usual, fast, i) =>
      if m.realtime then May(m, i, Time) && 0 < Chosen(usual, fast) && m.clock(s.ticks) + Chosen(usual, fast) < HALF
      else 0 < Scaled(m, usual) && s.counter + Scaled(m, usual) <= MAX
    case UpdateTime(usual, fast, i) =>
      if m.realtime
      then May(m, i, Time) && 0 < Chosen(usual, fast) && m.clock(s.ticks) + Chosen(usual, fast) < HALF
           && s.time[i] < HALF
      else Extends(s, i, Scaled(m, usual), f)
    case Remove(_) => true
  }

  predicate Extends(s: Sched, i: nat, d: nat, f: Firing)
    requires Wf(s) && IsEvent(i)
  {
    f.kind == Cycles && i == f.id && f.due <= s.time[i] && 0 < d && s.time[i] + d <= MAX
  }

  ghost predicate PoliteAll(m: Machine, s: Sched, acts: seq<Action>, f: Firing)
    requires Wf(s) && ValidActions(acts)
    decreases |acts|
  {
    acts == [] ||
    (Polite(m, s, acts[0], f) && (ApplyMoves(m, s, acts[0]); PoliteAll(m, Apply(m, s, acts[0]), acts[1..], f)))
  }

  /** The state a handler starts in: its event went off in a list it is used in.  Deadlines of time
      events are readings of the host clock, which stays in the lower half of its range. */
  ghost predicate JustFired(m: Machine, s: Sched) {
    && Wf(s) && s.log != []
    && var f := Last(s);
       && IsEvent(f.id) && May(m, f.id, f.kind) && f.id !in s.cyc && f.id !in s.tim && s.time[f.id] == f.due
       && ((f.kind == Cycles && f.due <= s.counter) || (f.kind == Time && f.due < HALF))
  }

  /** Every handler is polite whenever its event has gone off before the horizon in a list it is used
      in, and the host clock never runs backwards. */
  ghost predicate Compliant(m: Machine, horizon: nat) {
    && horizon < MAX
    && (forall n: nat :: m.clock(n) <= m.clock(n + 1) && m.clock(n) < HALF)
    && (forall log :: ValidActions(m.handler(log)))
    && (forall s :: JustFired(m, s) && s.counter <= horizon ==> PoliteAll(m, s, m.handler(s.log), Last(s)))
  }

  // ----- total overdue time

  function Term(s: Sched, i: nat): nat
    requires |s.time| == NUM_EVENTS && i < NUM_EVENTS
  {
    if i in s.cyc && s.time[i] <= s.counter then s.counter - s.time[i] + 1 else 0
  }

  /** How long the pending cycle events below n are overdue, each counted from its deadline. */
  function Overdue(s: Sched, n: nat): nat
    requires |s.time| == NUM_EVENTS && n <= NUM_EVENTS
  {
    if n == 0 then 0 else Overdue(s, n - 1) + Term(s, n - 1)
  }

  lemma {:induction false} OverdueDecreases(s: Sched, t: Sched, k: nat, n: nat)
    requires |s.time| == |t.time| == NUM_EVENTS && n <= NUM_EVENTS && k < NUM_EVENTS
    requires forall i :: 0 <= i < NUM_EVENTS && i != k ==> Term(t, i) <= Term(s, i)
    requires Term(t, k) < Term(s, k)
    ensures Overdue(t, n) <= Overdue(s, n)
    ensures k < n ==> Overdue(t, n) < Overdue(s, n)
  {
    if n > 0 {
      OverdueDecreases(s, t, k, n - 1);
    }
  }

  /** The fired event, if it is pending again, has a later deadline. */
  ghost predicate OwnLater(s: Sched, f: Firing)
    requires |s.time| == NUM_EVENTS && IsEvent(f.id)
  {
    f.id in s.cyc ==> f.due < s.time[f.id]
  }

  /** Where a polite call can leave its event: off the cycle list, in the future, or - for the
      handler's own event - later than the deadline that has just passed. */
  lemma PoliteArms(m: Machine, s: Sched, a: Action, f: Firing)
    requires Wf(s) && IsEvent(a.id) && IsEvent(f.id) && Polite(m, s, a, f)
    ensures var t := Apply(m, s, a);
            && |t.time| == NUM_EVENTS
            && (a.id !in t.cyc || s.counter < t.time[a.id]
                || (f.kind == Cycles && a.id == f.id && f.due < t.time[a.id]))
  {
    hide ArmCycles, ArmTime, Disarm, Wf;
    ApplyMoves(m, s, a);
    TimesInRange(s, a.id); TimesInRange(Apply(m, s, a), a.id);
    if m.realtime && (a.AddTime? || a.UpdateTime?) {
      RealtimeArms(m, s, a);
    } else {
      match a
      case AddCycles(d, i) => ArmFacts(s, i, s.counter + d);
      case UpdateCycles(d, i) => ArmFacts(s, i, s.time[i] + d);
      case AddTime(usual, fast, i) => ArmFacts(s, i, s.counter + Scaled(m, usual));
      case UpdateTime(usual, fast, i) => ArmFacts(s, i, s.time[i] + Scaled(m, usual));
      case Remove(i) => DisarmFacts(s, i);
    }
  }

  /** A polite call makes no other event more overdue, and a time handler none at all. */
  lemma PoliteStep(m: Machine, s: Sched, a: Action, f: Firing)
    requires Wf(s) && IsEvent(a.id) && IsEvent(f.id) && Polite(m, s, a, f)
    requires f.kind == Cycles ==> f.due <= s.counter && OwnLater(s, f)
    ensures var t := Apply(m, s, a);
            && Wf(t)
            && (forall i :: 0 <= i < NUM_EVENTS && (i != f.id || f.kind == Time) ==> Term(t, i) <= Term(s, i))
            && (f.kind == Cycles ==> OwnLater(t, f))
  {
    hide Apply, Polite, Wf;
    ApplyMoves(m, s, a);
    PoliteArms(m, s, a, f);
  }

  /** In realtime mode the microsecond calls put their event on the time list. */
  lemma RealtimeArms(m: Machine, s: Sched, a: Action)
    requires Wf(s) && IsEvent(a.id) && m.realtime && (a.AddTime? || a.UpdateTime?)
    ensures var t := Apply(m, s, a); a.id in t.tim && a.id !in t.cyc && t.ticks == s.ticks + 1
    ensures var t := Apply(m, s, a); |t.time| == NUM_EVENTS
    ensures a.AddTime? ==> var t := Apply(m, s, a);
    t.now == s.now && t.time[a.id] == (m.clock(s.ticks) + Chosen(a.usual, a.fast)) % WORD
    ensures a.UpdateTime? ==> var t := Apply(m, s, a); t.now == m.clock(s.ticks) % WORD
  {
    hide ArmCycles, ArmTime, Disarm, Wf;
    ApplyMoves(m, s, a);
    TimesInRange(s, a.id); TimesInRange(Apply(m, s, a), a.id);
    Bookkeeping(s, s.check, s.now, s.ticks + 1);
    var r, now := Chosen(a.usual, a.fast), m.clock(s.ticks) % WORD;
    Bookkeeping(s, s.check, now, s.ticks + 1);
    ArmFacts(s.(ticks := s.ticks + 1), a.id, m.clock(s.ticks) + r);
    var base := if Minus(now, s.time[a.id]) > r / 2 then now else s.time[a.id];
    ArmFacts(s.(ticks := s.ticks + 1, now := now), a.id, base + r);
  }

  /** A polite call puts its event in a list it is used in. */
  lemma PlacedStep(m: Machine, s: Sched, a: Action, f: Firing)
    requires Wf(s) && IsEvent(a.id) && Polite(m, s, a, f) && Placed(m, s)
    ensures Wf(Apply(m, s, a)) && Placed(m, Apply(m, s, a))
  {
    hide Apply, Wf, Extends;
    ApplyMoves(m, s, a);
    if m.realtime && (a.AddTime? || a.UpdateTime?) {
      RealtimeArms(m, s, a);
    } else {
      UnclockedArms(m, s, a);
    }
  }

  lemma {:induction false} PlacedSteps(m: Machine, s: Sched, acts: seq<Action>, f: Firing)
    requires Wf(s) && ValidActions(acts) && PoliteAll(m, s, acts, f) && Placed(m, s)
    ensures Placed(m, ApplyAll(m, s, acts))
    decreases |acts|
  {
    hide Apply, Polite, Placed;
    if acts != [] {
      PlacedStep(m, s, acts[0], f);
      PlacedSteps(m, Apply(m, s, acts[0]), acts[1..], f);
    }
  }

  lemma {:induction false} PoliteAllSteps(m: Machine, s: Sched, acts: seq<Action>, f: Firing)
    requires Wf(s) && ValidActions(acts) && IsEvent(f.id) && PoliteAll(m, s, acts, f)
    requires f.kind == Cycles ==> f.due <= s.counter && OwnLater(s, f)
    ensures var t := ApplyAll(m, s, acts);
            && (forall i :: 0 <= i < NUM_EVENTS && (i != f.id || f.kind == Time) ==> Term(t, i) <= Term(s, i))
            && (f.kind == Cycles ==> OwnLater(t, f))
    decreases |acts|
  {
    hide Apply, Polite, Term;
    if acts != [] {
      ApplyMoves(m, s, acts[0]);
      PoliteStep(m, s, acts[0], f);
      PoliteAllSteps(m, Apply(m, s, acts[0]), acts[1..], f);
    }
  }

  // ----- one dispatch

  lemma FireCycleFacts(s: Sched)
    requires Wf(s) && s.cyc != [] && s.time[s.cyc[0]] <= s.counter
    ensures var r := FireCycle(s);
            && Wf(r) && (forall m :: Placed(m, s) ==> JustFired(m, r) && Placed(m, r)) && Last(r).kind == Cycles
            && IsEvent(s.cyc[0])
            && (forall j :: j in r.cyc <==> j in s.cyc && j != s.cyc[0])
  {
    var i, r := s.cyc[0], FireCycle(s);
    assert i in s.cyc;
    assert forall j :: j in s.cyc <==> j == i || j in s.cyc[1..];
    assert forall a, b :: 0 <= a < b < |r.cyc| ==> r.cyc[a] == s.cyc[a + 1] && r.cyc[b] == s.cyc[b + 1];
    assert forall a :: 0 <= a < |r.cyc| ==> r.cyc[a] == s.cyc[a + 1];
  }

  lemma FireTimeFacts(s: Sched)
    requires Wf(s) && s.tim != []
    ensures var r := FireTime(s);
            && Wf(r) && Last(r).kind == Time && Last(r).id == s.tim[0] && IsEvent(s.tim[0]) && s.tim[0] !in r.cyc
            && s.tim[0] !in r.tim
            && (forall m :: Placed(m, s) ==> Placed(m, r) && (s.time[s.tim[0]] < HALF ==> JustFired(m, r)))
            && (forall j :: j in r.tim <==> j in s.tim && j != s.tim[0])
  {
    var i, r := s.tim[0], FireTime(s);
    assert i in s.tim;
    assert forall j :: j in s.tim <==> j == i || j in s.tim[1..];
    assert forall a, b :: 0 <= a < b < |r.tim| ==> r.tim[a] == s.tim[a + 1] && r.tim[b] == s.tim[b + 1];
    assert forall a :: 0 <= a < |r.tim| ==> r.tim[a] == s.tim[a + 1];
  }

  /** Pop the head of the cycle list and run its handler. */
  ghost function DispatchCycle(m: Machine, s: Sched): (r: Sched)
    requires Wf(s) && s.cyc != [] && s.time[s.cyc[0]] <= s.counter && forall log :: ValidActions(m.handler(log))
    ensures Wf(r) && r.counter == s.counter && r.log == FireCycle(s).log
  {
    FireCycleFacts(s);
    ApplyAll(m, FireCycle(s), m.handler(FireCycle(s).log))
  }

  ghost function DispatchTime(m: Machine, s: Sched): (r: Sched)
    requires Wf(s) && s.tim != [] && forall log :: ValidActions(m.handler(log))
    ensures Wf(r) && r.counter == s.counter && r.log == FireTime(s).log
  {
    FireTimeFacts(s);
    ApplyAll(m, FireTime(s), m.handler(FireTime(s).log))
  }

  /** The measure of the cycle loop. */
  lemma DispatchDecreases(m: Machine, s: Sched, horizon: nat)
    requires Compliant(m, horizon) && Wf(s) && Placed(m, s) && s.counter <= horizon && s.cyc != []
             && s.time[s.cyc[0]] <= s.counter
    ensures Overdue(DispatchCycle(m, s), NUM_EVENTS) < Overdue(s, NUM_EVENTS) && Placed(m, DispatchCycle(m, s))
    ensures OwnLater(DispatchCycle(m, s), Last(FireCycle(s)))
    ensures forall i :: 0 <= i < NUM_EVENTS && i != s.cyc[0] ==> Term(DispatchCycle(m, s), i) <= Term(s, i)
  {
    hide Apply, Polite, PoliteAll, ApplyAll;
    FireCycleFacts(s);
    var r := FireCycle(s);
    var f := Last(r);
    assert s.cyc[0] in s.cyc;
    PoliteAllSteps(m, r, m.handler(r.log), f);
    PlacedSteps(m, r, m.handler(r.log), f);
    OverdueDecreases(s, DispatchCycle(m, s), f.id, NUM_EVENTS);
  }

  /** The first loop of CycInt_AddCycles. */
  ghost function RunCycles(m: Machine, s: Sched, horizon: nat): (r: Sched)
    requires Compliant(m, horizon) && Wf(s) && Placed(m, s) && s.counter <= horizon
    ensures Wf(r) && Placed(m, r) && r.counter == s.counter
    decreases Overdue(s, NUM_EVENTS)
  {
    if s.cyc == [] || s.time[s.cyc[0]] > s.counter then s else
      DispatchDecreases(m, s, horizon);
      RunCycles(m, DispatchCycle(m, s), horizon)
  }

  // ----- the time loop

  /** a - b as the source's signed 64-bit difference. */
  function Diff(a: nat, b: nat): int
    requires a < WORD && b < WORD
  {
    var u := Minus(a, b);
    if u < HALF then u else u - WORD
  }

  /** The deadlines of time events and the last clock reading are genuine clock values. */
  ghost predicate ClockOk(m: Machine, s: Sched)
    requires |s.time| == NUM_EVENTS
  {
    && s.now < HALF && s.now <= m.clock(s.ticks)
    && forall i :: i in s.tim && i < NUM_EVENTS ==> s.time[i] < HALF
  }

  function DueTerm(s: Sched, i: nat): nat
    requires |s.time| == NUM_EVENTS && i < NUM_EVENTS
  {
    if i in s.tim && s.time[i] <= s.now then 1 else 0
  }

  /** How many time events below n are due. */
  function DueCount(s: Sched, n: nat): nat
    requires |s.time| == NUM_EVENTS && n <= NUM_EVENTS
  {
    if n == 0 then 0 else DueCount(s, n - 1) + DueTerm(s, n - 1)
  }

  lemma {:induction false} DueDecreases(s: Sched, t: Sched, k: nat, n: nat)
    requires |s.time| == |t.time| == NUM_EVENTS && n <= NUM_EVENTS && k < NUM_EVENTS
    requires forall i :: 0 <= i < NUM_EVENTS ==> DueTerm(t, i) <= DueTerm(s, i)
    requires DueTerm(t, k) < DueTerm(s, k)
    ensures DueCount(t, n) <= DueCount(s, n)
    ensures k < n ==> DueCount(t, n) < DueCount(s, n)
  {
    if n > 0 {
      DueDecreases(s, t, k, n - 1);
    }
  }

  /** Calls that do not involve the host clock take their event off the time list. */
  lemma UnclockedArms(m: Machine, s: Sched, a: Action)
    requires Wf(s) && IsEvent(a.id) && !(m.realtime && (a.AddTime? || a.UpdateTime?))
    ensures var t := Apply(m, s, a);
            a.id !in t.tim && (a.Remove? ==> a.id !in t.cyc) && t.now == s.now && t.ticks == s.ticks
  {
    hide ArmCycles, ArmTime, Disarm, Wf;
    TimesInRange(s, a.id);
    match a
    case AddCycles(d, i) => ArmFacts(s, i, s.counter + d);
    case UpdateCycles(d, i) => ArmFacts(s, i, s.time[i] + d);
    case AddTime(usual, fast, i) => ArmFacts(s, i, s.counter + Scaled(m, usual));
    case UpdateTime(usual, fast, i) => ArmFacts(s, i, s.time[i] + Scaled(m, usual));
    case Remove(i) => DisarmFacts(s, i); DisarmKeepsClock(s, i);
  }

  lemma DisarmKeepsClock(s: Sched, i: nat)
    ensures Disarm(s, i).now == s.now && Disarm(s, i).ticks == s.ticks
  {
  }

  /** A polite call never turns the clock back, and while the clock stands still it makes no time
      event due. */
  lemma ClockStep(m: Machine, s: Sched, a: Action, f: Firing)
    requires Wf(s) && IsEvent(a.id) && Polite(m, s, a, f) && ClockOk(m, s)
    requires forall n: nat :: m.clock(n) <= m.clock(n + 1) && m.clock(n) < HALF
    ensures var t := Apply(m, s, a);
            && Wf(t) && ClockOk(m, t) && s.now <= t.now
            && (s.now == t.now ==> forall i :: 0 <= i < NUM_EVENTS ==> DueTerm(t, i) <= DueTerm(s, i))
  {
    hide Apply, Wf;
    ApplyMoves(m, s, a);
    var t := Apply(m, s, a);
    TimesInRange(s, a.id); TimesInRange(t, a.id);
    assert m.clock(s.ticks) <= m.clock(s.ticks + 1);
    if m.realtime && (a.AddTime? || a.UpdateTime?) {
      RealtimeArms(m, s, a);
      if a.UpdateTime? {
        RealtimeUpdate(m, s, a);
      }
    } else {
      UnclockedArms(m, s, a);
    }
  }

  /** A realtime Update lands after the clock reading it takes. */
  lemma RealtimeUpdate(m: Machine, s: Sched, a: Action)
    requires Wf(s) && IsEvent(a.id) && m.realtime && a.UpdateTime?
    requires 0 < Chosen(a.usual, a.fast) && m.clock(s.ticks) + Chosen(a.usual, a.fast) < HALF && s.time[a.id] < HALF
    ensures var t := Apply(m, s, a); |t.time| == NUM_EVENTS && m.clock(s.ticks) < t.time[a.id] < HALF
  {
    hide ArmCycles, ArmTime, Disarm, Wf, Minus, Chosen;
    ApplyMoves(m, s, a);
    TimesInRange(s, a.id); TimesInRange(Apply(m, s, a), a.id);
    var r, now := Chosen(a.usual, a.fast), m.clock(s.ticks);
    assert now % WORD == now;
    Bookkeeping(s, s.check, now, s.ticks + 1);
    Rebased(now, s.time[a.id], r);
    var base := if Minus(now, s.time[a.id]) > r / 2 then now else s.time[a.id];
    ArmFacts(s.(ticks := s.ticks + 1, now := now), a.id, base + r);
  }

  lemma Rebased(now: nat, t: nat, r: nat)
    requires 0 < r && now + r < HALF && t < HALF
    ensures var base := if Minus(now, t) > r / 2 then now else t; now < base + r < HALF && (base + r) % WORD == base + r
  {
  }

  lemma {:induction false} ClockSteps(m: Machine, s: Sched, acts: seq<Action>, f: Firing)
    requires Wf(s) && ValidActions(acts) && PoliteAll(m, s, acts, f) && ClockOk(m, s)
    requires forall n: nat :: m.clock(n) <= m.clock(n + 1) && m.clock(n) < HALF
    ensures var t := ApplyAll(m, s, acts);
            && ClockOk(m, t) && s.now <= t.now
            && (s.now == t.now ==> forall i :: 0 <= i < NUM_EVENTS ==> DueTerm(t, i) <= DueTerm(s, i))
    decreases |acts|
  {
    hide Apply, Polite, DueTerm, ClockOk;
    if acts != [] {
      ApplyMoves(m, s, acts[0]);
      ClockStep(m, s, acts[0], f);
      ClockSteps(m, Apply(m, s, acts[0]), acts[1..], f);
    }
  }

  /** The measure of the time loop: either the clock has moved on or one event less is due. */
  lemma DispatchTimeDecreases(m: Machine, s: Sched, horizon: nat)
    requires Compliant(m, horizon) && Wf(s) && Placed(m, s) && ClockOk(m, s) && s.counter <= horizon
    requires s.tim != [] && s.time[s.tim[0]] <= s.now
    ensures var t := DispatchTime(m, s);
            && ClockOk(m, t) && s.now <= t.now && Placed(m, t)
            && (s.now == t.now ==> DueCount(t, NUM_EVENTS) < DueCount(s, NUM_EVENTS))
            && (forall i :: 0 <= i < NUM_EVENTS ==> Term(t, i) <= Term(s, i))
  {
    hide Apply, Polite, PoliteAll, ApplyAll;
    FireTimeFacts(s);
    var r := FireTime(s);
    var f := Last(r);
    assert s.tim[0] in s.tim;
    assert ClockOk(m, r);
    PoliteAllSteps(m, r, m.handler(r.log), f);
    ClockSteps(m, r, m.handler(r.log), f);
    PlacedSteps(m, r, m.handler(r.log), f);
    if s.now == DispatchTime(m, s).now {
      DueDecreases(s, DispatchTime(m, s), f.id, NUM_EVENTS);
    }
  }

  /** When the host clock is looked at next, given the head of the time list. */
  function NextCheck(m: Machine, s: Sched): nat
    requires Wf(s) && s.now < WORD
  {
    var wait := if s.tim == [] then CHECK_INTERVAL else Diff(s.time[s.tim[0]], s.now);
    (s.counter + Scaled(m, if 0 < wait < CHECK_INTERVAL then wait else CHECK_INTERVAL)) % WORD
  }

  /** The second loop of CycInt_AddCycles. */
  ghost function RunTime(m: Machine, s: Sched, horizon: nat): (r: Sched)
    requires Compliant(m, horizon) && Wf(s) && Placed(m, s) && ClockOk(m, s) && s.counter <= horizon
    ensures Wf(r) && Placed(m, r) && ClockOk(m, r) && r.counter == s.counter
    decreases HALF - s.now, DueCount(s, NUM_EVENTS)
  {
    if s.tim == [] || Diff(s.time[s.tim[0]], s.now) > 0 then s.(check := NextCheck(m, s)) else
      assert s.tim[0] in s.tim;
      DispatchTimeDecreases(m, s, horizon);
      RunTime(m, DispatchTime(m, s), horizon)
  }
}
