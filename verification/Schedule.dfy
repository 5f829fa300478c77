/** The event scheduler as a simple machine: two lists of event ids in deadline order, the
    deadlines, the counters, and a log of what has fired.  Handlers are abstract: what a handler
    does to the scheduler is an arbitrary function of the log so far.
 */
module Schedule {

  const NUM_EVENTS: nat := 20
  const WORD: nat := 0x1_0000_0000_0000_0000
  const MAX: nat := 0xffff_ffff_ffff_ffff
  const HALF: nat := 0x8000_0000_0000_0000
  const CHECK_INTERVAL: nat := 100

  datatype Kind = None | Cycles | Time

  datatype Firing = Firing(id: nat, due: nat, kind: Kind)

  /** The calls a handler can make back into the scheduler. */
  datatype Action =
    | AddCycles(delay: nat, id: nat)
    | UpdateCycles(delay: nat, id: nat)
    | AddTime(usual: nat, fast: nat, id: nat)
    | UpdateTime(usual: nat, fast: nat, id: nat)
    | Remove(id: nat)

  /** Configuration and environment: whether microsecond events follow the host clock, cycles per
      microsecond, the readings of the host clock, the handlers, and in which lists each event is used
      in real time. */
  datatype Machine = Machine(
    realtime: bool, freq: nat, clock: nat -> nat,
    handler: seq<Firing> -> seq<Action>, kinds: nat -> set<Kind>)

  datatype Sched = Sched(
    counter: nat, check: nat, now: nat,
    cyc: seq<nat>, tim: seq<nat>, time: seq<nat>,
    ticks: nat, log: seq<Firing>)

  predicate IsEvent(i: nat) {
    1 <= i < NUM_EVENTS
  }

  // ----- lists in deadline order

  predicate InRange(q: seq<nat>, time: seq<nat>) {
    forall a :: 0 <= a < |q| ==> q[a] < |time|
  }

  predicate Sorted(q: seq<nat>, time: seq<nat>)
    requires InRange(q, time)
  {
    forall a, b :: 0 <= a < b < |q| ==> time[q[a]] <= time[q[b]]
  }

  predicate Distinct(q: seq<nat>) {
    forall a, b :: 0 <= a < b < |q| ==> q[a] != q[b]
  }

  /** Before the first event that is not earlier. */
  function Insert(q: seq<nat>, time: seq<nat>, i: nat): (r: seq<nat>)
    requires i < |time| && InRange(q, time)
    ensures InRange(r, time)
    ensures forall j :: j in r <==> j == i || j in q
  {
    if q == [] || time[i] <= time[q[0]] then [i] + q
    else [q[0]] + Insert(q[1..], time, i)
  }

  function Without(q: seq<nat>, i: nat): (r: seq<nat>)
    ensures i !in q ==> r == q
  {
    if q == [] then []
    else if q[0] == i then q[1..]
    else [q[0]] + Without(q[1..], i)
  }

  predicate Wf(s: Sched) {
    && |s.time| == NUM_EVENTS && s.time[0] == MAX && (forall i :: 0 <= i < NUM_EVENTS ==> s.time[i] <= MAX)
    && s.counter <= MAX
    && (forall i :: i in s.cyc ==> IsEvent(i) && i !in s.tim)
    && (forall i :: i in s.tim ==> IsEvent(i))
    && Distinct(s.cyc) && Distinct(s.tim) && InRange(s.cyc, s.time) && InRange(s.tim, s.time)
    && Sorted(s.cyc, s.time) && Sorted(s.tim, s.time)
  }

  // ----- the operations

  function Disarm(s: Sched, i: nat): Sched {
    s.(cyc := Without(s.cyc, i), tim := Without(s.tim, i))
  }

  function ArmCycles(s: Sched, i: nat, t: nat): Sched
    requires Wf(s) && IsEvent(i)
  {
    var d := Disarm(s, i);
    var time := s.time[i := t % WORD];
    DisarmMembers(s, i);
    d.(time := time, cyc := Insert(d.cyc, time, i))
  }

  function ArmTime(s: Sched, i: nat, t: nat): Sched
    requires Wf(s) && IsEvent(i)
  {
    var d := Disarm(s, i);
    var time := s.time[i := t % WORD];
    DisarmMembers(s, i);
    d.(time := time, tim := Insert(d.tim, time, i))
  }

  function Chosen(usual: nat, fast: nat): nat {
    if fast != 0 then fast else usual
  }

  function Scaled(m: Machine, t: nat): nat {
    (t * m.freq) % WORD
  }

  /** a - b in 64-bit unsigned arithmetic. */
  function Minus(a: nat, b: nat): nat
    requires a < WORD && b < WORD
  {
    if a >= b then a - b else a + WORD - b
  }

  function Apply(m: Machine, s: Sched, a: Action): Sched
    requires Wf(s) && IsEvent(a.id)
  {
    match a
    case AddCycles(d, i) => ArmCycles(s, i, s.counter + d)
    case UpdateCycles(d, i) => ArmCycles(s, i, s.time[i] + d)
    case AddTime(usual, fast, i) =>
      if m.realtime then
        var r := Chosen(usual, fast);
        var t := ArmTime(s.(ticks := s.ticks + 1), i, m.clock(s.ticks) + r);
        if r < CHECK_INTERVAL && t.tim[0] == i then t.(check := (s.counter + Scaled(m, r)) % WORD) else t
      else
        ArmCycles(s, i, s.counter + Scaled(m, usual))
    case UpdateTime(usual, fast, i) =>
      if m.realtime then
        var r := Chosen(usual, fast);
        var now := m.clock(s.ticks) % WORD;
        var base := if Minus(now, s.time[i]) > r / 2 then now else s.time[i];
        ArmTime(s.(ticks := s.ticks + 1, now := now), i, base + r)
      else
        ArmCycles(s, i, s.time[i] + Scaled(m, usual))
    case Remove(i) => Disarm(s, i)
  }

  // ----- what the operations keep

  lemma {:induction false} InsertSorted(q: seq<nat>, time: seq<nat>, i: nat)
    requires i < |time| && InRange(q, time) && Sorted(q, time)
    ensures Sorted(Insert(q, time, i), time)
  {
    if q != [] && time[q[0]] < time[i] {
      var tail, rest := q[1..], Insert(q[1..], time, i);
      InsertSorted(tail, time, i);
      forall b | 0 <= b < |rest|
        ensures time[q[0]] <= time[rest[b]]
      {
        assert rest[b] in rest;
        if rest[b] != i {
          var c :| 0 <= c < |tail| && tail[c] == rest[b];
          assert q[c + 1] == rest[b];
        }
      }
    }
  }

  lemma {:induction false} InsertDistinct(q: seq<nat>, time: seq<nat>, i: nat)
    requires i < |time| && InRange(q, time) && i !in q && Distinct(q)
    ensures Distinct(Insert(q, time, i))
  {
    if q != [] && time[q[0]] < time[i] {
      var rest := Insert(q[1..], time, i);
      InsertDistinct(q[1..], time, i);
      assert forall b :: 0 <= b < |rest| ==> rest[b] in rest;
    }
  }

  lemma {:induction false} WithoutMembers(q: seq<nat>, i: nat)
    requires Distinct(q)
    ensures forall j :: j in Without(q, i) <==> j in q && j != i
    ensures Distinct(Without(q, i))
  {
    if q != [] {
      assert forall j :: j in q <==> j == q[0] || j in q[1..];
      if q[0] != i {
        WithoutMembers(q[1..], i);
        var rest := Without(q[1..], i);
        assert forall b :: 0 <= b < |rest| ==> rest[b] in rest;
      }
    }
  }

  lemma {:induction false} WithoutLater(q: seq<nat>, time: seq<nat>, i: nat, low: nat)
    requires InRange(q, time) && forall b :: 0 <= b < |q| ==> low <= time[q[b]]
    ensures InRange(Without(q, i), time) && forall b :: 0 <= b < |Without(q, i)| ==> low <= time[Without(q, i)[b]]
  {
    if q != [] && q[0] != i {
      WithoutLater(q[1..], time, i, low);
    }
  }

  lemma SortedCons(x: nat, q: seq<nat>, time: seq<nat>)
    requires x < |time| && InRange(q, time) && Sorted(q, time) && forall b :: 0 <= b < |q| ==> time[x] <= time[q[b]]
    ensures InRange([x] + q, time) && Sorted([x] + q, time)
  {
  }

  lemma {:induction false} WithoutSorted(q: seq<nat>, time: seq<nat>, i: nat)
    requires InRange(q, time) && Sorted(q, time)
    ensures InRange(Without(q, i), time) && Sorted(Without(q, i), time)
  {
    if q != [] && q[0] != i {
      assert forall a :: 0 <= a < |q| - 1 ==> q[1..][a] == q[a + 1];
      WithoutSorted(q[1..], time, i);
      WithoutLater(q[1..], time, i, time[q[0]]);
      SortedCons(q[0], Without(q[1..], i), time);
    }
  }

  lemma DisarmMembers(s: Sched, i: nat)
    requires Wf(s)
    ensures forall j :: j in Disarm(s, i).cyc <==> j in s.cyc && j != i
    ensures forall j :: j in Disarm(s, i).tim <==> j in s.tim && j != i
    ensures InRange(Disarm(s, i).cyc, s.time) && InRange(Disarm(s, i).tim, s.time)
  {
    WithoutMembers(s.cyc, i);
    WithoutMembers(s.tim, i);
    WithoutSorted(s.cyc, s.time, i);
    WithoutSorted(s.tim, s.time, i);
  }

  lemma DisarmWf(s: Sched, i: nat)
    requires Wf(s)
    ensures Wf(Disarm(s, i))
  {
    WithoutMembers(s.cyc, i);
    WithoutMembers(s.tim, i);
    WithoutSorted(s.cyc, s.time, i);
    WithoutSorted(s.tim, s.time, i);
  }

  lemma SortedUpdate(q: seq<nat>, time: seq<nat>, i: nat, t: nat)
    requires i < |time| && InRange(q, time) && Sorted(q, time) && i !in q
    ensures InRange(q, time[i := t]) && Sorted(q, time[i := t])
  {
    assert forall a :: 0 <= a < |q| ==> q[a] in q && time[i := t][q[a]] == time[q[a]];
  }

  /** From s to r only event i has moved, apart from the bookkeeping fields. */
  ghost predicate OnlyMoves(s: Sched, r: Sched, i: nat) {
    && |s.time| == NUM_EVENTS && Wf(r) && r.counter == s.counter && r.log == s.log
    && (forall j :: j != i ==> (j in r.cyc <==> j in s.cyc) && (j in r.tim <==> j in s.tim))
    && (forall j :: 0 <= j < NUM_EVENTS && j != i ==> r.time[j] == s.time[j])
  }

  /** What arming an event does: it moves to the wanted list with the wanted deadline. */
  lemma ArmFacts(s: Sched, i: nat, t: nat)
    requires Wf(s) && IsEvent(i)
    ensures var r := ArmCycles(s, i, t);
            OnlyMoves(s, r, i) && r.time[i] == t % WORD && i in r.cyc && i !in r.tim && r.now == s.now
            && r.ticks == s.ticks
    ensures var r := ArmTime(s, i, t);
            OnlyMoves(s, r, i) && r.time[i] == t % WORD && i in r.tim && i !in r.cyc && r.now == s.now
            && r.ticks == s.ticks
  {
    hide Insert, Without, Sorted, Distinct;
    var d, time := Disarm(s, i), s.time[i := t % WORD];
    DisarmMembers(s, i);
    DisarmWf(s, i);
    SortedUpdate(d.cyc, s.time, i, t % WORD);
    SortedUpdate(d.tim, s.time, i, t % WORD);
    InsertSorted(d.cyc, time, i); InsertDistinct(d.cyc, time, i);
    InsertSorted(d.tim, time, i); InsertDistinct(d.tim, time, i);
  }

  lemma DisarmFacts(s: Sched, i: nat)
    requires Wf(s)
    ensures OnlyMoves(s, Disarm(s, i), i) && i !in Disarm(s, i).cyc && i !in Disarm(s, i).tim
  {
    hide Insert, Without, Sorted, Distinct;
    DisarmWf(s, i);
    DisarmMembers(s, i);
  }

  lemma Bookkeeping(s: Sched, check: nat, now: nat, ticks: nat)
    requires Wf(s)
    ensures Wf(s.(check := check, now := now, ticks := ticks))
  {
    hide Sorted, Distinct, InRange;
  }

  /** Every operation keeps both lists duplicate-free, disjoint and in deadline order, and touches
      no event but its own. */
  lemma ApplyMoves(m: Machine, s: Sched, a: Action)
    requires Wf(s) && IsEvent(a.id)
    ensures OnlyMoves(s, Apply(m, s, a), a.id)
  {
    hide ArmCycles, ArmTime, Disarm;
    match a
    case AddCycles(d, i) => ArmFacts(s, i, s.counter + d);
    case UpdateCycles(d, i) => ArmFacts(s, i, s.time[i] + d);
    case AddTime(_, _, _) => AddTimeMoves(m, s, a);
    case UpdateTime(_, _, _) => UpdateTimeMoves(m, s, a);
    case Remove(i) => DisarmFacts(s, i);
  }

  lemma AddTimeMoves(m: Machine, s: Sched, a: Action)
    requires Wf(s) && IsEvent(a.id) && a.AddTime?
    ensures OnlyMoves(s, Apply(m, s, a), a.id)
  {
    hide ArmCycles, ArmTime, Wf;
    Bookkeeping(s, s.check, s.now, s.ticks + 1);
    if m.realtime {
      var r := Chosen(a.usual, a.fast);
      var s1 := s.(ticks := s.ticks + 1);
      ArmFacts(s1, a.id, m.clock(s.ticks) + r);
      var t := ArmTime(s1, a.id, m.clock(s.ticks) + r);
      Bookkeeping(t, (s.counter + Scaled(m, r)) % WORD, t.now, t.ticks);
    } else {
      ArmFacts(s, a.id, s.counter + Scaled(m, a.usual));
    }
  }

  lemma UpdateTimeMoves(m: Machine, s: Sched, a: Action)
    requires Wf(s) && IsEvent(a.id) && a.UpdateTime?
    ensures OnlyMoves(s, Apply(m, s, a), a.id)
  {
    hide ArmCycles, ArmTime, Wf;
    if m.realtime {
      var now := m.clock(s.ticks) % WORD;
      TimesInRange(s, a.id);
      var base := if Minus(now, s.time[a.id]) > Chosen(a.usual, a.fast) / 2 then now else s.time[a.id];
      Bookkeeping(s, s.check, now, s.ticks + 1);
      ArmFacts(s.(ticks := s.ticks + 1, now := now), a.id, base + Chosen(a.usual, a.fast));
    } else {
      TimesInRange(s, a.id);
      ArmFacts(s, a.id, s.time[a.id] + Scaled(m, a.usual));
    }
  }

  lemma TimesInRange(s: Sched, i: nat)
    requires Wf(s) && i < NUM_EVENTS
    ensures |s.time| == NUM_EVENTS && s.time[i] <= MAX
  {
  }
}
