/** cycInt.c in its own form: one array of events, two doubly linked lists threaded through it,
    entry 0 as the common sentinel.  The class is proved to do what Schedule and Dispatch say.
 */
module CycInt {
  import opened Schedule
  import opened Dispatch
  import opened DispatchTheorems

  datatype Event = Event(kind: Kind, time: nat, prev: nat, next: nat)

  /** Entry a of the list, the sentinel past either end. */
  function At(q: seq<nat>, a: int): nat {
    if 0 <= a < |q| then q[a] else 0
  }

  /** The links of ev, entered at first, run through q forwards and backwards. */
  ghost predicate Linked(ev: seq<Event>, first: nat, q: seq<nat>) {
    && |ev| == NUM_EVENTS && first == At(q, 0) && Distinct(q)
    && forall a :: 0 <= a < |q| ==>
         IsEvent(q[a]) && ev[q[a]].next == At(q, a + 1) && ev[q[a]].prev == At(q, a - 1)
  }

  function Times(ev: seq<Event>): (t: seq<nat>)
    ensures |t| == |ev|
  {
    seq(|ev|, i requires 0 <= i < |ev| => ev[i].time)
  }

  /** ev' differs from ev at most in the links of the events named. */
  ghost predicate OnlyLinks(ev: seq<Event>, ev': seq<Event>, named: set<nat>) {
    && |ev| == |ev'|
    && (forall j :: 0 <= j < |ev| ==> ev'[j].time == ev[j].time && ev'[j].kind == ev[j].kind)
    && (forall j :: 0 <= j < |ev| && j !in named ==> ev'[j] == ev[j])
  }

  function Members(q: seq<nat>): set<nat> {
    set j | j in q
  }

  lemma LinkedFrame(ev: seq<Event>, ev': seq<Event>, first: nat, q: seq<nat>)
    requires Linked(ev, first, q) && |ev'| == |ev|
    requires forall j :: j in q && j < |ev| ==> ev'[j].next == ev[j].next && ev'[j].prev == ev[j].prev
    ensures Linked(ev', first, q)
  {
    forall a | 0 <= a < |q|
      ensures ev'[q[a]].next == At(q, a + 1) && ev'[q[a]].prev == At(q, a - 1)
    {
      assert q[a] in q;
    }
  }

  function Spliced(q: seq<nat>, a: nat, i: nat): seq<nat>
    requires a <= |q|
  {
    q[..a] + [i] + q[a..]
  }

  lemma SplicedDistinct(q: seq<nat>, a: nat, i: nat)
    requires a <= |q| && Distinct(q) && i !in q
    ensures Distinct(Spliced(q, a, i))
  {
    var r := Spliced(q, a, i);
    forall b, c | 0 <= b < c < |r|
      ensures r[b] != r[c]
    {
      assert b != a ==> r[b] == q[if b < a then b else b - 1];
      assert c != a ==> r[c] == q[if c < a then c else c - 1];
    }
  }

  lemma LinksInserted(ev: seq<Event>, ev': seq<Event>, first: nat, q: seq<nat>, a: nat, i: nat)
    requires Linked(ev, first, q) && a <= |q| && i !in q && IsEvent(i) && |ev'| == |ev|
    requires ev'[i].prev == At(q, a - 1) && ev'[i].next == At(q, a)
    requires forall b :: 0 <= b < |q| ==>
               && ev'[q[b]].next == (if b == a - 1 then i else ev[q[b]].next)
               && ev'[q[b]].prev == (if b == a then i else ev[q[b]].prev)
    ensures Linked(ev', if a == 0 then i else first, Spliced(q, a, i))
  {
    hide Spliced, At;
    var r := Spliced(q, a, i);
    SplicedDistinct(q, a, i);
    SplicedAt(q, a, i, 0);
    forall b | 0 <= b < |r|
      ensures IsEvent(r[b]) && ev'[r[b]].next == At(r, b + 1) && ev'[r[b]].prev == At(r, b - 1)
    {
      SplicedAt(q, a, i, b);
    }
  }

  /** One step along the links. */
  lemma Walk(ev: seq<Event>, first: nat, q: seq<nat>, a: nat)
    requires Linked(ev, first, q) && a <= |q|
    ensures |ev| == NUM_EVENTS && first == At(q, 0) && At(q, a) < NUM_EVENTS && At(q, a - 1) < NUM_EVENTS
            && InRange(q, Times(ev))
    ensures a < |q| ==> At(q, a) == q[a] && ev[q[a]].next == At(q, a + 1)
    ensures a == |q| ==> At(q, a) == 0
    ensures a == 0 ==> At(q, a - 1) == 0
    ensures a > 0 ==> At(q, a - 1) == q[a - 1]
  {
  }

  /** Only the head of a list is found at its first place. */
  lemma Distance(ev: seq<Event>, first: nat, q: seq<nat>, a: nat)
    requires Linked(ev, first, q) && a <= |q|
    ensures At(q, a) == first <==> a == 0
  {
  }

  /** An element of a spliced list and its neighbours. */
  lemma SplicedAt(q: seq<nat>, a: nat, i: nat, b: nat)
    requires a <= |q| && b <= |q|
    ensures var r := Spliced(q, a, i);
            && |r| == |q| + 1 && r[b] == (if b < a then q[b] else if b == a then i else q[b - 1])
            && At(r, b + 1) == (if b + 1 < a then At(q, b + 1) else if b + 1 == a then i else At(q, b))
            && At(r, b - 1) == (if b <= a then At(q, b - 1) else if b - 1 == a then i else At(q, b - 2))
            && At(r, 0) == (if a == 0 then i else At(q, 0))
  {
  }

  lemma {:induction false} InsertIsSplice(q: seq<nat>, time: seq<nat>, i: nat, a: nat)
    requires i < |time| && InRange(q, time) && a <= |q|
    requires forall b :: 0 <= b < a ==> time[q[b]] < time[i]
    requires a < |q| ==> time[i] <= time[q[a]]
    ensures Insert(q, time, i) == Spliced(q, a, i)
  {
    if a > 0 {
      InsertIsSplice(q[1..], time, i, a - 1);
      assert Spliced(q, a, i) == [q[0]] + Spliced(q[1..], a - 1, i);
    }
  }

  lemma LinksRemoved(ev: seq<Event>, ev': seq<Event>, first: nat, q: seq<nat>, a: nat)
    requires Linked(ev, first, q) && a < |q| && |ev'| == |ev|
    requires forall b :: 0 <= b < |q| && b != a ==>
               && ev'[q[b]].next == (if b == a - 1 then At(q, a + 1) else ev[q[b]].next)
               && ev'[q[b]].prev == (if b == a + 1 then At(q, a - 1) else ev[q[b]].prev)
    ensures Linked(ev', if a == 0 then At(q, 1) else first, q[..a] + q[a + 1..])
  {
    var r := q[..a] + q[a + 1..];
    forall b | 0 <= b < |r|
      ensures r[b] == q[if b < a then b else b + 1]
    {
    }
    forall b | 0 <= b < |r|
      ensures IsEvent(r[b]) && ev'[r[b]].next == At(r, b + 1) && ev'[r[b]].prev == At(r, b - 1)
    {
    }
  }

  function SetNext(ev: seq<Event>, j: nat, n: nat): seq<Event>
    requires j < |ev|
  {
    if j != 0 then ev[j := ev[j].(next := n)] else ev
  }

  function SetPrev(ev: seq<Event>, j: nat, n: nat): seq<Event>
    requires j < |ev|
  {
    if j != 0 then ev[j := ev[j].(prev := n)] else ev
  }

  /** The neighbours of i joined to each other. */
  function Cut(ev: seq<Event>, i: nat): (r: seq<Event>)
    requires i < |ev| && ev[i].prev < |ev| && ev[i].next < |ev|
    ensures |r| == |ev|
  {
    SetPrev(SetNext(ev, ev[i].prev, ev[i].next), ev[i].next, ev[i].prev)
  }

  lemma AtIs(q: seq<nat>, a: int, b: nat)
    requires Distinct(q) && b < |q| && forall c :: 0 <= c < |q| ==> IsEvent(q[c])
    ensures q[b] == At(q, a) <==> b == a
    ensures At(q, a) < NUM_EVENTS
    ensures At(q, a) != 0 ==> At(q, a) in q
  {
  }

  lemma CutEffect(ev: seq<Event>, i: nat, j: nat)
    requires i < |ev| && ev[i].prev < |ev| && ev[i].next < |ev| && 0 < j < |ev|
    ensures var p, n, e := ev[i].prev, ev[i].next, Cut(ev, i)[j];
            e == Event(ev[j].kind, ev[j].time, if j == n then p else ev[j].prev, if j == p then n else ev[j].next)
  {
  }

  lemma CutOnlyLinks(ev: seq<Event>, i: nat, named: set<nat>)
    requires i < |ev| && ev[i].prev < |ev| && ev[i].next < |ev|
    requires ev[i].prev != 0 ==> ev[i].prev in named
    requires ev[i].next != 0 ==> ev[i].next in named
    ensures OnlyLinks(ev, Cut(ev, i), named)
  {
  }

  lemma CutLinks(ev: seq<Event>, first: nat, q: seq<nat>, a: nat)
    requires Linked(ev, first, q) && a < |q|
    ensures var i := q[a];
            && ev[i].prev < |ev| && ev[i].next < |ev| && ev[i].prev != i
            && Linked(Cut(ev, i), if a == 0 then At(q, 1) else first, q[..a] + q[a + 1..])
            && OnlyLinks(ev, Cut(ev, i), Members(q))
  {
    hide At, Cut, OnlyLinks;
    var i := q[a];
    AtIs(q, a - 1, a); AtIs(q, a + 1, a);
    var ev' := Cut(ev, i);
    forall b | 0 <= b < |q| && b != a
      ensures ev'[q[b]].next == (if b == a - 1 then At(q, a + 1) else ev[q[b]].next)
      ensures ev'[q[b]].prev == (if b == a + 1 then At(q, a - 1) else ev[q[b]].prev)
    {
      AtIs(q, a - 1, b); AtIs(q, a + 1, b);
      CutEffect(ev, i, q[b]);
    }
    LinksRemoved(ev, ev', first, q, a);
    CutOnlyLinks(ev, i, Members(q));
  }

  /** Event i put between p and n. */
  function Join(ev: seq<Event>, i: nat, p: nat, n: nat): (r: seq<Event>)
    requires i < |ev| && p < |ev| && n < |ev|
    ensures |r| == |ev|
  {
    SetPrev(SetNext(ev[i := ev[i].(prev := p, next := n)], p, i), n, i)
  }

  lemma JoinEffect(ev: seq<Event>, i: nat, p: nat, n: nat, j: nat)
    requires 0 < i < |ev| && p < |ev| && n < |ev| && i != p && i != n && 0 < j < |ev|
    ensures Join(ev, i, p, n)[j] ==
            if j == i then ev[i].(prev := p, next := n)
            else Event(ev[j].kind, ev[j].time, if j == n then i else ev[j].prev, if j == p then i else ev[j].next)
  {
  }

  lemma JoinOnlyLinks(ev: seq<Event>, i: nat, p: nat, n: nat, named: set<nat>)
    requires i < |ev| && p < |ev| && n < |ev| && i in named && (p != 0 ==> p in named) && (n != 0 ==> n in named)
    ensures OnlyLinks(ev, Join(ev, i, p, n), named)
  {
  }

  lemma JoinLinks(ev: seq<Event>, first: nat, q: seq<nat>, a: nat, i: nat)
    requires Linked(ev, first, q) && a <= |q| && i !in q && IsEvent(i)
    ensures var p, n := At(q, a - 1), At(q, a);
            && p < |ev| && n < |ev|
            && Linked(Join(ev, i, p, n), if a == 0 then i else first, Spliced(q, a, i))
            && OnlyLinks(ev, Join(ev, i, p, n), Members(q) + {i})
  {
    hide At, Join, OnlyLinks, Spliced;
    var p, n := At(q, a - 1), At(q, a);
    AtEvent(q, a - 1); AtEvent(q, a);
    JoinEffect(ev, i, p, n, i);
    var ev' := Join(ev, i, p, n);
    forall b | 0 <= b < |q|
      ensures ev'[q[b]].next == (if b == a - 1 then i else ev[q[b]].next)
      ensures ev'[q[b]].prev == (if b == a then i else ev[q[b]].prev)
    {
      AtIs(q, a - 1, b); AtIs(q, a, b);
      assert q[b] in q;
      JoinEffect(ev, i, p, n, q[b]);
    }
    LinksInserted(ev, ev', first, q, a, i);
    JoinOnlyLinks(ev, i, p, n, Members(q) + {i});
  }

  lemma AtEvent(q: seq<nat>, a: int)
    requires forall c :: 0 <= c < |q| ==> IsEvent(q[c])
    ensures At(q, a) < NUM_EVENTS && (At(q, a) != 0 ==> At(q, a) in q)
  {
  }

  lemma {:induction false} WithoutIsCut(q: seq<nat>, a: nat)
    requires a < |q| && Distinct(q)
    ensures Without(q, q[a]) == q[..a] + q[a + 1..]
  {
    if a > 0 {
      WithoutIsCut(q[1..], a - 1);
      assert q[..a] + q[a + 1..] == [q[0]] + (q[1..][..a - 1] + q[1..][a..]);
    }
  }

  ghost predicate Represents(ev: seq<Event>, cyclesFirst: nat, timeFirst: nat, cyc: seq<nat>, tim: seq<nat>) {
    && Linked(ev, cyclesFirst, cyc) && Linked(ev, timeFirst, tim)
    && forall i :: 0 <= i < NUM_EVENTS ==> ev[i].kind == if i in cyc then Cycles else if i in tim then Time else None
  }

  class Scheduler {
    const machine: Machine
    const events: array<Event>
    var cyclesFirst: nat
    var timeFirst: nat
    var counter: nat
    var checkCycles: nat
    var timeNow: nat
    /** The environment: clock readings taken so far, and what has fired. */
    var ticks: nat
    var log: seq<Firing>
    /** The two lists the links spell out. */
    ghost var cyc: seq<nat>
    ghost var tim: seq<nat>

    ghost function Abs(): Sched
      reads this, events
    {
      Sched(counter, checkCycles, timeNow, cyc, tim, Times(events[..]), ticks, log)
    }

    ghost predicate Valid()
      reads this, events
    {
      events.Length == NUM_EVENTS && Represents(events[..], cyclesFirst, timeFirst, cyc, tim) && Wf(Abs())
    }

    constructor (m: Machine)
      ensures Valid() && machine == m && fresh(events)
      ensures Abs() == Sched(0, if m.realtime then 0 else MAX, 0, [], [], seq(NUM_EVENTS, i => MAX), 0, [])
    {
      machine := m;
      events := new Event[NUM_EVENTS](i => Event(None, MAX, 0, 0));
      ticks, log := 0, [];
      cyclesFirst, timeFirst, counter, checkCycles, timeNow := 0, 0, 0, 0, 0;
      cyc, tim := [], [];
      new;
      Reset();
    }

    /** CycInt_Reset: both lists empty, every deadline at the maximum. */
    method Reset()
      requires events.Length == NUM_EVENTS
      modifies this, events
      ensures Valid() && ticks == old(ticks) && log == old(log)
      ensures Abs() == Sched(0, if machine.realtime then 0 else MAX, 0, [], [], seq(NUM_EVENTS, i => MAX), ticks, log)
    {
      counter := 0;
      checkCycles := if machine.realtime then 0 else MAX;
      timeNow := 0;
      cyclesFirst, timeFirst := 0, 0;
      cyc, tim := [], [];
      for i := 0 to NUM_EVENTS
        invariant counter == 0 && checkCycles == (if machine.realtime then 0 else MAX) && timeNow == 0
        invariant cyclesFirst == timeFirst == 0 && cyc == tim == [] && ticks == old(ticks) && log == old(log)
        invariant forall j :: 0 <= j < i ==> events[j] == Event(None, MAX, 0, 0)
      {
        events[i] := Event(None, MAX, 0, 0);
      }
    }

    /** Join the neighbours of event i. */
    method Unlink(i: nat)
      requires events.Length == NUM_EVENTS && i < NUM_EVENTS
      requires events[i].prev < NUM_EVENTS && events[i].next < NUM_EVENTS && events[i].prev != i
      modifies events
      ensures events[..] == Cut(old(events[..]), i)
    {
      if events[i].prev != 0 {
        events[events[i].prev] := events[events[i].prev].(next := events[i].next);
      }
      if events[i].next != 0 {
        events[events[i].next] := events[events[i].next].(prev := events[i].prev);
      }
    }

    /** CycInt_RemovePendingEvent: the event leaves its list; an idle event is left alone. */
    method RemovePendingEvent(i: nat)
      requires Valid() && IsEvent(i)
      modifies this`cyclesFirst, this`timeFirst, this`cyc, this`tim, events
      ensures Valid() && Abs() == Disarm(old(Abs()), i)
      ensures i !in cyc && i !in tim && events[i].kind == None
    {
      hide Wf, Cut, Linked, Without, OnlyLinks;
      ghost var s, ev := Abs(), events[..];
      DisarmFacts(s, i);
      NotBoth(s, i);
      if events[i].kind == Cycles {
        RemovedFrom(ev, cyclesFirst, cyc, i);
        if i == cyclesFirst {
          cyclesFirst := events[i].next;
        }
      } else if events[i].kind == Time {
        RemovedFrom(ev, timeFirst, tim, i);
        if i == timeFirst {
          timeFirst := events[i].next;
        }
      } else {
        return;
      }
      Unlink(i);
      events[i] := events[i].(kind := None);
      cyc, tim := Without(cyc, i), Without(tim, i);
      Removed(s, ev, Cut(ev, i), events[..], old(cyclesFirst), old(timeFirst), cyclesFirst, timeFirst, i);
    }

    /** The walk of CycInt_AddEvent to the first event that is not earlier. */
    method FindPlace(first: nat, i: nat, ghost q: seq<nat>) returns (next: nat, prev: nat, ghost a: nat)
      requires events.Length == NUM_EVENTS && Linked(events[..], first, q) && IsEvent(i)
      requires events[0].time == MAX && forall j :: 0 <= j < NUM_EVENTS ==> events[j].time <= MAX
      ensures a <= |q| && next == At(q, a) < NUM_EVENTS && prev == At(q, a - 1) < NUM_EVENTS
      ensures InRange(q, Times(events[..])) && forall b :: 0 <= b < a ==> events[q[b]].time < events[i].time
      ensures a < |q| ==> events[i].time <= events[q[a]].time
    {
      hide Linked, At;
      next, prev, a := first, 0, 0;
      Walk(events[..], first, q, 0);
      while events[next].time < events[i].time
        invariant 0 <= a <= |q| && next == At(q, a) < NUM_EVENTS && prev == At(q, a - 1) < NUM_EVENTS
        invariant InRange(q, Times(events[..])) && forall b :: 0 <= b < a ==> events[q[b]].time < events[i].time
        invariant a < |q| ==> next == q[a] && events[next].next == At(q, a + 1)
        invariant a == |q| ==> next == 0
        decreases |q| - a
      {
        Walk(events[..], first, q, a);
        Walk(events[..], first, q, a + 1);
        prev := next;
        next := events[next].next;
        a := a + 1;
      }
    }

    /** CycInt_AddEvent: walk to the first event that is not earlier, and link in before it. */
    method AddEvent(first: nat, i: nat, ghost q: seq<nat>) returns (f: nat)
      requires events.Length == NUM_EVENTS && Linked(events[..], first, q) && i !in q && IsEvent(i)
      requires events[0].time == MAX && forall j :: 0 <= j < NUM_EVENTS ==> events[j].time <= MAX
      modifies events
      ensures InRange(q, Times(old(events[..]))) && Linked(events[..], f, Insert(q, Times(old(events[..])), i))
      ensures OnlyLinks(old(events[..]), events[..], Members(q) + {i})
    {
      hide Insert, OnlyLinks, Spliced, Join, Linked, At;
      ghost var ev := events[..];
      var next, prev; ghost var a;
      next, prev, a := FindPlace(first, i, q);
      f := if next == first then i else first;
      Walk(ev, first, q, 0);
      Distance(ev, first, q, a);
      JoinLinks(ev, first, q, a, i);
      InsertIsSplice(q, Times(ev), i, a);
      LinkBetween(i, prev, next);
    }

    method LinkBetween(i: nat, prev: nat, next: nat)
      requires events.Length == NUM_EVENTS && i < NUM_EVENTS && prev < NUM_EVENTS && next < NUM_EVENTS
      modifies events
      ensures events[..] == Join(old(events[..]), i, prev, next)
    {
      events[i] := events[i].(prev := prev, next := next);
      if prev != 0 {
        events[prev] := events[prev].(next := i);
      }
      if next != 0 {
        events[next] := events[next].(prev := i);
      }
    }

    /** Tag an idle event, give it its deadline and enter it in the cycle list. */
    method PutCycles(i: nat, t: nat)
      requires Valid() && IsEvent(i) && i !in cyc && i !in tim
      modifies this`cyclesFirst, this`cyc, events
      ensures Valid() && Abs() == ArmCycles(old(Abs()), i, t)
    {
      hide Wf, Linked, Insert, OnlyLinks, Sorted, Distinct;
      ghost var s, ev := Abs(), events[..];
      ArmFacts(s, i, t);
      events[i] := events[i].(kind := Cycles, time := t % WORD);
      ghost var ev1 := events[..];
      Retagged(s, ev, ev1, cyclesFirst, timeFirst, i);
      cyclesFirst := AddEvent(cyclesFirst, i, cyc);
      cyc := Insert(cyc, Times(ev1), i);
      Inserted(s, ev1, events[..], timeFirst, s.cyc, s.tim, i);
      IdleDisarm(s, i);
    }

    method PutTime(i: nat, t: nat)
      requires Valid() && IsEvent(i) && i !in cyc && i !in tim
      modifies this`timeFirst, this`tim, events
      ensures Valid() && Abs() == ArmTime(old(Abs()), i, t)
    {
      hide Wf, Linked, Insert, OnlyLinks, Sorted, Distinct;
      ghost var s, ev := Abs(), events[..];
      ArmFacts(s, i, t);
      events[i] := events[i].(kind := Time, time := t % WORD);
      ghost var ev1 := events[..];
      Retagged(s, ev, ev1, cyclesFirst, timeFirst, i);
      timeFirst := AddEvent(timeFirst, i, tim);
      tim := Insert(tim, Times(ev1), i);
      Inserted(s, ev1, events[..], cyclesFirst, s.tim, s.cyc, i);
      IdleDisarm(s, i);
    }

    method AddCyclesEvent(cycles: nat, i: nat)
      requires Valid() && IsEvent(i)
      modifies this`cyclesFirst, this`timeFirst, this`cyc, this`tim, events
      ensures Valid() && Abs() == Apply(machine, old(Abs()), Action.AddCycles(cycles, i))
    {
      hide Wf, Represents, ArmCycles, ArmTime, Disarm;
      ghost var s := Abs();
      Idle(i);
      ArmAgain(s, i, s.counter + cycles);
      if events[i].kind != None {
        RemovePendingEvent(i);
      }
      PutCycles(i, counter + cycles);
    }

    method UpdateCyclesEvent(cycles: nat, i: nat)
      requires Valid() && IsEvent(i)
      modifies this`cyclesFirst, this`timeFirst, this`cyc, this`tim, events
      ensures Valid() && Abs() == Apply(machine, old(Abs()), UpdateCycles(cycles, i))
    {
      hide Wf, Represents, ArmCycles, ArmTime, Disarm;
      ghost var s := Abs();
      Idle(i);
      ArmAgain(s, i, s.time[i] + cycles);
      if events[i].kind != None {
        RemovePendingEvent(i);
        DisarmKeeps(s, i);
      }
      assert Abs().time[i] == s.time[i];
      PutCycles(i, events[i].time + cycles);
    }

    method AddTimeEvent(usual: nat, fast: nat, i: nat)
      requires Valid() && IsEvent(i)
      modifies this`cyclesFirst, this`timeFirst, this`cyc, this`tim, this`ticks, this`checkCycles, events
      ensures Valid() && Abs() == Apply(machine, old(Abs()), AddTime(usual, fast, i))
    {
      hide Wf, ArmCycles, ArmTime, Disarm, Represents, OnlyMoves, Scaled;
      ghost var s := Abs();
      Idle(i);
      if events[i].kind != None {
        RemovePendingEvent(i);
      }
      ghost var d := Abs();
      DisarmBookkeeping(s, i, s.check, s.now, s.ticks + 1);
      if machine.realtime {
        var r := Chosen(usual, fast);
        ArmAgain(s.(ticks := s.ticks + 1), i, machine.clock(s.ticks) + r);
        ArmFacts(s.(ticks := s.ticks + 1), i, machine.clock(s.ticks) + r);
        PutFromClock(i, r);
        TimeHead();
        if r < CHECK_INTERVAL && i == timeFirst {
          CheckAfter(r);
        }
      } else {
        ArmAgain(s, i, s.counter + Scaled(machine, usual));
        PutCycles(i, counter + Scaled(machine, usual));
      }
    }

    /** Read the host clock and arm an idle event r microseconds later. */
    method PutFromClock(i: nat, r: nat)
      requires Valid() && IsEvent(i) && i !in cyc && i !in tim && Wf(Abs().(ticks := ticks + 1))
      modifies this`timeFirst, this`tim, this`ticks, events
      ensures Valid()
      ensures Abs() == ArmTime(old(Abs()).(ticks := old(ticks) + 1), i, machine.clock(old(ticks)) + r)
    {
      hide Wf, Represents, ArmTime;
      ghost var d := Abs();
      var t := machine.clock(ticks);
      ticks := ticks + 1;
      assert Abs() == d.(ticks := d.ticks + 1);
      PutTime(i, t + r);
    }

    /** Look at the host clock again after r microseconds. */
    method CheckAfter(r: nat)
      requires Valid()
      modifies this`checkCycles
      ensures Valid() && Abs() == old(Abs()).(check := (counter + Scaled(machine, r)) % WORD)
    {
      hide Wf, Represents;
      ghost var e := Abs();
      Bookkeeping(e, (e.counter + Scaled(machine, r)) % WORD, e.now, e.ticks);
      checkCycles := (counter + Scaled(machine, r)) % WORD;
      assert Abs() == e.(check := checkCycles);
    }

    method UpdateTimeEvent(usual: nat, fast: nat, i: nat)
      requires Valid() && IsEvent(i)
      modifies this`cyclesFirst, this`timeFirst, this`cyc, this`tim, this`ticks, this`timeNow, events
      ensures Valid() && Abs() == Apply(machine, old(Abs()), UpdateTime(usual, fast, i))
    {
      hide Wf, ArmCycles, ArmTime, Disarm, Represents, Minus, Scaled;
      ghost var s := Abs();
      Idle(i);
      if events[i].kind != None {
        RemovePendingEvent(i);
      }
      ghost var d := Abs();
      TimesInRange(s, i);
      DisarmBookkeeping(s, i, s.check, machine.clock(s.ticks) % WORD, s.ticks + 1);
      assert events[i].time == d.time[i] == s.time[i];
      if machine.realtime {
        var r := Chosen(usual, fast);
        var now := machine.clock(ticks) % WORD;
        ticks, timeNow := ticks + 1, now;
        assert Abs() == d.(ticks := d.ticks + 1, now := now);
        var base := if Minus(now, events[i].time) > r / 2 then now else events[i].time;
        ArmAgain(s.(ticks := s.ticks + 1, now := now), i, base + r);
        PutTime(i, base + r);
      } else {
        ArmAgain(s, i, s.time[i] + Scaled(machine, usual));
        PutCycles(i, events[i].time + Scaled(machine, usual));
      }
    }

    /** The two conversions from microseconds; realtime mode prefers the short delay. */
    method AddCycleTimeEvent(usual: nat, fast: nat, i: nat)
      requires Valid() && IsEvent(i)
      modifies this`cyclesFirst, this`timeFirst, this`cyc, this`tim, events
      ensures Valid()
      ensures Abs() ==
                  Apply(machine, old(Abs()),
                        Action.AddCycles(Scaled(machine, if machine.realtime then Chosen(usual, fast) else usual), i))
    {
      var t := usual;
      if machine.realtime && fast != 0 {
        t := fast;
      }
      AddCyclesEvent(Scaled(machine, t), i);
    }

    method UpdateCycleTimeEvent(usual: nat, fast: nat, i: nat)
      requires Valid() && IsEvent(i)
      modifies this`cyclesFirst, this`timeFirst, this`cyc, this`tim, events
      ensures Valid()
      ensures Abs() ==
                  Apply(machine, old(Abs()),
                        UpdateCycles(Scaled(machine, if machine.realtime then Chosen(usual, fast) else usual), i))
    {
      var t := usual;
      if machine.realtime && fast != 0 {
        t := fast;
      }
      UpdateCyclesEvent(Scaled(machine, t), i);
    }

    ghost method TimeHead()
      requires Valid() && tim != []
      ensures timeFirst == tim[0]
    {
    }

    ghost method CyclesHead()
      requires Valid()
      ensures cyc != [] ==> cyclesFirst == cyc[0] && IsEvent(cyc[0]) && events[cyc[0]].next == At(cyc, 1)
      ensures cyc == [] ==> cyclesFirst == 0
      ensures events[0].time == MAX
      ensures Abs().time[0] == MAX
    {
    }

    /** One call from a handler back into the scheduler. */
    method Perform(a: Action)
      requires Valid() && IsEvent(a.id)
      modifies this`cyclesFirst, this`timeFirst, this`cyc, this`tim, this`ticks, this`timeNow, this`checkCycles, events
      ensures Valid() && Abs() == Apply(machine, old(Abs()), a)
    {
      hide Wf, Represents, ArmCycles, ArmTime, Disarm;
      match a
      case AddCycles(d, i) => AddCyclesEvent(d, i);
      case UpdateCycles(d, i) => UpdateCyclesEvent(d, i);
      case AddTime(usual, fast, i) => AddTimeEvent(usual, fast, i);
      case UpdateTime(usual, fast, i) => UpdateTimeEvent(usual, fast, i);
      case Remove(i) => RemovePendingEvent(i);
    }

    method RunHandler(acts: seq<Action>)
      requires Valid() && ValidActions(acts)
      modifies this`cyclesFirst, this`timeFirst, this`cyc, this`tim, this`ticks, this`timeNow, this`checkCycles, events
      ensures Valid() && Abs() == ApplyAll(machine, old(Abs()), acts)
    {
      hide Wf, Represents, Apply;
      ghost var s := Abs();
      assert acts[0..] == acts;
      for k := 0 to |acts|
        invariant Valid() && ApplyAll(machine, Abs(), acts[k..]) == ApplyAll(machine, s, acts)
      {
        assert acts[k..][1..] == acts[k + 1..];
        Perform(acts[k]);
      }
    }

    /** The head of the cycle list is taken off and logged. */
    method PopCycles()
      requires Valid() && cyc != [] && events[cyc[0]].time <= counter
      modifies this`cyclesFirst, this`cyc, this`log, events
      ensures Valid() && Abs() == FireCycle(old(Abs()))
    {
      hide Wf, Linked, Sorted;
      ghost var s, ev := Abs(), events[..];
      CyclesHead();
      FireCycleFacts(s);
      var i := cyclesFirst;
      events[i] := events[i].(kind := None);
      cyclesFirst := events[i].next;
      LinkedSize(ev, i, cyc); AtEvent(cyc, 1);
      events[cyclesFirst] := events[cyclesFirst].(prev := 0);
      log := log + [Firing(i, events[i].time, Cycles)];
      cyc := cyc[1..];
      Popped(ev, events[..], i, s.cyc);
      NotHead(s.cyc, s.tim, ev, timeFirst, s);
      LinkedFrame(ev, events[..], timeFirst, tim);
      assert Times(events[..]) == Times(ev);
      assert Abs() == FireCycle(s);
    }

    method PopTime()
      requires Valid() && tim != []
      modifies this`timeFirst, this`tim, this`log, events
      ensures Valid() && Abs() == FireTime(old(Abs()))
    {
      hide Wf, Linked, Sorted;
      ghost var s, ev := Abs(), events[..];
      TimeHead();
      FireTimeFacts(s);
      LinkedSize(ev, timeFirst, tim); AtEvent(tim, 1);
      NextIs(ev, timeFirst, tim);
      var i := timeFirst;
      events[i] := events[i].(kind := None);
      timeFirst := events[i].next;
      events[timeFirst] := events[timeFirst].(prev := 0);
      log := log + [Firing(i, events[i].time, Time)];
      tim := tim[1..];
      Popped(ev, events[..], i, s.tim);
      NotHead(s.tim, s.cyc, ev, cyclesFirst, s);
      LinkedFrame(ev, events[..], cyclesFirst, cyc);
      assert Times(events[..]) == Times(ev);
      assert Abs() == FireTime(s);
    }

    /** The cycle loop of CycInt_AddCycles. */
    method CycleLoop(ghost horizon: nat)
      requires Valid() && Placed(machine, Abs()) && Compliant(machine, horizon) && counter <= horizon
      modifies this, events
      ensures Valid() && Abs() == RunCycles(machine, old(Abs()), horizon)
    {
      hide Wf, Represents, Compliant, ApplyAll, DispatchCycle, Overdue, Placed;
      ghost var s := Abs();
      CyclesHead();
      HandlersValid(machine, horizon);
      while events[cyclesFirst].time <= counter
        invariant Valid() && Placed(machine, Abs()) && counter <= horizon
                  && RunCycles(machine, Abs(), horizon) == RunCycles(machine, s, horizon)
        invariant cyc != [] ==> cyclesFirst == cyc[0] && cyc[0] < NUM_EVENTS
        invariant cyc == [] ==> cyclesFirst == 0
        invariant events[0].time == MAX
        decreases Overdue(Abs(), NUM_EVENTS)
      {
        ghost var d := Abs();
        assert d.time[d.cyc[0]] <= d.counter;
        DispatchDecreases(machine, d, horizon);
        FireNextCycle();
        CyclesHead();
      }
    }

    /** The head of the cycle list goes off: it is taken out and its handler runs. */
    method FireNextCycle()
      requires Valid() && cyc != [] && events[cyc[0]].time <= counter
               && forall log :: ValidActions(machine.handler(log))
      modifies this`cyclesFirst, this`timeFirst, this`cyc, this`tim, this`ticks, this`timeNow, this`checkCycles,
               this`log, events
      ensures Valid() && Abs() == DispatchCycle(machine, old(Abs()))
    {
      hide Wf, Represents, ApplyAll, DispatchCycle;
      CyclesHead();
      DispatchIs(machine, Abs());
      PopCycles();
      RunHandler(machine.handler(log));
    }

    method FireNextTime()
      requires Valid() && tim != [] && forall log :: ValidActions(machine.handler(log))
      modifies this`cyclesFirst, this`timeFirst, this`cyc, this`tim, this`ticks, this`timeNow, this`checkCycles,
               this`log, events
      ensures Valid() && Abs() == DispatchTime(machine, old(Abs()))
    {
      hide Wf, Represents, ApplyAll, DispatchTime;
      DispatchTimeIs(machine, Abs());
      PopTime();
      RunHandler(machine.handler(log));
    }

    /** The time loop of CycInt_AddCycles, with its early exit. */
    method TimeLoop(ghost horizon: nat)
      requires Valid() && Placed(machine, Abs()) && Compliant(machine, horizon) && counter <= horizon
               && ClockOk(machine, Abs())
      modifies this, events
      ensures Valid() && Abs() == RunTime(machine, old(Abs()), horizon)
    {
      hide Wf, Represents, Compliant, ApplyAll, DispatchTime, DueCount, NextCheck, Scaled, ClockOk, Placed;
      ghost var s := Abs();
      HandlersValid(machine, horizon);
      TimeEntry();
      NowBound(machine, s);
      while timeFirst != 0
        invariant Valid() && Placed(machine, Abs()) && counter <= horizon && ClockOk(machine, Abs()) && timeNow < HALF
        invariant RunTime(machine, Abs(), horizon) == RunTime(machine, s, horizon)
        invariant (tim == [] <==> timeFirst == 0) && timeFirst < NUM_EVENTS
        invariant tim != [] ==> timeFirst == tim[0] && events[timeFirst].time <= MAX
        decreases HALF - timeNow, DueCount(Abs(), NUM_EVENTS)
      {
        ghost var d := Abs();
        var diff := Diff(events[timeFirst].time, timeNow);
        if diff > 0 {
          NextCheckIs(machine, d);
          if diff < CHECK_INTERVAL {
            CheckAfter(diff);
            return;
          }
          break;
        } else {
          DueBound(machine, d);
          DispatchTimeDecreases(machine, d, horizon);
          FireNextTime();
          NowBound(machine, Abs());
          TimeEntry();
        }
      }
      NextCheckIs(machine, Abs());
      CheckAfter(CHECK_INTERVAL);
    }

    ghost method TimeEntry()
      requires Valid()
      ensures (tim == [] <==> timeFirst == 0) && timeFirst < NUM_EVENTS
      ensures tim != [] ==> timeFirst == tim[0] && events[timeFirst].time <= MAX
    {
      if tim != [] {
        assert tim[0] in tim;
      }
    }

    /** The abstract deadlines are those in the table. */
    ghost method Deadlines()
      requires Valid()
      ensures forall i :: 0 <= i < NUM_EVENTS ==> Abs().time[i] == events[i].time
      ensures forall i <- cyc :: i < NUM_EVENTS
    {
    }

    /** Cycles pass. */
    method CountCycles(cycles: nat)
      requires Valid() && counter + cycles <= MAX
      modifies this`counter
      ensures Valid() && Abs() == Later(old(Abs()), cycles)
    {
      hide Wf, Represents;
      LaterWf(machine, Abs(), cycles);
      counter := counter + cycles;
    }

    /** The host clock is looked at. */
    method ReadHostClock()
      requires Valid()
      modifies this`timeNow, this`ticks
      ensures Valid() && Abs() == ReadClock(machine, old(Abs()))
    {
      hide Represents;
      timeNow := machine.clock(ticks) % WORD;
      ticks := ticks + 1;
    }

    /** CycInt_AddCycles. */
    method AddCycles(cycles: nat, ghost horizon: nat)
      requires Valid() && Placed(machine, Abs()) && ClockOk(machine, Abs())
      requires Compliant(machine, horizon) && counter + cycles <= horizon
      modifies this, events
      ensures Valid() && Placed(machine, Abs()) && ClockOk(machine, Abs())
              && Abs() == Advance(machine, old(Abs()), cycles, horizon)
    {
      hide Wf, Represents, Compliant, RunCycles, RunTime, ClockOk, Placed;
      ghost var s := Abs();
      HandlersValid(machine, horizon);
      LaterWf(machine, s, cycles);
      CountCycles(cycles);
      CycleLoop(horizon);
      assert Abs() == AfterCycles(machine, s, cycles, horizon);
      if checkCycles <= counter {
        ghost var a := Abs();
        ReadClockOk(machine, a, horizon);
        ReadHostClock();
        TimeLoop(horizon);
      }
    }

    /** The tag says whether an event is in a list. */
    ghost method Idle(i: nat)
      requires Valid() && IsEvent(i)
      ensures events[i].kind == None <==> i !in cyc && i !in tim
      ensures Abs().time[i] == events[i].time
    {
    }
  }

  lemma ArmAgain(s: Sched, i: nat, t: nat)
    requires Wf(s) && IsEvent(i)
    ensures Wf(Disarm(s, i))
    ensures ArmCycles(Disarm(s, i), i, t) == ArmCycles(s, i, t) && ArmTime(Disarm(s, i), i, t) == ArmTime(s, i, t)
  {
    hide Insert, Without, Sorted;
    DisarmWf(s, i);
    DisarmMembers(s, i);
    IdleDisarm(Disarm(s, i), i);
  }

  lemma DisarmBookkeeping(s: Sched, i: nat, check: nat, now: nat, ticks: nat)
    requires Wf(s)
    ensures var t := s.(check := check, now := now, ticks := ticks);
            && Wf(t) && Disarm(t, i) == Disarm(s, i).(check := check, now := now, ticks := ticks)
            && Wf(Disarm(t, i)) && Disarm(s, i).time == s.time && (i !in s.cyc && i !in s.tim ==> Disarm(s, i) == s)
            && Disarm(s, i) == s.(cyc := Disarm(s, i).cyc, tim := Disarm(s, i).tim)
  {
    hide Wf;
    Bookkeeping(s, check, now, ticks);
    DisarmWf(s.(check := check, now := now, ticks := ticks), i);
  }

  lemma DisarmKeeps(s: Sched, i: nat)
    ensures Disarm(s, i).time == s.time && Disarm(s, i).counter == s.counter
  {
  }

  lemma DispatchIs(m: Machine, s: Sched)
    requires Wf(s) && s.cyc != [] && s.time[s.cyc[0]] <= s.counter && forall log :: ValidActions(m.handler(log))
    ensures Wf(FireCycle(s)) && DispatchCycle(m, s) == ApplyAll(m, FireCycle(s), m.handler(FireCycle(s).log))
  {
    hide ApplyAll;
    FireCycleFacts(s);
  }

  lemma DispatchTimeIs(m: Machine, s: Sched)
    requires Wf(s) && s.tim != [] && forall log :: ValidActions(m.handler(log))
    ensures Wf(FireTime(s)) && DispatchTime(m, s) == ApplyAll(m, FireTime(s), m.handler(FireTime(s).log))
  {
    hide ApplyAll;
    FireTimeFacts(s);
  }

  lemma NowBound(m: Machine, s: Sched)
    requires |s.time| == NUM_EVENTS && ClockOk(m, s)
    ensures s.now < HALF
  {
  }

  lemma DueBound(m: Machine, s: Sched)
    requires Wf(s) && ClockOk(m, s) && s.tim != []
    ensures s.now < WORD && (Diff(s.time[s.tim[0]], s.now) <= 0 <==> s.time[s.tim[0]] <= s.now)
  {
    assert s.tim[0] in s.tim;
  }

  lemma NextCheckIs(m: Machine, s: Sched)
    requires Wf(s) && s.now < WORD
    ensures var wait := if s.tim == [] then CHECK_INTERVAL as int else Diff(s.time[s.tim[0]], s.now);
            NextCheck(m, s) ==
                (s.counter + Scaled(m, if 0 < wait < CHECK_INTERVAL then wait else CHECK_INTERVAL)) % WORD
  {
  }

  lemma NextIs(ev: seq<Event>, first: nat, q: seq<nat>)
    requires Linked(ev, first, q) && q != []
    ensures q[0] < |ev| && ev[q[0]].next == At(q, 1)
  {
  }

  /** Dropping the head: its successor loses its back link. */
  lemma Popped(ev: seq<Event>, ev': seq<Event>, first: nat, q: seq<nat>)
    requires Linked(ev, first, q) && q != [] && first == q[0] && |ev'| == |ev|
    requires forall j :: 0 <= j < |ev| && j != q[0] ==>
               ev'[j].next == ev[j].next && ev'[j].prev == if j == At(q, 1) then 0 else ev[j].prev
    ensures Linked(ev', At(q, 1), q[1..])
  {
    hide At;
    forall b | 0 <= b < |q| && b != 0
      ensures ev'[q[b]].next == ev[q[b]].next && ev'[q[b]].prev == (if b == 1 then At(q, -1) else ev[q[b]].prev)
    {
      AtIs(q, 1, b);
      AtOutside(q);
    }
    LinksRemoved(ev, ev', first, q, 0);
    assert q[..0] + q[1..] == q[1..];
  }

  lemma AtOutside(q: seq<nat>)
    ensures At(q, -1) == 0
  {
  }

  lemma NotHead(q: seq<nat>, other: seq<nat>, ev: seq<Event>, otherFirst: nat, s: Sched)
    requires Wf(s) && ((q == s.cyc && other == s.tim) || (q == s.tim && other == s.cyc)) && q != []
    requires Linked(ev, otherFirst, other)
    ensures q[0] !in other && At(q, 1) !in other
  {
    assert q[0] in q;
    assert |q| > 1 ==> q[1] in q;
  }

  /** Changing the tag and deadline of an idle event disturbs neither list. */
  lemma Retagged(s: Sched, ev: seq<Event>, ev1: seq<Event>, cyclesFirst: nat, timeFirst: nat, i: nat)
    requires Wf(s) && Represents(ev, cyclesFirst, timeFirst, s.cyc, s.tim) && Times(ev) == s.time
    requires IsEvent(i) && i !in s.cyc && i !in s.tim && |ev1| == NUM_EVENTS && ev1[i].time <= MAX
    requires ev1[i].prev == ev[i].prev && ev1[i].next == ev[i].next && forall j :: 0 <= j < NUM_EVENTS && j != i ==>
               ev1[j] == ev[j]
    ensures Linked(ev1, cyclesFirst, s.cyc) && Linked(ev1, timeFirst, s.tim)
    ensures ev1[0].time == MAX && forall j :: 0 <= j < NUM_EVENTS ==> ev1[j].time <= MAX
    ensures Times(ev1) == s.time[i := ev1[i].time]
  {
    hide Linked, Sorted, Distinct;
    LinkedFrame(ev, ev1, cyclesFirst, s.cyc);
    LinkedFrame(ev, ev1, timeFirst, s.tim);
    assert forall j :: 0 <= j < NUM_EVENTS ==> ev[j].time == s.time[j];
  }

  /** Inserting into one list leaves the other one, the tags and the deadlines. */
  lemma Inserted(s: Sched, ev1: seq<Event>, ev2: seq<Event>, otherFirst: nat, q: seq<nat>, other: seq<nat>, i: nat)
    requires Wf(s) && ((q == s.cyc && other == s.tim) || (q == s.tim && other == s.cyc)) && i !in other
    requires OnlyLinks(ev1, ev2, Members(q) + {i}) && Linked(ev1, otherFirst, other)
    ensures Linked(ev2, otherFirst, other) && Times(ev2) == Times(ev1)
    ensures forall j :: 0 <= j < |ev2| ==> ev2[j].kind == ev1[j].kind
  {
    hide Linked, Sorted, Distinct;
    assert forall j :: j in other ==> j !in q;
    if |ev1| == |ev2| {
      LinkedSize(ev1, otherFirst, other);
      LinkedFrame(ev1, ev2, otherFirst, other);
    }
  }

  lemma LinkedSize(ev: seq<Event>, first: nat, q: seq<nat>)
    requires Linked(ev, first, q)
    ensures |ev| == NUM_EVENTS && forall a :: 0 <= a < |q| ==> IsEvent(q[a])
  {
  }

  lemma IdleDisarm(s: Sched, i: nat)
    requires i !in s.cyc && i !in s.tim
    ensures Disarm(s, i) == s
  {
  }

  /** Where i is in q. */
  ghost function Position(q: seq<nat>, i: nat): (a: nat)
    requires i in q
    ensures a < |q| && q[a] == i
  {
    var a: nat :| a < |q| && q[a] == i;
    a
  }

  lemma RemovedFrom(ev: seq<Event>, first: nat, q: seq<nat>, i: nat)
    requires Linked(ev, first, q) && i in q
    ensures i < |ev| && ev[i].prev < |ev| && ev[i].next < |ev| && ev[i].prev != i
    ensures Linked(Cut(ev, i), if i == first then ev[i].next else first, Without(q, i))
    ensures OnlyLinks(ev, Cut(ev, i), Members(q))
  {
    hide Cut, Without, OnlyLinks;
    var a := Position(q, i);
    CutLinks(ev, first, q, a);
    WithoutIsCut(q, a);
    AtIs(q, 0, a);
  }

  lemma NotBoth(s: Sched, i: nat)
    requires Wf(s)
    ensures !(i in s.cyc && i in s.tim)
  {
  }

  /** Removing one event from its list keeps the other list and the tags. */
  lemma Removed(s: Sched, ev: seq<Event>, cut: seq<Event>, ev': seq<Event>,
                cyclesFirst: nat, timeFirst: nat, cyclesFirst': nat, timeFirst': nat, i: nat)
    requires Wf(s) && IsEvent(i) && Represents(ev, cyclesFirst, timeFirst, s.cyc, s.tim) && (i in s.cyc || i in s.tim)
    requires |cut| == NUM_EVENTS && ev' == cut[i := cut[i].(kind := None)]
    requires i in s.cyc ==> && OnlyLinks(ev, cut, Members(s.cyc)) && Linked(cut, cyclesFirst', Without(s.cyc, i))
                            && timeFirst' == timeFirst
    requires i in s.tim ==> && OnlyLinks(ev, cut, Members(s.tim)) && Linked(cut, timeFirst', Without(s.tim, i))
                            && cyclesFirst' == cyclesFirst
    ensures Represents(ev', cyclesFirst', timeFirst', Without(s.cyc, i), Without(s.tim, i)) && Times(ev') == Times(ev)
  {
    hide Without, Sorted, Distinct, Linked;
    DisarmMembers(s, i);
    if i in s.cyc {
      LinkedFrame(cut, ev', cyclesFirst', Without(s.cyc, i));
      LinkedFrame(ev, ev', timeFirst, s.tim);
    } else {
      LinkedFrame(cut, ev', timeFirst', Without(s.tim, i));
      LinkedFrame(ev, ev', cyclesFirst, s.cyc);
    }
  }
}
