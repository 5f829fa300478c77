/** Whole runs of a burst channel: any sequence of register writes, control writes without a buffer
    initialisation, faults appearing and disappearing, device activity and transfers.  The abstract
    run is a function of the script; the channel carries it out, and no byte is lost on the way. */
module DmaRuns {
  import opened Bytes
  import opened Dma
  import opened DmaModel

  datatype Event =
    | Registers(next: nat, limit: nat, start: nat, stop: nat)
    | Control(dev2m: bool, reset: bool, setsupdate: bool, setenable: bool, clrcomplete: bool)
    | Faults(addresses: iset<nat>)
    | Serve(bytes: seq<Byte>)   // a drained device gets new bytes, or a filled one is emptied
    | Move

  /** How far a run got: the world, the memory accesses, the bytes that entered at the device (or
      left it), and whether the program aborted. */
  datatype Ran = Ran(world: World, chunks: seq<Chunk>, stream: seq<Byte>, aborted: bool)

  // ----- streams and memory

  function Stream(chunks: seq<Chunk>): (r: seq<Byte>)
  {
    if chunks == [] then [] else Stream(chunks[..|chunks| - 1]) + chunks[|chunks| - 1].w
  }

  /** Memory after the chunks were stored one by one. */
  function Replay(before: seq<Byte>, chunks: seq<Chunk>): (r: seq<Byte>)
    ensures |r| == |before|
  {
    if chunks == [] then before
    else Put(Replay(before, chunks[..|chunks| - 1]), chunks[|chunks| - 1].addr, chunks[|chunks| - 1].w)
  }

  /** A chunk that starts on a long word and lies inside its buffer and inside memory. */
  predicate Inside(c: Chunk, len: nat)
  {
    c.w != [] ==> Aligned(c.addr) && c.addr + |c.w| <= c.limit && c.addr + |c.w| <= len
  }

  predicate Contained(chunks: seq<Chunk>, len: nat)
  {
    forall c <- chunks :: Inside(c, len)
  }

  lemma Append(chunks: seq<Chunk>, c: Chunk)
    ensures Stream(chunks + [c]) == Stream(chunks) + c.w
    ensures forall image :: Replay(image, chunks + [c]) == Put(Replay(image, chunks), c.addr, c.w)
  {
    assert (chunks + [c])[..|chunks|] == chunks;
  }

  lemma StartOfRun(image: seq<Byte>)
    ensures Stream([]) == [] && Replay(image, []) == image
  {
  }

  // ----- abstract runs

  function Commanded(csr: Csr, e: Event): (r: Csr)
    requires e.Control?
  {
    Csr(e.setenable || (csr.enable && !e.reset), e.setsupdate || (csr.supdate && !e.reset),
        csr.complete && !e.reset && !e.clrcomplete, csr.busexc)
  }

  /** What every run has in common. */
  function Configured(w: World, e: Event): (r: World)
    ensures r.fifo == w.fifo && r.lim == w.lim && r.dev == w.dev && r.image == w.image && r.places == w.places
            && r.capacity == w.capacity
  {
    match e
    case Registers(next, limit, start, stop) => w.(regs := Regs(next, limit, start, stop, w.regs.csr, w.regs.line))
    case Control(_, _, _, _, _) =>
      var csr := Commanded(w.regs.csr, e); w.(regs := w.regs.(csr := csr, line := w.regs.line && csr.complete))
    case Faults(addresses) => w.(faults := addresses)
    case _ => w
  }

  /** One event of a device-to-memory run.  The stream collects what the device supplies. */
  function StepIn(r: Ran, e: Event): (t: Ran)
    requires Shaped(r.world)
    ensures Shaped(t.world)
  {
    var w := r.world;
    if r.aborted then r
    else if e.Serve? then
      if w.dev == [] && |e.bytes| <= w.capacity then r.(world := w.(dev := e.bytes), stream := r.stream + e.bytes)
      else r
    else if e.Move? then
      if Misplaced(w) then r.(aborted := true)
      else
        StillShapedIn(w);
        r.(world := MovedIn(w).0, chunks := r.chunks + [MovedIn(w).1])
    else r.(world := Configured(w, e))
  }

  function RunIn(w: World, script: seq<Event>): (r: Ran)
    requires Shaped(w)
    ensures Shaped(r.world)
  {
    if script == [] then Ran(w, [], [], false) else StepIn(RunIn(w, script[..|script| - 1]), script[|script| - 1])
  }

  /** One event of a memory-to-device run.  The stream collects what the device passes on. */
  function StepOut(r: Ran, e: Event): (t: Ran)
    requires Shaped(r.world) && |r.world.dev| <= r.world.places
    ensures Shaped(t.world) && |t.world.dev| <= t.world.places
  {
    var w := r.world;
    if r.aborted then r
    else if e.Serve? then
      r.(world := w.(dev := [], places := if |e.bytes| <= w.capacity then |e.bytes| else w.places),
         stream := r.stream + w.dev)
    else if e.Move? then
      if Misplaced(w) then r.(aborted := true)
      else
        StillShapedOut(w);
        r.(world := MovedOut(w).0, chunks := r.chunks + [MovedOut(w).1])
    else r.(world := Configured(w, e))
  }

  function RunOut(w: World, script: seq<Event>): (r: Ran)
    requires Shaped(w) && |w.dev| <= w.places
    ensures Shaped(r.world) && |r.world.dev| <= r.world.places
  {
    if script == [] then Ran(w, [], [], false) else StepOut(RunOut(w, script[..|script| - 1]), script[|script| - 1])
  }

  lemma HeldShape(a: nat, p: nat, cap: nat)
    requires p <= a && p <= BURST
    ensures var n, b := Passed(a, p, cap), Held(a, p, cap);
            if n == Whole(a, p) then b == a < n + BURST else n < b <= n + BURST
  {
    BoundaryNear(p, Passed(a, p, cap));
  }

  lemma StillShapedIn(w: World)
    requires Shaped(w)
    ensures Shaped(MovedIn(w).0)
  {
    hide Whole, Passed, Held, OpenLength, Put;
    var g := w.regs;
    if g.csr.enable && g.next <= g.limit {
      HeldShape(|w.fifo + w.dev|, Full(w), OpenLength(|w.image|, w.faults, g.next, g.limit - g.next));
    }
  }

  lemma StillShapedOut(w: World)
    requires Shaped(w) && |w.dev| <= w.places
    ensures Shaped(MovedOut(w).0) && |MovedOut(w).0.dev| <= MovedOut(w).0.places
  {
    hide Whole, Passed, Held, OpenLength, Peek;
    var g := w.regs;
    if g.csr.enable && g.next < g.limit {
      HeldShape(|w.fifo + Peek(w.image, g.next, OpenLength(|w.image|, w.faults, g.next, g.limit - g.next))|, Full(w),
                w.places - |w.dev|);
    }
  }

  // ----- conservation

  /** One transfer to memory neither loses nor adds nor reorders bytes. */
  lemma MovedInKeeps(w: World)
    requires Shaped(w) && !Misplaced(w)
    ensures var (r, c) := MovedIn(w);
            && c.w + r.fifo + r.dev == w.fifo + w.dev && r.image == Put(w.image, c.addr, c.w)
            && c.addr == w.regs.next && c.limit == w.regs.limit && Inside(c, |w.image|)
  {
    hide Whole, Passed, Held, OpenLength, Put, Settle, Broken, Aligned, WholeBursts;
    var g, a := w.regs, w.fifo + w.dev;
    if g.csr.enable && g.next <= g.limit {
      var cap := OpenLength(|w.image|, w.faults, g.next, g.limit - g.next);
      OpenInside(|w.image|, w.faults, g.next, g.limit - g.next);
      var n, b := Passed(|a|, Full(w), cap), Held(|a|, Full(w), cap);
      var (r, c) := MovedIn(w);
      ThreeParts(a, n, b);
      assert c.w == a[..n] && r.fifo == a[n..b] && r.dev == a[b..];
    } else {
      NothingPut(w.image, g.next);
      assert [] + w.fifo + w.dev == w.fifo + w.dev;
    }
  }

  lemma NothingPut(image: seq<Byte>, addr: nat)
    ensures Put(image, addr, []) == image
  {
  }

  lemma ThreeParts(a: seq<Byte>, n: nat, b: nat)
    requires n <= b <= |a|
    ensures a[..n] + a[n..b] + a[b..] == a
  {
  }

  /** Conservation over every device-to-memory run: what was stored, what is in the FIFO and what is
      left in the device are together, in order, what was there and what was supplied; memory is the
      old memory with the stores, each inside the buffer that was programmed at the time. */
  lemma {:induction false} ConservedIn(w: World, script: seq<Event>)
    requires Shaped(w)
    ensures var r := RunIn(w, script);
            && Stream(r.chunks) + r.world.fifo + r.world.dev == w.fifo + w.dev + r.stream
            && r.world.image == Replay(w.image, r.chunks) && Contained(r.chunks, |w.image|)
  {
    hide MovedIn, Shaped, Misplaced, Put, Inside;
    if script == [] {
      StartOfRun(w.image);
      Ends(w.fifo + w.dev);
      assert [] + w.fifo + w.dev == w.fifo + w.dev;
    } else {
      var r, e := RunIn(w, script[..|script| - 1]), script[|script| - 1];
      ConservedIn(w, script[..|script| - 1]);
      if !r.aborted && e.Serve? && r.world.dev == [] {
        Supply(Stream(r.chunks) + r.world.fifo, w.fifo + w.dev + r.stream, w.fifo + w.dev, r.stream, e.bytes);
      }
      if !r.aborted && e.Move? && !Misplaced(r.world) {
        MovedInKeeps(r.world);
        var (t, c) := MovedIn(r.world);
        Append(r.chunks, c);
        Onward(Stream(r.chunks), c.w, t.fifo, t.dev, r.world.fifo, r.world.dev);
      }
    }
  }

  lemma Ends(s: seq<Byte>)
    ensures s + [] == s == [] + s
  {
  }

  lemma Supply(a: seq<Byte>, b: seq<Byte>, start: seq<Byte>, stream: seq<Byte>, bytes: seq<Byte>)
    requires a + [] == b && b == start + stream
    ensures a + bytes == start + (stream + bytes)
  {
    assert a == b;
  }

  lemma Onward(done: seq<Byte>, w: seq<Byte>, f: seq<Byte>, d: seq<Byte>, fifo: seq<Byte>, dev: seq<Byte>)
    requires w + f + d == fifo + dev
    ensures (done + w) + f + d == done + fifo + dev
  {
    assert (done + w) + f + d == done + (w + f + d);
    assert done + fifo + dev == done + (fifo + dev);
  }

  lemma MovedOutKeeps(w: World)
    requires Shaped(w) && |w.dev| <= w.places && !Misplaced(w)
    ensures var (r, c) := MovedOut(w);
            && r.dev + r.fifo == w.dev + w.fifo + c.w && r.image == w.image
            && c.addr == w.regs.next && c.limit == w.regs.limit && Inside(c, |w.image|) && Fetched(w.image, c.addr, c.w)
  {
    hide Whole, Passed, Held, OpenLength, Peek, Settle, Broken, Fetched;
    var g := w.regs;
    if g.csr.enable && g.next < g.limit {
      var open := OpenLength(|w.image|, w.faults, g.next, g.limit - g.next);
      OpenInside(|w.image|, w.faults, g.next, g.limit - g.next);
      var a := w.fifo + Peek(w.image, g.next, open);
      var n, b := Passed(|a|, Full(w), w.places - |w.dev|), Held(|a|, Full(w), w.places - |w.dev|);
      HeldBeyond(|a|, Full(w), w.places - |w.dev|, |w.fifo|, w.lim);
      PeekPrefix(w.image, g.next, open, open);
      TwoParts(w.dev, a, n, b);
      Prefix(w.fifo, Peek(w.image, g.next, open), b);
      PeekPrefix(w.image, g.next, open, b - |w.fifo|);
      Associate(w.dev, w.fifo, Peek(w.image, g.next, b - |w.fifo|));
    } else {
      Ends(w.dev + w.fifo);
      FetchedNothing(w.image, g.next);
    }
  }

  /** The FIFO is never shorter than its burst. */
  lemma HeldBeyond(a: nat, p: nat, cap: nat, f: nat, lim: nat)
    requires f <= a && p <= f <= lim <= BURST && (lim == BURST ==> p == f) && (lim < BURST ==> p == 0)
    ensures Held(a, p, cap) >= f
  {
    var n := Passed(a, p, cap);
    assert Boundary(p, n) >= p && (p == 0 ==> Boundary(p, n) >= BURST);
  }

  lemma TwoParts(dev: seq<Byte>, a: seq<Byte>, n: nat, b: nat)
    requires n <= b <= |a|
    ensures (dev + a[..n]) + a[n..b] == dev + a[..b]
  {
  }

  lemma Prefix(fifo: seq<Byte>, p: seq<Byte>, b: nat)
    requires |fifo| <= b <= |fifo| + |p|
    ensures (fifo + p)[..b] == fifo + p[..b - |fifo|]
  {
  }

  lemma PeekPrefix(image: seq<Byte>, addr: nat, n: nat, k: nat)
    requires k <= n && (n > 0 ==> addr + n <= |image|)
    ensures |Peek(image, addr, n)| == n && |Peek(image, addr, k)| == k
            && Peek(image, addr, k) == Peek(image, addr, n)[..k]
    ensures Fetched(image, addr, Peek(image, addr, k))
  {
  }

  /** Every chunk is what memory holds at its address. */
  predicate ReadFrom(image: seq<Byte>, chunks: seq<Chunk>)
  {
    forall c <- chunks :: Fetched(image, c.addr, c.w)
  }

  /** Conservation over every memory-to-device run: what the device passed on, what it holds and what
      is in the FIFO are together, in order, what was there and what was read from memory, each chunk
      from inside the buffer that was programmed at the time. */
  lemma {:induction false} ConservedOut(w: World, script: seq<Event>)
    requires Shaped(w) && |w.dev| <= w.places
    ensures var r := RunOut(w, script);
            && r.stream + (r.world.dev + r.world.fifo) == w.dev + w.fifo + Stream(r.chunks)
            && r.world.image == w.image && ReadFrom(w.image, r.chunks) && Contained(r.chunks, |w.image|)
  {
    hide MovedOut, Shaped, Misplaced, Inside, Fetched;
    if script == [] {
      StartOfRun(w.image);
      Ends(w.dev + w.fifo);
    } else {
      var r, e := RunOut(w, script[..|script| - 1]), script[|script| - 1];
      ConservedOut(w, script[..|script| - 1]);
      if !r.aborted && e.Serve? {
        PassOn(r.stream, r.world.dev, r.world.fifo);
      }
      if !r.aborted && e.Move? && !Misplaced(r.world) {
        MovedOutKeeps(r.world);
        var (t, c) := MovedOut(r.world);
        Append(r.chunks, c);
        Associate(r.stream, r.world.dev + r.world.fifo, c.w);
        Associate(w.dev + w.fifo, Stream(r.chunks), c.w);
      }
    }
  }

  lemma PassOn(stream: seq<Byte>, dev: seq<Byte>, fifo: seq<Byte>)
    ensures (stream + dev) + ([] + fifo) == stream + (dev + fifo)
  {
  }

  // ----- chained buffers

  /** Two buffers programmed one after the other, aligned and free of faults, with whole bursts in all. */
  predicate Chained(w: World)
  {
    var g := w.regs;
    && w.fifo == [] && w.lim == 0 && g.csr.enable && g.csr.supdate && g.next < g.limit && g.start < g.stop
    && Aligned(g.limit - g.next) && Aligned(g.stop - g.start) && WholeBursts(g.limit - g.next + g.stop - g.start)
    && Open(|w.image|, w.faults, g.next, g.limit - g.next) && Open(|w.image|, w.faults, g.start, g.stop - g.start)
    && g.limit <= |w.image| && g.stop <= |w.image|
  }

  /** A device with as many bytes as two chained buffers fills them in two transfers: the first ends at the
      limit with the next burst begun, and continues in the second buffer; the second disables the channel. */
  lemma ChainedIn(w: World)
    requires Shaped(w) && Chained(w) && |w.dev| == w.regs.limit - w.regs.next + w.regs.stop - w.regs.start
    ensures var g, n, (r, c) := w.regs, w.regs.limit - w.regs.next, MovedIn(w);
            && r.regs == Regs(g.start, g.stop, g.start, g.stop, Csr(true, false, true, g.csr.busexc), true)
            && c == Chunk(g.next, g.limit, w.dev[..n]) && Shaped(r) && r.fifo + r.dev == w.dev[n..]
            && var (t, b) := MovedIn(r);
               && t.regs == Regs(g.stop, g.stop, g.start, g.stop, Csr(false, false, true, g.csr.busexc), true)
               && b == Chunk(g.start, g.stop, w.dev[n..]) && t.fifo == [] && t.dev == []
               && |t.image| == |w.image| && t.image[g.start..g.stop] == w.dev[n..]
               && (g.limit <= g.start || g.stop <= g.next ==> t.image[g.next..g.limit] == w.dev[..n])
  {
    hide MovedIn, Aligned, WholeBursts, Open, LongOk, Put, Whole, Passed, Held;
    var g := w.regs;
    var n, all := g.limit - g.next, w.dev;
    BeyondLimit(n, |all|);
    var b := Boundary(0, n);
    assert all[..n] + all[n..b] + all[b..] == w.fifo + w.dev;
    InDetermined(w, Blocked, all[..n], all[n..b], BURST, all[b..]);
    var r := MovedIn(w).0;
    assert r.fifo + r.dev == all[n..];
    assert all[n..] + [] + [] == r.fifo + r.dev;
    InDetermined(r, Starved, all[n..], [], 0, []);
    TwoStored(w.image, g.next, g.limit, g.start, g.stop, all[..n], all[n..]);
  }

  lemma BeyondLimit(n: nat, all: nat)
    requires n < all && WholeBursts(all)
    ensures Boundary(0, n) <= all && Boundary(0, n) <= n + BURST && WholeBursts(Boundary(0, n))
    ensures WholeBursts(all - n - (Boundary(0, n) - n))
  {
  }

  lemma TwoStored(image: seq<Byte>, next: nat, limit: nat, start: nat, stop: nat, v: seq<Byte>, w: seq<Byte>)
    requires next < limit <= |image| && start < stop <= |image| && |v| == limit - next && |w| == stop - start
    ensures var r := Put(Put(image, next, v), start, w);
            && |r| == |image| && r[start..stop] == w
            && (limit <= start || stop <= next ==> r[next..limit] == v)
  {
    PutThere(image, next, v);
    PutThere(Put(image, next, v), start, w);
  }

  lemma PutThere(image: seq<Byte>, addr: nat, w: seq<Byte>)
    requires w != [] && addr + |w| <= |image|
    ensures Put(image, addr, w)[addr..addr + |w|] == w
    ensures forall lo, hi :: 0 <= lo <= hi <= |image| && (hi <= addr || addr + |w| <= lo) ==>
                               Put(image, addr, w)[lo..hi] == image[lo..hi]
  {
  }

  lemma OneMore(w: World, front: seq<Event>, e: Event)
    requires Shaped(w)
    ensures RunIn(w, front + [e]) == StepIn(RunIn(w, front), e)
  {
    hide StepIn, Shaped;
    assert (front + [e])[..|front|] == front;
  }

  /** A channel that is programmed by two writes and transfers twice. */
  lemma Programmed(w: World, a: Event, b: Event, v: World)
    requires Shaped(w) && Shaped(v) && !a.Serve? && !a.Move? && !b.Serve? && !b.Move?
    requires v == Configured(Configured(w, a), b) && !Misplaced(v)
    requires Shaped(MovedIn(v).0) && !Misplaced(MovedIn(v).0)
    ensures var r := MovedIn(v);
            RunIn(w, [a, b, Move, Move]) == Ran(MovedIn(r.0).0, [r.1, MovedIn(r.0).1], [], false)
  {
    hide MovedIn, Shaped, Misplaced, Configured, RunIn;
    OneMore(w, [], a);
    OneMore(w, [a], b);
    OneMore(w, [a, b], Move);
    OneMore(w, [a, b, Move], Move);
    NothingRun(w);
    assert [] + [a] == [a] && [a] + [b] == [a, b] && [a, b] + [Move] == [a, b, Move];
    assert [a, b, Move] + [Move] == [a, b, Move, Move];
    var r := MovedIn(v);
    assert [] + [r.1] == [r.1] && [r.1] + [MovedIn(r.0).1] == [r.1, MovedIn(r.0).1];
  }

  lemma NothingRun(w: World)
    requires Shaped(w)
    ensures RunIn(w, []) == Ran(w, [], [], false)
  {
  }

  /** Programming a channel for two buffers and transferring twice, whatever the registers were before. */
  lemma ProgrammedIn(w: World, next: nat, limit: nat, start: nat, stop: nat)
    requires Shaped(w) && w.fifo == [] && w.lim == 0 && |w.dev| == limit - next + stop - start
    requires next < limit <= |w.image| && start < stop <= |w.image|
    requires Aligned(next) && WholeBursts(limit) && Aligned(start) && WholeBursts(stop)
    requires WholeBursts(limit - next + stop - start)
    requires Open(|w.image|, w.faults, next, limit - next) && Open(|w.image|, w.faults, start, stop - start)
    ensures var n := limit - next;
            var r := RunIn(w, [Registers(next, limit, start, stop), Control(true, true, true, true, true), Move, Move]);
            && !r.aborted && r.chunks == [Chunk(next, limit, w.dev[..n]), Chunk(start, stop, w.dev[n..])]
            && r.world.regs == Regs(stop, stop, start, stop, Csr(false, false, true, w.regs.csr.busexc), true)
            && r.world.dev == [] && r.world.fifo == [] && |r.world.image| == |w.image|
            && r.world.image[start..stop] == w.dev[n..]
            && (limit <= start || stop <= next ==> r.world.image[next..limit] == w.dev[..n])
  {
    hide MovedIn, RunIn, Open, Chained, Shaped, Misplaced, Configured, Aligned, WholeBursts;
    var v := w.(regs := Regs(next, limit, start, stop, Csr(true, true, false, w.regs.csr.busexc), false));
    BothBuffers(w, next, limit, start, stop);
    ChainedIn(v);
    PlacedAt(MovedIn(v).0);
    Programmed(w, Registers(next, limit, start, stop), Control(true, true, true, true, true), v);
  }

  lemma BothBuffers(w: World, next: nat, limit: nat, start: nat, stop: nat)
    requires w.fifo == [] && w.lim == 0 && next < limit <= |w.image| && start < stop <= |w.image|
    requires Aligned(next) && WholeBursts(limit) && Aligned(start) && WholeBursts(stop)
    requires WholeBursts(limit - next + stop - start)
    requires Open(|w.image|, w.faults, next, limit - next) && Open(|w.image|, w.faults, start, stop - start)
    ensures var v := w.(regs := Regs(next, limit, start, stop, Csr(true, true, false, w.regs.csr.busexc), false));
            && Chained(v) && Shaped(v) && !Misplaced(v)
            && v == Configured(Configured(w, Registers(next, limit, start, stop)),
                               Control(true, true, true, true, true))
  {
    hide Open;
  }

  lemma PlacedAt(w: World)
    requires Aligned(w.regs.next) && WholeBursts(w.regs.limit)
    ensures !Misplaced(w)
  {
  }

  /** A device with as many places as two chained buffers have bytes gets both in two transfers. */
  lemma ChainedOut(w: World)
    requires Shaped(w) && Chained(w) && |w.dev| <= w.places
             && w.places - |w.dev| == w.regs.limit - w.regs.next + w.regs.stop - w.regs.start
    ensures var g, (r, c) := w.regs, MovedOut(w);
            && r.regs == Regs(g.start, g.stop, g.start, g.stop, Csr(true, false, true, g.csr.busexc), true)
            && Shaped(r) && |r.dev| <= r.places && r.dev + r.fifo == w.dev + w.image[g.next..g.limit]
            && var t := MovedOut(r).0;
               && t.regs == Regs(g.stop, g.stop, g.start, g.stop, Csr(false, false, true, g.csr.busexc), true)
               && t.dev == w.dev + w.image[g.next..g.limit] + w.image[g.start..g.stop] && t.fifo == []
               && t.image == w.image
  {
    hide MovedOut, Aligned, WholeBursts, Open, LongOk, Whole, Passed, Held, OpenLength, Peek, Fetched;
    var g := w.regs;
    var n, one, two := g.limit - g.next, w.image[g.next..g.limit], w.image[g.start..g.stop];
    var q := n / BURST * BURST;
    WholeFetched(n, |two|);
    FetchedIs(w.image, g.next, g.limit);
    FetchedIs(w.image, g.start, g.stop);
    Split(w.dev, one, two, q);
    OutDetermined(w, Starved, one, one[..q], one[q..], n - q);
    var r := MovedOut(w).0;
    OutDetermined(r, Starved, two, one[q..] + two, [], 0);
  }

  lemma FetchedIs(image: seq<Byte>, lo: nat, hi: nat)
    requires lo < hi <= |image|
    ensures Fetched(image, lo, image[lo..hi])
  {
  }

  lemma Split(had: seq<Byte>, one: seq<Byte>, two: seq<Byte>, q: nat)
    requires q <= |one|
    ensures one[..q] + one[q..] == [] + one && one[q..] + two + [] == one[q..] + two
    ensures had + one[..q] + one[q..] == had + one && had + one[..q] + (one[q..] + two) == had + one + two
  {
  }

  lemma WholeFetched(n: nat, m: nat)
    requires WholeBursts(n + m)
    ensures var q := n / BURST * BURST; q <= n < q + BURST && WholeBursts(q) && WholeBursts(n - q + m)
  {
  }

  // ----- the interrupt line

  /** A transfer of an enabled channel leaves the interrupt raised exactly if it was raised before or the
      channel then is complete; and it is complete exactly if it was before, its limit is reached, or an
      access to memory faulted with bytes still to be moved. */
  lemma MovedInLine(w: World)
    requires Shaped(w) && !Misplaced(w)
    ensures var (r, c) := MovedIn(w);
            var left := w.regs.limit - (w.regs.next + |c.w|);
            && (!w.regs.csr.enable ==> r.regs == w.regs)
            && (w.regs.csr.enable ==> r.regs.line == (w.regs.line || r.regs.csr.complete))
            && (w.regs.csr.enable ==>
                  (r.regs.csr.complete <==>
                   w.regs.csr.complete || left == 0
                   || (left > 0 && |c.w| < Whole(|w.fifo + w.dev|, Full(w))
                       && !LongOk(|w.image|, w.faults, w.regs.next + |c.w|))))
  {
    hide Whole, Held, Put;
    var g, a := w.regs, w.fifo + w.dev;
    if g.csr.enable && g.next <= g.limit {
      var cap := OpenLength(|w.image|, w.faults, g.next, g.limit - g.next);
      OpenStops(|w.image|, w.faults, g.next, g.limit - g.next);
      LimitAligned(g);
    }
  }

  lemma LimitAligned(g: Regs)
    requires g.csr.enable && Aligned(g.next) && WholeBursts(g.limit) && g.next <= g.limit
    ensures Aligned(g.limit - g.next)
  {
  }

  /** Where the accessible bytes end before the limit, an access faults. */
  lemma {:induction false} OpenStops(len: nat, faults: iset<nat>, lo: nat, n: nat)
    ensures var k := OpenLength(len, faults, lo, n);
    Aligned(k) && (Aligned(n) && k < n ==> !LongOk(len, faults, lo + k))
    decreases n
  {
    hide LongOk;
    if n >= 4 && LongOk(len, faults, lo) {
      OpenStops(len, faults, lo + 4, n - 4);
    }
  }

  lemma MovedOutLine(w: World)
    requires Shaped(w) && |w.dev| <= w.places && !Misplaced(w)
    ensures var (r, c) := MovedOut(w);
            var left := w.regs.limit - (w.regs.next + |c.w|);
            && (!w.regs.csr.enable ==> r.regs == w.regs)
            && (w.regs.csr.enable ==> r.regs.line == (w.regs.line || r.regs.csr.complete))
            && (w.regs.csr.enable && (w.regs.csr.complete || left == 0) ==> r.regs.csr.complete)
            && (w.regs.csr.enable && r.regs.csr.complete ==>
                  w.regs.csr.complete || left == 0 || (left > 0 && !LongOk(|w.image|, w.faults, w.regs.next + |c.w|)))
  {
    hide Whole, Passed, Held, Peek, OpenLength, LongOk, Aligned, WholeBursts, Fetched;
    var g := w.regs;
    if g.csr.enable && g.next < g.limit {
      var open := OpenLength(|w.image|, w.faults, g.next, g.limit - g.next);
      OpenStops(|w.image|, w.faults, g.next, g.limit - g.next);
      LimitAligned(g);
      OpenInside(|w.image|, w.faults, g.next, g.limit - g.next);
      PeekPrefix(w.image, g.next, open, open);
      var b := Held(|w.fifo| + open, Full(w), w.places - |w.dev|);
      HeldShape(|w.fifo| + open, Full(w), w.places - |w.dev|);
      PeekPrefix(w.image, g.next, open, if b < |w.fifo| then 0 else b - |w.fifo|);
    }
  }

  /** A transfer of an enabled channel that ends complete. */
  predicate Completes(w: World, e: Event, inward: bool)
  {
    && e.Move? && Shaped(w) && !Misplaced(w) && w.regs.csr.enable
    && if inward then MovedIn(w).0.regs.csr.complete else |w.dev| <= w.places && MovedOut(w).0.regs.csr.complete
  }

  /** Over any run the interrupt is raised at the end only if it was at the start or a transfer of the run
      ended complete. */
  lemma {:induction false} RaisedInOnly(w: World, script: seq<Event>)
    requires Shaped(w)
    ensures RunIn(w, script).world.regs.line ==>
              w.regs.line || exists j :: 0 <= j < |script| && Completes(RunIn(w, script[..j]).world, script[j], true)
  {
    hide MovedIn, Shaped, Misplaced;
    if script != [] {
      var n := |script| - 1;
      var r, e := RunIn(w, script[..n]), script[n];
      RaisedInOnly(w, script[..n]);
      if !r.aborted && e.Move? && !Misplaced(r.world) {
        MovedInLine(r.world);
      }
      if RunIn(w, script).world.regs.line && !w.regs.line && r.world.regs.line {
        var j :| 0 <= j < n && Completes(RunIn(w, script[..n][..j]).world, script[..n][j], true);
        assert script[..n][..j] == script[..j] && script[..n][j] == script[j];
      }
    }
  }

  lemma {:induction false} RaisedOutOnly(w: World, script: seq<Event>)
    requires Shaped(w) && |w.dev| <= w.places
    ensures RunOut(w, script).world.regs.line ==>
              w.regs.line || exists j :: 0 <= j < |script| && Completes(RunOut(w, script[..j]).world, script[j], false)
  {
    hide MovedOut, Shaped, Misplaced;
    if script != [] {
      var n := |script| - 1;
      var r, e := RunOut(w, script[..n]), script[n];
      RaisedOutOnly(w, script[..n]);
      if !r.aborted && e.Move? && !Misplaced(r.world) {
        MovedOutLine(r.world);
      }
      if RunOut(w, script).world.regs.line && !w.regs.line && r.world.regs.line {
        var j :| 0 <= j < n && Completes(RunOut(w, script[..n][..j]).world, script[..n][j], false);
        assert script[..n][..j] == script[..j] && script[..n][j] == script[j];
      }
    }
  }
}
