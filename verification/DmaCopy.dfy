/** Memory-to-memory copying in dma.c: two channels and a burst buffer. */
module DmaCopy {
  import opened Bytes
  import opened Dma

  lemma NoneBefore(len: nat, faults: iset<nat>, lo: nat, c: Csr)
    ensures BytesBefore(len, faults, lo, 0) == 0 && Marked(c, true) == c
  {
  }

  lemma AllBefore(mem: Memory, lo: nat, n: nat)
    requires Clear(mem, lo, n)
    ensures BytesBefore(|mem.bytes|, mem.faults, lo, n) == n
  {
    BytesExactly(|mem.bytes|, mem.faults, lo, n, n);
  }

  /** A channel after a transfer without or with a fault. */
  function Marked(c: Csr, ok: bool): (r: Csr)
  {
    if ok then c else c.(enable := false, complete := true, busexc := true)
  }

  class Copier {
    const source: Channel
    const target: Channel
    var buffer: seq<Byte>
    var size: nat

    constructor (source: Channel, target: Channel)
      requires source != target
      ensures Valid() && this.source == source && this.target == target && size == 0
    {
      this.source, this.target := source, target;
      buffer, size := seq(BURST, i => ZERO), 0;
    }

    ghost predicate Valid()
      reads this
    {
      |buffer| == BURST && size <= BURST && source != target
    }

    /** The reading loop: size bytes were read, and a fault leaves the rest of the buffer as it was. */
    method Refill(mem: Memory) returns (ok: bool)
      requires Valid() && size == 0
      modifies this, source`next
      ensures Valid() && source.next == old(source.next) + size && ok == (size == BURST)
      ensures Fetched(mem.bytes, old(source.next), buffer[..size]) && buffer[size..] == old(buffer)[size..]
      ensures size == BytesBefore(|mem.bytes|, mem.faults, old(source.next), BURST)
    {
      ghost var lo := source.next;
      FetchedNothing(mem.bytes, lo);
      ok := true;
      while ok && size < BURST
        invariant Valid() && source.next == lo + size
        invariant Fetched(mem.bytes, lo, buffer[..size]) && buffer[size..] == old(buffer)[size..]
        invariant !ok ==> size < BURST && !ByteOk(|mem.bytes|, mem.faults, source.next)
        invariant OpenBytes(|mem.bytes|, mem.faults, lo, size)
      {
        hide Fetched;
        var v;
        ok, v := mem.GetByte(source.next);
        if ok {
          OneMore(mem.bytes, lo, buffer, size, v);
          buffer := buffer[size := v];
          size := size + 1;
          source.next := source.next + 1;
        }
      }
      BytesExactly(|mem.bytes|, mem.faults, lo, BURST, size);
    }

    /** The writing loop: always the last size bytes of the buffer. */
    method Spill(mem: Memory) returns (ok: bool, ghost w: seq<Byte>)
      requires Valid()
      modifies this`size, target`next, mem`bytes
      ensures Valid() && size <= old(size) && ok == (size == 0)
      ensures w == buffer[BURST - old(size)..BURST - size] && target.next == old(target.next) + |w|
      ensures Stored(old(mem.bytes), mem.bytes, old(target.next), w)
      ensures |mem.bytes| == |old(mem.bytes)|
              && |w| == BytesBefore(|mem.bytes|, mem.faults, old(target.next), old(size))
    {
      ghost var lo, n, image := target.next, size, mem.bytes;
      StoredNothing(image, lo);
      ok, w := true, [];
      while ok && size > 0
        invariant Valid() && size <= n
        invariant w == buffer[BURST - n..BURST - size] && target.next == lo + |w|
        invariant Stored(image, mem.bytes, lo, w) && |mem.bytes| == |image|
        invariant !ok ==> size > 0 && !ByteOk(|image|, mem.faults, target.next)
        invariant OpenBytes(|image|, mem.faults, lo, |w|)
      {
        hide Stored, Overwrite;
        var v := buffer[BURST - size];
        ghost var mid := mem.bytes;
        ok := mem.PutByte(target.next, v);
        if ok {
          StoredNext(image, mid, mem.bytes, lo, w, [v]);
          w := w + [v];
          size := size - 1;
          target.next := target.next + 1;
        }
      }
      BytesExactly(|image|, mem.faults, lo, n, |w|);
    }

    /** The first half of dma_m2m_write_memory: provide a burst.  A fault after size bytes leaves the
        rest of the buffer as it was. */
    method Gather(mem: Memory)
      requires Valid()
      modifies this, source`next, source`limit, source`csr, source`interrupt
      ensures Valid()
      ensures old(source.next >= source.limit) ==>
                size == BURST && buffer == old(buffer) && source.next == old(source.next)
                && source.limit == old(source.limit)
                && source.csr == old(source.csr)
      ensures old(source.next < source.limit) ==>
                Fetched(mem.bytes, old(source.next), buffer[..size]) && buffer[size..] == old(buffer)[size..]
                && size == BytesBefore(|mem.bytes|, mem.faults, old(source.next), BURST)
                && source.Settled(old(source.next) + size, old(source.limit), Marked(old(source.csr), size == BURST))
                && source.csr.busexc == (old(source.csr.busexc) || size < BURST)
                && (size < BURST ==> !source.csr.enable && source.csr.complete)
      ensures source.interrupt == (old(source.interrupt) || (old(source.next < source.limit) && source.csr.complete))
    {
      if source.next < source.limit {
        size := 0;
        var ok := Refill(mem);
        if !ok {
          source.csr := source.csr.(enable := false, complete := true, busexc := true);
        }
        source.Interrupt();
      } else {
        size := BURST;
      }
    }

    /** dma_m2m_write_memory.  It reads a burst, or as many bytes as there are before a fault, or none if
        the source is exhausted; and it writes as many bytes from the end of the buffer, so that after a
        fault these are not the bytes that were read. */
    method Step(mem: Memory) returns (ghost n: nat, ghost w: seq<Byte>)
      requires Valid()
      modifies this, source`next, source`limit, source`csr, source`interrupt, target`next, target`limit, target`csr,
               target`interrupt, mem`bytes
      ensures Valid() && Stored(old(mem.bytes), mem.bytes, old(target.next), w) && |mem.bytes| == |old(mem.bytes)|
              && |w| <= n <= BURST
      ensures w == buffer[BURST - n..BURST - n + |w|]
              && |w| == BytesBefore(|mem.bytes|, mem.faults, old(target.next), n)
      ensures target.Settled(old(target.next) + |w|, old(target.limit), Marked(old(target.csr), |w| == n))
      ensures target.csr.busexc == (old(target.csr.busexc) || |w| < n)
      ensures |w| < n ==> !target.csr.enable && target.csr.complete
      ensures target.interrupt == (old(target.interrupt) || target.csr.complete)
      ensures source.interrupt ==
              (old(source.interrupt)
               || (old(target.next < target.limit && source.next < source.limit) && source.csr.complete))
      ensures old(target.next >= target.limit) ==> n == 0
      ensures old(target.next < target.limit && source.next < source.limit) ==>
                Fetched(old(mem.bytes), old(source.next), buffer[..n]) && buffer[n..] == old(buffer)[n..]
                && n == BytesBefore(|mem.bytes|, mem.faults, old(source.next), BURST)
                && source.Settled(old(source.next) + n, old(source.limit), Marked(old(source.csr), n == BURST))
                && source.csr.busexc == (old(source.csr.busexc) || n < BURST)
                && (n < BURST ==> !source.csr.enable && source.csr.complete)
      ensures old(target.next < target.limit && source.next >= source.limit) ==> n == BURST
      ensures old(target.next >= target.limit || source.next >= source.limit) ==>
                buffer == old(buffer) && source.next == old(source.next) && source.limit == old(source.limit)
                && source.csr == old(source.csr)
    {
      hide Stored, Fetched, Channel.Settled, Overwrite, BytesBefore, Marked;
      n, w := 0, [];
      StoredNothing(mem.bytes, target.next);
      NoneBefore(|mem.bytes|, mem.faults, target.next, target.csr);
      if target.next < target.limit {
        Gather(mem);
        n := size;
        w := Scatter(mem);
      } else {
        target.Interrupt();
      }
    }

    /** The second half: the bytes are written, and the channel may complete. */
    method Scatter(mem: Memory) returns (ghost w: seq<Byte>)
      requires Valid()
      modifies this`size, target`next, target`limit, target`csr, target`interrupt, mem`bytes
      ensures Valid() && Stored(old(mem.bytes), mem.bytes, old(target.next), w) && |mem.bytes| == |old(mem.bytes)|
              && |w| <= old(size)
      ensures w == buffer[BURST - old(size)..BURST - old(size) + |w|]
      ensures |w| == BytesBefore(|mem.bytes|, mem.faults, old(target.next), old(size))
      ensures target.Settled(old(target.next) + |w|, old(target.limit), Marked(old(target.csr), |w| == old(size)))
      ensures target.csr.busexc == (old(target.csr.busexc) || |w| < old(size))
      ensures |w| < old(size) ==> !target.csr.enable && target.csr.complete
      ensures target.interrupt == (old(target.interrupt) || target.csr.complete)
    {
      hide Stored, Overwrite, BytesBefore, Channel.Settled;
      var ok;
      ok, w := Spill(mem);
      if !ok {
        target.csr := target.csr.(enable := false, complete := true, busexc := true);
      }
      target.Interrupt();
    }

    /** dma_m2m: a copy is scheduled when both channels are enabled and hold whole bursts. */
    ghost predicate Startable()
      reads source, target
    {
      source.csr.enable && target.csr.enable && WholeBursts(target.limit - target.next)
      && WholeBursts(source.limit - source.next)
    }

    /** DMA_CSR_Write for one of the two channels: a channel without bytes is not enabled, and enabling
        either may start the copy. */
    method Control(read: bool, dev2m: bool, c: Command) returns (scheduled: bool)
      requires Valid()
      modifies source`direction, source`csr, source`interrupt, target`direction, target`csr, target`interrupt
      ensures var ch := if read then source else target;
              && ch.direction == dev2m && ch.csr.busexc == old(ch.csr.busexc)
              && ch.csr.enable == (if c.setenable then ch.next != ch.limit else old(ch.csr.enable) && !c.reset)
              && ch.csr.supdate == (c.setsupdate || (old(ch.csr.supdate) && !c.reset))
              && ch.csr.complete == (old(ch.csr.complete) && !c.reset && !c.clrcomplete)
              && ch.interrupt == (old(ch.interrupt) && ch.csr.complete)
      ensures var other := if read then target else source;
              other.csr == old(other.csr) && other.interrupt == old(other.interrupt)
      ensures scheduled == (c.setenable && Startable())
    {
      if read {
        Obey(source, dev2m, c);
      } else {
        Obey(target, dev2m, c);
      }
      scheduled := c.setenable && source.csr.enable && target.csr.enable
                   && (target.limit - target.next) % BURST == 0 && (source.limit - source.next) % BURST == 0;
    }

    /** The command bits for one channel. */
    method Obey(ch: Channel, dev2m: bool, c: Command)
      modifies ch`direction, ch`csr, ch`interrupt
      ensures ch.direction == dev2m && ch.csr.busexc == old(ch.csr.busexc)
      ensures ch.csr.enable == if c.setenable then ch.next != ch.limit else old(ch.csr.enable) && !c.reset
      ensures ch.csr.supdate == (c.setsupdate || (old(ch.csr.supdate) && !c.reset))
      ensures ch.csr.complete == (old(ch.csr.complete) && !c.reset && !c.clrcomplete)
      ensures ch.interrupt == (old(ch.interrupt) && ch.csr.complete)
    {
      var csr := ch.csr;
      if c.reset {
        csr := csr.(complete := false, supdate := false, enable := false);
      }
      if c.setsupdate {
        csr := csr.(supdate := true);
      }
      if c.setenable {
        csr := csr.(enable := ch.next != ch.limit);
      }
      if c.clrcomplete {
        csr := csr.(complete := false);
      }
      ch.direction, ch.csr, ch.interrupt := dev2m, csr, ch.interrupt && csr.complete;
    }

    /** DMA_M2M_IO_Handler: while the write channel is enabled, one burst and another event. */
    method Handler(mem: Memory) returns (again: bool)
      requires Valid()
      modifies this, source`next, source`limit, source`csr, source`interrupt, target`next, target`limit, target`csr,
               target`interrupt, mem`bytes
      ensures Valid() && again == old(target.csr.enable)
      ensures !again ==> mem.bytes == old(mem.bytes) && Ends() == old(Ends()) && buffer == old(buffer)
      ensures again && old(Ready(mem)) ==> Burst(old(mem.bytes), mem.bytes, old(buffer), buffer, old(Ends()), Ends())
    {
      hide Stored, Overwrite;
      again := target.csr.enable;
      if again {
        if Ready(mem) {
          AllBefore(mem, target.next, BURST);
          if source.next < source.limit {
            AllBefore(mem, source.next, BURST);
          }
        }
        ghost var n, w;
        n, w := Step(mem);
        assert buffer[..BURST] == buffer && buffer[0..BURST] == buffer;
      }
    }

    /** The handler runs until the write channel disables itself.  Between disjoint ranges of whole
        bursts, unchained and without faults, the target gets the source and then the last burst of
        the source over and over; every burst takes one event. */
    method Run(mem: Memory) returns (steps: nat)
      requires Valid() && target.csr.enable && !target.csr.supdate && !source.csr.supdate
      requires target.next < target.limit && WholeBursts(target.limit - target.next)
      requires source.next < source.limit && WholeBursts(source.limit - source.next)
      requires Clear(mem, target.next, target.limit - target.next)
               && Clear(mem, source.next, source.limit - source.next)
      requires target.limit <= source.next || source.limit <= target.next
      modifies this, source`next, source`limit, source`csr, source`interrupt, target`next, target`limit, target`csr,
               target`interrupt, mem`bytes
      ensures BURST * steps == old(target.limit - target.next)
      ensures target.csr == old(target.csr).(complete := true, enable := false)
      ensures target.interrupt && target.next == target.limit == old(target.limit)
      ensures |Copied(old(mem.bytes[source.next..source.limit]), old(target.limit - target.next))| ==
                  old(target.limit - target.next)
      ensures mem.bytes == Overwrite(old(mem.bytes), old(target.next),
                                     Copied(old(mem.bytes[source.next..source.limit]), old(target.limit - target.next)))
    {
      hide Stored, Overwrite, Burst, Copied, Fetched, Memory.Reachable, Midway, WholeBursts;
      steps := 0;
      ghost var p := Plan(mem.bytes, source.next, target.next, mem.bytes[source.next..source.limit],
                          target.limit - target.next, target.csr);
      MultipleRoom(|p.src|, 0);
      MidwayStart(p, buffer, Ends());
      var again := true;
      while again
        invariant Valid() && Midway(p, steps, buffer, mem.bytes, Ends())
        invariant !again ==> BURST * steps == p.n
        decreases p.n - BURST * steps, again
      {
        ghost var mid, had, ends := mem.bytes, buffer, Ends();
        MidwayReady(p, steps, had, mid, ends);
        again := Handler(mem);
        if again {
          MidwayNext(p, steps, had, mid, ends, buffer, mem.bytes, Ends());
          steps := steps + 1;
          MidwayReady(p, steps, buffer, mem.bytes, Ends());
        }
      }
      MidwayEnd(p, steps, buffer, mem.bytes, Ends());
    }

    ghost function Ends(): (r: (End, End))
      reads source, target
    {
      (End(source.next, source.limit, source.csr, source.interrupt, source.start, source.stop),
       End(target.next, target.limit, target.csr, target.interrupt, target.start, target.stop))
    }

    /** The next burst can be written, and read if there is one to be read, without a fault. */
    ghost predicate Ready(mem: Memory)
      reads mem, source, target
    {
      && target.next < target.limit
      && Clear(mem, target.next, BURST)
      && (source.next < source.limit ==> Clear(mem, source.next, BURST))
    }
  }

  /** The registers of a channel. */
  datatype End = End(next: nat, limit: nat, csr: Csr, interrupt: bool, start: nat, stop: nat)

  /** b is a after n more bytes and dma_interrupt, without chaining. */
  predicate Moved(a: End, b: End, n: nat)
  {
    && b.next == a.next + n && b.limit == a.limit
    && b.csr == (if b.next == b.limit then a.csr.(complete := true, enable := false) else a.csr)
    && (b.csr.complete ==> b.interrupt)
  }

  /** What one burst does when no access faults and nothing is chained. */
  predicate Burst(before: seq<Byte>, after: seq<Byte>, had: seq<Byte>, has: seq<Byte>, a: (End, End), b: (End, End))
  {
    && Stored(before, after, a.1.next, has)
    && (!a.1.csr.supdate ==> Moved(a.1, b.1, BURST))
    && (a.0.next < a.0.limit ==> Fetched(before, a.0.next, has) && (!a.0.csr.supdate ==> Moved(a.0, b.0, BURST)))
    && (a.0.next >= a.0.limit ==> has == had && b.0.next == a.0.next && b.0.limit == a.0.limit && b.0.csr == a.0.csr)
  }

  lemma OneMore(image: seq<Byte>, lo: nat, buffer: seq<Byte>, size: nat, v: Byte)
    requires size < |buffer| && Fetched(image, lo, buffer[..size]) && lo + size < |image| && v == image[lo + size]
    ensures Fetched(image, lo, buffer[size := v][..size + 1])
    ensures buffer[size := v][size + 1..] == buffer[size..][1..]
  {
    assert buffer[size := v][..size + 1] == buffer[..size] + [v];
    assert Fetched(image, lo + size, [v]);
    FetchedNext(image, lo, buffer[..size], [v]);
  }

  /** A copy of n bytes to `to`: the memory at the start, where the source is and what it holds. */
  datatype Plan = Plan(image: seq<Byte>, from: nat, to: nat, src: seq<Byte>, n: nat, csr: Csr)

  predicate Sane(p: Plan)
  {
    && |p.src| >= BURST && WholeBursts(|p.src|) && p.from + |p.src| <= |p.image|
    && p.src == p.image[p.from..p.from + |p.src|]
    && p.n > 0 && WholeBursts(p.n) && p.to + p.n <= |p.image|
    && (p.to + p.n <= p.from || p.from + |p.src| <= p.to)
    && p.csr.enable && !p.csr.supdate
  }

  /** The state after i bursts. */
  predicate Midway(p: Plan, i: nat, buffer: seq<Byte>, bytes: seq<Byte>, e: (End, End))
  {
    && |p.src| >= BURST && BURST * i <= p.n
    && e.1.next == p.to + BURST * i && e.1.limit == p.to + p.n
    && e.0.next == p.from + Least(BURST * i, |p.src|) && e.0.limit == p.from + |p.src| && !e.0.csr.supdate
    && e.1.csr == (if BURST * i < p.n then p.csr else p.csr.(complete := true, enable := false))
    && (BURST * i == p.n ==> e.1.interrupt)
    && (|p.src| <= BURST * i ==> buffer == p.src[|p.src| - BURST..])
    && Stored(p.image, bytes, p.to, Copied(p.src, BURST * i)) && |bytes| == |p.image|
  }

  lemma MidwayStart(p: Plan, buffer: seq<Byte>, e: (End, End))
    requires Sane(p) && !e.0.csr.supdate && e.1.csr == p.csr
    requires e.0.next == p.from && e.0.limit == p.from + |p.src| && e.1.next == p.to && e.1.limit == p.to + p.n
    ensures Midway(p, 0, buffer, p.image, e)
  {
    CopiedNothing(p.image, p.to, p.src);
  }

  /** While the channel is enabled there is room for a burst, and whole bursts are left to read. */
  lemma MidwayReady(p: Plan, i: nat, buffer: seq<Byte>, bytes: seq<Byte>, e: (End, End))
    requires Sane(p) && Midway(p, i, buffer, bytes, e)
    ensures e.1.csr.enable <==> BURST * i < p.n
    ensures BURST * i <= p.n && |bytes| == |p.image|
    ensures BURST * i < p.n ==> p.to <= e.1.next && e.1.next + BURST <= p.to + p.n == e.1.limit
    ensures e.0.next < e.0.limit ==> p.from <= e.0.next && e.0.next + BURST <= p.from + |p.src|
  {
    hide Stored, Copied;
    MultipleRoom(p.n, i);
    MultipleRoom(|p.src|, i);
  }

  /** The burst that was written is the next one of the copy. */
  lemma NextBurst(p: Plan, i: nat, had: seq<Byte>, mid: seq<Byte>, a: (End, End),
                  has: seq<Byte>, after: seq<Byte>, b: (End, End))
    requires Sane(p) && Midway(p, i, had, mid, a) && BURST * i < p.n && |had| == |has| == BURST
    requires Burst(mid, after, had, has, a, b)
    ensures BURST * i < |p.src| ==> BURST * i + BURST <= |p.src| && has == p.src[BURST * i..BURST * i + BURST]
    ensures BURST * i >= |p.src| ==> has == p.src[|p.src| - BURST..]
  {
    hide Overwrite, Copied, Stored, Fetched;
    MultipleRoom(|p.src|, i);
    if BURST * i < |p.src| {
      Undisturbed(p.image, mid, p.to, Copied(p.src, BURST * i), p.from, |p.src|);
      Slices(p.image, mid, p.from, |p.src|, BURST * i, has);
    }
  }

  lemma MidwayNext(p: Plan, i: nat, had: seq<Byte>, mid: seq<Byte>, a: (End, End),
                   has: seq<Byte>, after: seq<Byte>, b: (End, End))
    requires Sane(p) && Midway(p, i, had, mid, a) && BURST * i < p.n && |had| == |has| == BURST
    requires Burst(mid, after, had, has, a, b)
    ensures Midway(p, i + 1, has, after, b)
  {
    hide Overwrite, Copied, Stored, Fetched, WholeBursts;
    MultipleRoom(|p.src|, i);
    MultipleRoom(p.n, i);
    NextBurst(p, i, had, mid, a, has, after, b);
    CopiedNext(p.src, i, has);
    StoredNext(p.image, mid, after, p.to, Copied(p.src, BURST * i), has);
    StoredLength(mid, after, a.1.next, has);
  }

  lemma MidwayEnd(p: Plan, i: nat, buffer: seq<Byte>, bytes: seq<Byte>, e: (End, End))
    requires Sane(p) && Midway(p, i, buffer, bytes, e) && BURST * i == p.n
    ensures e.1.csr == p.csr.(complete := true, enable := false) && e.1.interrupt
    ensures e.1.next == e.1.limit == p.to + p.n
    ensures bytes == Overwrite(p.image, p.to, Copied(p.src, p.n))
  {
    CopiedAll(p.image, bytes, p.to, p.src, p.n);
  }

  lemma Slices(image: seq<Byte>, mid: seq<Byte>, from: nat, m: nat, k: nat, w: seq<Byte>)
    requires from + m <= |image| == |mid| && mid[from..from + m] == image[from..from + m]
    requires k + BURST <= m && |w| == BURST && Fetched(mid, from + k, w)
    ensures w == image[from..from + m][k..k + BURST]
  {
    forall j | 0 <= j < BURST
      ensures w[j] == image[from..from + m][k..k + BURST][j]
    {
      assert mid[from..from + m][k + j] == mid[from + k + j];
    }
  }

  /** The first n bytes of src followed by its last burst again and again. */
  function Copied(src: seq<Byte>, n: nat): (r: seq<Byte>)
    requires |src| >= BURST
    ensures |r| == n
  {
    seq(n, k requires 0 <= k < n => if k < |src| then src[k] else src[|src| - BURST + k % BURST])
  }

  lemma MultipleRoom(n: nat, i: nat)
    requires WholeBursts(n)
    ensures BURST * i < n ==> BURST * i + BURST <= n
    ensures WholeBursts(BURST * i)
  {
  }

  lemma CopiedNothing(image: seq<Byte>, to: nat, src: seq<Byte>)
    requires |src| >= BURST
    ensures Copied(src, 0) == [] && Stored(image, image, to, Copied(src, 0))
  {
  }

  lemma CopiedAll(image: seq<Byte>, after: seq<Byte>, to: nat, src: seq<Byte>, n: nat)
    requires |src| >= BURST && n > 0 && Stored(image, after, to, Copied(src, n))
    ensures to + n <= |image| && after == Overwrite(image, to, Copied(src, n))
  {
  }

  /** The burst that extends the copy. */
  lemma CopiedNext(src: seq<Byte>, i: nat, w: seq<Byte>)
    requires |src| >= BURST && WholeBursts(|src|) && |w| == BURST
    requires BURST * i < |src| ==> BURST * i + BURST <= |src| && w == src[BURST * i..BURST * i + BURST]
    requires BURST * i >= |src| ==> w == src[|src| - BURST..]
    ensures Copied(src, BURST * i) + w == Copied(src, BURST * i + BURST)
  {
    var k := BURST * i;
    var c, d := Copied(src, k), Copied(src, k + BURST);
    forall j | 0 <= j < BURST
      ensures d[k + j] == w[j]
    {
      assert (BURST * i + j) % BURST == j;
    }
    assert d[..k] == c;
    assert d[k..] == w by {
      assert |d[k..]| == BURST;
    }
    assert d == d[..k] + d[k..];
  }

  /** Stores outside a range do not change what is read from it. */
  lemma Undisturbed(image: seq<Byte>, mid: seq<Byte>, to: nat, x: seq<Byte>, from: nat, n: nat)
    requires Stored(image, mid, to, x) && |mid| == |image| && from + n <= |image|
    requires to + |x| <= from || from + n <= to
    ensures mid[from..from + n] == image[from..from + n]
  {
  }
}
