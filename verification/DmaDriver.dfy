/** The burst channel carries out the abstract runs. */
module DmaDriver {
  import opened Bytes
  import opened Dma
  import opened DmaModel
  import opened DmaRuns

  ghost function RegsOf(ch: Channel): (r: Regs)
    reads ch
  {
    Regs(ch.next, ch.limit, ch.start, ch.stop, ch.csr, ch.interrupt)
  }

  /** The world of a device that is drained. */
  ghost function WorldIn(ch: Channel, mem: Memory, dev: Device): (w: World)
    reads ch, mem, dev, dev.data
    requires ch.Shape() && dev.Valid()
  {
    World(RegsOf(ch), ch.Fifo(), ch.lim, dev.Rest(), 0, dev.data.Length, mem.bytes, mem.faults)
  }

  /** The world of a device that is filled. */
  ghost function WorldOut(ch: Channel, mem: Memory, dev: Device): (w: World)
    reads ch, mem, dev, dev.data
    requires ch.Shape() && dev.Valid()
  {
    World(RegsOf(ch), ch.Fifo(), ch.lim, dev.Filled(), dev.limit, dev.data.Length, mem.bytes, mem.faults)
  }

  lemma InShaped(ch: Channel, mem: Memory, dev: Device)
    requires ch.Inbound() && dev.Valid()
    ensures ch.Shape() && Shaped(WorldIn(ch, mem, dev)) && ch.delivered + ch.Fifo() == ch.taken
  {
  }

  lemma OutShaped(ch: Channel, mem: Memory, dev: Device)
    requires ch.Outbound() && dev.Valid()
    ensures ch.Shape() && Shaped(WorldOut(ch, mem, dev)) && |dev.Filled()| <= dev.limit
            && ch.delivered + ch.Fifo() == ch.taken
  {
  }

  lemma SettledIs(ch: Channel, g: Regs)
    requires ch.Settled(g.next, g.limit, g.csr) && ch.start == g.start && ch.stop == g.stop
    requires ch.interrupt == (g.line || ch.csr.complete)
    ensures RegsOf(ch) == Settle(g)
  {
  }

  /** What is stored, kept and left is what was available. */
  lemma InSplit(a: Snapshot, b: Snapshot, w: seq<Byte>, fifo: seq<Byte>, kept: seq<Byte>)
    requires a.delivered + fifo == a.taken && b.delivered + kept == b.taken
    ensures Transfer(a, b, w) ==> w + kept + b.part == fifo + a.part && b.image == Put(a.image, a.next, w)
  {
    if Transfer(a, b, w) {
      var k := |a.part| - |b.part|;
      assert a.part == a.part[..k] + b.part;
      Associate(a.delivered, w, kept);
      Associate(a.delivered, fifo, a.part[..k]);
      Cancel(a.delivered, w + kept, fifo + a.part[..k]);
      assert w + kept + b.part == fifo + a.part[..k] + b.part;
    }
  }

  lemma Cancel(d: seq<Byte>, x: seq<Byte>, y: seq<Byte>)
    requires d + x == d + y
    ensures x == y
  {
    assert x == (d + x)[|d|..] && y == (d + y)[|d|..];
  }

  lemma SameParts(f: seq<Byte>, d: seq<Byte>, g: seq<Byte>, e: seq<Byte>)
    requires [] + f + d == g + e && |f| == |g|
    ensures f == g && d == e
  {
    assert f == (f + d)[..|f|] && d == (f + d)[|f|..];
    assert g == (g + e)[..|g|] && e == (g + e)[|g|..];
  }

  /** A transfer that does nothing. */
  lemma InIdle(w: World)
    requires Shaped(w) && (!w.regs.csr.enable || w.regs.next > w.regs.limit)
    ensures MovedIn(w).0 == if w.regs.csr.enable then w.(regs := Settle(w.regs)) else w
  {
  }

  /** One device-to-memory transfer. */
  method MoveIn(ch: Channel, mem: Memory, dev: Device)
    requires ch.Inbound() && dev.Valid() && !Misplaced(WorldIn(ch, mem, dev))
    modifies ch, mem`bytes, dev`size
    ensures ch.Inbound() && dev.Valid() && Shaped(old(WorldIn(ch, mem, dev)))
    ensures WorldIn(ch, mem, dev) == MovedIn(old(WorldIn(ch, mem, dev))).0
  {
    hide Transfer, Stored, WholeBursts, Aligned, Open, Window, Device.Rest, Device.Valid, Channel.Settled, MovedIn,
         Settle, Broken, Put;
    InShaped(ch, mem, dev);
    ghost var w0, a := WorldIn(ch, mem, dev), ch.Snap(mem, dev);
    var exit; ghost var w;
    exit, w := ch.WriteMemory(mem, dev);
    ghost var b := ch.Snap(mem, dev).(next := a.next + |w|);
    InShaped(ch, mem, dev);
    InSplit(a, b, w, w0.fifo, ch.Fifo());
    ghost var moved := w0.regs.(next := w0.regs.next + |w|);
    if exit == Off || exit == Done {
      SameParts(ch.Fifo(), dev.Rest(), w0.fifo, w0.dev);
      InIdle(w0);
      NothingPut(w0.image, w0.regs.next);
    } else {
      AlignedParts(w0.regs, |w|);
      InDetermined(w0, exit, w, ch.Fifo(), ch.lim, dev.Rest());
    }
    if exit != Off && exit != Fault {
      SettledIs(ch, moved);
    } else {
      BrokenIs(moved);
    }
  }

  lemma BrokenIs(g: Regs)
    ensures Broken(g) == g.(csr := Csr(false, g.csr.supdate, true, true), line := true)
  {
  }

  lemma AlignedParts(g: Regs, n: nat)
    requires Aligned(g.next) && WholeBursts(g.limit)
    ensures g.next <= g.limit ==> Aligned(g.limit - g.next)
    ensures Aligned(g.next + n) ==> Aligned(n)
  {
  }

  /** What is delivered and kept is what was there and what was fetched. */
  lemma OutSplit(a: Snapshot, b: Snapshot, f: seq<Byte>, fifo: seq<Byte>, kept: seq<Byte>)
    requires a.delivered + fifo == a.taken && b.delivered + kept == b.taken
    ensures Fetch(a, b, f) ==>
              |a.part| <= |b.part| && a.part + b.part[|a.part|..] == b.part && b.part[|a.part|..] + kept == fifo + f
    ensures Fetch(a, b, f) ==> b.image == a.image && Fetched(a.image, a.next, f)
  {
    if Fetch(a, b, f) {
      var d := b.part[|a.part|..];
      Associate(a.delivered, d, kept);
      Associate(a.delivered, fifo, f);
      Cancel(a.delivered, d + kept, fifo + f);
    }
  }

  lemma OutIdle(w: World)
    requires Shaped(w) && |w.dev| <= w.places && (!w.regs.csr.enable || w.regs.next >= w.regs.limit)
    ensures MovedOut(w).0 == if w.regs.csr.enable then w.(regs := Settle(w.regs)) else w
  {
  }

  lemma SameFifo(d: seq<Byte>, f: seq<Byte>, g: seq<Byte>)
    requires d == [] && d + f == g + []
    ensures f == g
  {
    assert g + [] == g && d + f == f;
  }

  /** One memory-to-device transfer. */
  method MoveOut(ch: Channel, mem: Memory, dev: Device)
    requires ch.Outbound() && dev.Valid() && !Misplaced(WorldOut(ch, mem, dev))
    modifies ch, dev`size, dev.data
    ensures ch.Outbound() && dev.Valid() && Shaped(old(WorldOut(ch, mem, dev))) && |old(dev.Filled())| <= old(dev.limit)
    ensures WorldOut(ch, mem, dev) == MovedOut(old(WorldOut(ch, mem, dev))).0
  {
    hide Fetch, Fetched, WholeBursts, Aligned, Open, Window, Device.Filled, Channel.Settled, MovedOut, Settle, Broken;
    OutShaped(ch, mem, dev);
    ghost var w0, a := WorldOut(ch, mem, dev), ch.SnapOut(mem, dev);
    var exit; ghost var f;
    exit, f := ch.ReadMemory(mem, dev);
    ghost var b := ch.SnapOut(mem, dev).(next := a.next + |f|);
    OutShaped(ch, mem, dev);
    OutSplit(a, b, f, w0.fifo, ch.Fifo());
    ghost var d, moved := b.part[|a.part|..], w0.regs.(next := w0.regs.next + |f|);
    if !w0.regs.csr.enable || w0.regs.next >= w0.regs.limit {
      OutIdle(w0);
      assert f == [] && |d| == 0;
      SameFifo(d, ch.Fifo(), w0.fifo);
      Ends(w0.dev);
    } else {
      AlignedParts(w0.regs, |f|);
      OutDetermined(w0, exit, f, d, ch.Fifo(), ch.lim);
    }
    if exit != Off && exit != Fault {
      SettledIs(ch, moved);
    } else {
      BrokenIs(moved);
    }
  }

  /** A device that has been drained is loaded again, if the bytes fit. */
  method Load(dev: Device, bytes: seq<Byte>)
    requires dev.Valid()
    modifies dev, dev.data
    ensures dev.Valid()
    ensures dev.Rest() == if old(dev.size) == 0 && |bytes| <= dev.data.Length then bytes else old(dev.Rest())
  {
    if dev.size == 0 && |bytes| <= dev.data.Length {
      forall i | 0 <= i < |bytes| {
        dev.data[i] := bytes[i];
      }
      dev.size, dev.limit := |bytes|, |bytes|;
      assert dev.Rest() == bytes;
    }
  }

  /** The device's owner takes what was filled in and offers room for the next bytes. */
  method Unload(dev: Device, room: nat)
    requires dev.Valid()
    modifies dev
    ensures dev.Valid() && dev.Filled() == [] && dev.limit == if room <= dev.data.Length then room else old(dev.limit)
  {
    dev.size := 0;
    if room <= dev.data.Length {
      dev.limit := room;
    }
  }

  /** Writes to registers and changes of the bus. */
  method Configure(ch: Channel, mem: Memory, e: Event)
    requires ch.Shape() && !e.Serve? && !e.Move?
    modifies ch`next, ch`limit, ch`start, ch`stop, ch`csr, ch`direction, ch`interrupt, ch`size, ch`lim, ch`taken,
             ch`delivered, mem`faults
    ensures ch.size == old(ch.size) && ch.lim == old(ch.lim) && ch.taken == old(ch.taken)
            && ch.delivered == old(ch.delivered)
    ensures RegsOf(ch) == match e
                          case Registers(next, limit, start, stop) => Regs(next, limit, start, stop, old(ch.csr),
                                                                           old(ch.interrupt))
                          case Control(_, _, _, _, _) =>
                            var csr := Commanded(old(ch.csr), e);
                            old(RegsOf(ch)).(csr := csr, line := old(ch.interrupt) && csr.complete)
                          case _ => old(RegsOf(ch))
    ensures mem.faults == if e.Faults? then e.addresses else old(mem.faults)
  {
    match e
    case Registers(next, limit, start, stop) =>
      ch.next, ch.limit, ch.start, ch.stop := next, limit, start, stop;
    case Control(dev2m, reset, setsupdate, setenable, clrcomplete) =>
      ch.CsrWrite(dev2m, Command(reset, false, setsupdate, setenable, clrcomplete));
    case Faults(addresses) => mem.faults := addresses;
    case _ =>
  }

  /** One event of a device-to-memory run. */
  method PlayIn(ch: Channel, mem: Memory, dev: Device, e: Event, ghost r: Ran) returns (aborted: bool)
    requires ch.Inbound() && dev.Valid() && r.world == WorldIn(ch, mem, dev) && !r.aborted && Shaped(r.world)
    modifies ch, mem, dev, dev.data
    ensures ch.Inbound() && dev.Valid()
    ensures aborted == StepIn(r, e).aborted && WorldIn(ch, mem, dev) == StepIn(r, e).world
  {
    hide Window, Aligned, WholeBursts, Device.Rest, MovedIn;
    InShaped(ch, mem, dev);
    aborted := false;
    if e.Serve? {
      Load(dev, e.bytes);
    } else if e.Move? {
      if ch.csr.enable && !(Aligned(ch.next) && WholeBursts(ch.limit)) {
        aborted := true;
      } else {
        MoveIn(ch, mem, dev);
      }
    } else {
      Configure(ch, mem, e);
    }
  }

  /** Every device-to-memory run: the channel, the device and memory end as the script says. */
  method DriveIn(ch: Channel, mem: Memory, dev: Device, script: seq<Event>) returns (aborted: bool)
    requires ch.Inbound() && dev.Valid()
    modifies ch, mem, dev, dev.data
    ensures ch.Inbound() && dev.Valid() && Shaped(old(WorldIn(ch, mem, dev)))
    ensures var r := RunIn(old(WorldIn(ch, mem, dev)), script); aborted == r.aborted && WorldIn(ch, mem, dev) == r.world
  {
    hide StepIn, Shaped, Device.Valid, Window, Device.Rest;
    InShaped(ch, mem, dev);
    ghost var w := WorldIn(ch, mem, dev);
    aborted := false;
    var i := 0;
    while i < |script|
      invariant 0 <= i <= |script| && ch.Inbound() && dev.Valid()
      invariant var r := RunIn(w, script[..i]); aborted == r.aborted && WorldIn(ch, mem, dev) == r.world
    {
      assert script[..i + 1][..i] == script[..i];
      if !aborted {
        aborted := PlayIn(ch, mem, dev, script[i], RunIn(w, script[..i]));
      } else {
        AbortedStays(RunIn(w, script[..i]), script[i]);
      }
      i := i + 1;
    }
    assert script[..i] == script;
  }

  /** One event of a memory-to-device run. */
  method PlayOut(ch: Channel, mem: Memory, dev: Device, e: Event, ghost r: Ran) returns (aborted: bool)
    requires ch.Outbound() && dev.Valid() && r.world == WorldOut(ch, mem, dev) && !r.aborted && Shaped(r.world)
    modifies ch, mem`faults, dev, dev.data
    ensures ch.Outbound() && dev.Valid() && |r.world.dev| <= r.world.places
    ensures aborted == StepOut(r, e).aborted && WorldOut(ch, mem, dev) == StepOut(r, e).world
  {
    hide Window, Aligned, WholeBursts, Device.Filled, MovedOut;
    OutShaped(ch, mem, dev);
    aborted := false;
    if e.Serve? {
      Unload(dev, |e.bytes|);
    } else if e.Move? {
      if ch.csr.enable && !(Aligned(ch.next) && WholeBursts(ch.limit)) {
        aborted := true;
      } else {
        MoveOut(ch, mem, dev);
      }
    } else {
      Configure(ch, mem, e);
    }
  }

  /** Every memory-to-device run: the channel, the device and memory end as the script says. */
  method DriveOut(ch: Channel, mem: Memory, dev: Device, script: seq<Event>) returns (aborted: bool)
    requires ch.Outbound() && dev.Valid()
    modifies ch, mem`faults, dev, dev.data
    ensures ch.Outbound() && dev.Valid() && Shaped(old(WorldOut(ch, mem, dev))) && |old(dev.Filled())| <= old(dev.limit)
    ensures var r := RunOut(old(WorldOut(ch, mem, dev)), script);
            aborted == r.aborted && WorldOut(ch, mem, dev) == r.world
  {
    hide StepOut, Shaped, Device.Valid, Window, Device.Filled;
    OutShaped(ch, mem, dev);
    ghost var w := WorldOut(ch, mem, dev);
    aborted := false;
    var i := 0;
    while i < |script|
      invariant 0 <= i <= |script| && ch.Outbound() && dev.Valid()
      invariant var r := RunOut(w, script[..i]); aborted == r.aborted && WorldOut(ch, mem, dev) == r.world
    {
      assert script[..i + 1][..i] == script[..i];
      if !aborted {
        aborted := PlayOut(ch, mem, dev, script[i], RunOut(w, script[..i]));
      } else {
        AbortedStays(RunOut(w, script[..i]), script[i]);
      }
      i := i + 1;
    }
    assert script[..i] == script;
  }

  lemma AbortedStays(r: Ran, e: Event)
    requires Shaped(r.world) && r.aborted
    ensures StepIn(r, e) == r && (|r.world.dev| <= r.world.places ==> StepOut(r, e) == r)
  {
  }
}
