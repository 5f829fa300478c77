/** Runs of the SCSI channel in the middle of a READ: any sequence of transfers, register writes,
    chained buffers and faults, with the controller in the place of a device. */
module DmaScsiRuns {
  import opened Bytes
  import opened Esp
  import opened Dma
  import opened DmaModel
  import opened DmaRuns
  import opened DmaDriver
  import DmaScsi

  /** The world whose device holds the pending bytes of the READ. */
  ghost function WorldScsi(ch: Channel, mem: Memory, esp: Controller): (w: World)
    reads ch, mem, esp, esp.fifo, esp.target, esp.target.data
    requires ch.Shape() && esp.Valid()
  {
    World(RegsOf(ch), ch.Fifo(), ch.lim, esp.Pending(), 0, 0, mem.bytes, mem.faults)
  }

  lemma ScsiShaped(ch: Channel, mem: Memory, esp: Controller)
    requires DmaScsi.Joined(ch, esp)
    ensures ch.Shape() && esp.Valid() && Shaped(WorldScsi(ch, mem, esp)) && ch.delivered + ch.Fifo() == ch.taken
  {
  }

  /** What is stored, kept and pending is what was available. */
  lemma Split(taken: seq<Byte>, now: seq<Byte>, d: seq<Byte>, w: seq<Byte>, fifo: seq<Byte>, kept: seq<Byte>,
              p: seq<Byte>, q: seq<Byte>)
    requires d + fifo == taken && (d + w) + kept == now && now + q == taken + p
    ensures w + kept + q == fifo + p
  {
    assert now + q == d + (w + kept + q);
    assert taken + p == d + (fifo + p);
    Cancel(d, w + kept + q, fifo + p);
  }

  /** One transfer. */
  method Move(ch: Channel, mem: Memory, esp: Controller)
    requires DmaScsi.Joined(ch, esp) && !Misplaced(WorldScsi(ch, mem, esp))
    modifies ch, mem`bytes, esp`flags, esp`counter, esp`exchanged, esp.fifo, esp.target`phase, esp.target`size,
             esp.target`limit, esp.target`lba, esp.target`counter, esp.target`status, esp.target`sense, esp.target.data
    ensures DmaScsi.Joined(ch, esp) && esp.Beyond() == old(esp.Beyond()) && Shaped(old(WorldScsi(ch, mem, esp)))
    ensures WorldScsi(ch, mem, esp) == MovedIn(old(WorldScsi(ch, mem, esp))).0
  {
    hide Dma.Stored, WholeBursts, Aligned, Open, Window, Channel.Settled, MovedIn, Settle, Broken, Put, Controller.Live,
         Controller.Pending, Controller.Beyond, Controller.Balanced, Controller.Valid;
    ScsiShaped(ch, mem, esp);
    ghost var w0, had, taken := WorldScsi(ch, mem, esp), ch.delivered, ch.taken;
    var exit; ghost var w;
    exit, w := DmaScsi.WriteMemory(ch, mem, esp);
    ScsiShaped(ch, mem, esp);
    Split(taken, ch.taken, had, w, w0.fifo, ch.Fifo(), w0.dev, esp.Pending());
    StoredIsPut(w0.image, mem.bytes, w0.regs.next, w);
    ghost var moved := w0.regs.(next := w0.regs.next + |w|);
    if exit == Off || exit == Done {
      SameParts(ch.Fifo(), esp.Pending(), w0.fifo, w0.dev);
      InIdle(w0);
      NothingPut(w0.image, w0.regs.next);
    } else {
      AlignedParts(w0.regs, |w|);
      InDetermined(w0, exit, w, ch.Fifo(), ch.lim, esp.Pending());
    }
    if exit != Off && exit != Fault {
      SettledIs(ch, moved);
    } else {
      BrokenIs(moved);
    }
  }

  /** One event of a run. */
  method Play(ch: Channel, mem: Memory, esp: Controller, e: Event, ghost r: Ran) returns (aborted: bool)
    requires DmaScsi.Joined(ch, esp) && r.world == WorldScsi(ch, mem, esp) && !r.aborted && Shaped(r.world)
    modifies ch, mem, esp`flags, esp`counter, esp`exchanged, esp.fifo, esp.target`phase, esp.target`size,
             esp.target`limit, esp.target`lba, esp.target`counter, esp.target`status, esp.target`sense, esp.target.data
    ensures DmaScsi.Joined(ch, esp) && esp.Beyond() == old(esp.Beyond())
    ensures aborted == StepIn(r, e).aborted && WorldScsi(ch, mem, esp) == StepIn(r, e).world
  {
    hide Window, Aligned, WholeBursts, MovedIn, Controller.Live, Controller.Pending, Controller.Beyond,
         Controller.Balanced, Controller.Valid;
    aborted := false;
    if e.Serve? {
    } else if e.Move? {
      if ch.csr.enable && !(Aligned(ch.next) && WholeBursts(ch.limit)) {
        aborted := true;
      } else {
        Move(ch, mem, esp);
      }
    } else {
      Configure(ch, mem, e);
    }
  }

  /** Every run in the middle of a READ ends as the script says; by ConservedIn the pending bytes of
      the READ then are in memory, in the FIFO or still pending, in order. */
  method Drive(ch: Channel, mem: Memory, esp: Controller, script: seq<Event>) returns (aborted: bool)
    requires DmaScsi.Joined(ch, esp)
    modifies ch, mem, esp`flags, esp`counter, esp`exchanged, esp.fifo, esp.target`phase, esp.target`size,
             esp.target`limit, esp.target`lba, esp.target`counter, esp.target`status, esp.target`sense, esp.target.data
    ensures DmaScsi.Joined(ch, esp) && esp.Beyond() == old(esp.Beyond()) && Shaped(old(WorldScsi(ch, mem, esp)))
    ensures var r := RunIn(old(WorldScsi(ch, mem, esp)), script);
            aborted == r.aborted && WorldScsi(ch, mem, esp) == r.world
  {
    hide StepIn, Shaped, Window, Controller.Live, Controller.Pending, Controller.Beyond, Controller.Balanced,
         Controller.Valid;
    ScsiShaped(ch, mem, esp);
    ghost var w := WorldScsi(ch, mem, esp);
    aborted := false;
    var i := 0;
    while i < |script|
      invariant 0 <= i <= |script| && DmaScsi.Joined(ch, esp) && esp.Beyond() == old(esp.Beyond())
      invariant var r := RunIn(w, script[..i]); aborted == r.aborted && WorldScsi(ch, mem, esp) == r.world
    {
      assert script[..i + 1][..i] == script[..i];
      if !aborted {
        aborted := Play(ch, mem, esp, script[i], RunIn(w, script[..i]));
      } else {
        AbortedStays(RunIn(w, script[..i]), script[i]);
      }
      i := i + 1;
    }
    assert script[..i] == script;
  }

  /** A controller does not get bytes from elsewhere in the middle of a READ. */
  lemma {:induction false} NothingServed(w: World, script: seq<Event>)
    requires Shaped(w) && w.capacity == 0
    ensures RunIn(w, script).stream == [] && RunIn(w, script).world.capacity == 0
  {
    hide MovedIn, Shaped, Misplaced;
    if script != [] {
      var r := RunIn(w, script[..|script| - 1]);
      NothingServed(w, script[..|script| - 1]);
      SameCapacity(r.world);
    }
  }

  lemma SameCapacity(w: World)
    requires Shaped(w)
    ensures MovedIn(w).0.capacity == w.capacity
  {
  }

  /** A READ with any count, fetched by any run of the channel: the stored bytes, those in the FIFO and
      those still pending are together the blocks of the READ as far as the count goes, in order, and
      memory is the old memory with the stores, each inside the buffer programmed at the time. */
  method ReadInTicks(ch: Channel, mem: Memory, esp: Controller, cdb: seq<nat>, low: nat, high: nat, script: seq<Event>)
    returns (aborted: bool)
    requires ch.Inbound() && ch.size == 0 && esp.Valid() && esp.flags == 0 && Scsi.IsCdb(cdb) && low < 256 && high < 256
    modifies ch, mem, esp, esp.fifo, esp.target`phase, esp.target`size, esp.target`limit, esp.target`lba,
             esp.target`lastLba, esp.target`counter, esp.target`status, esp.target`sense, esp.target`disk,
             esp.target.data
    ensures DmaScsi.Joined(ch, esp)
    ensures var w := Begun(old(RegsOf(ch)), old(mem.bytes), old(mem.faults), Wanted(esp.target.View(), cdb, low, high));
            && aborted == RunIn(w, script).aborted && WorldScsi(ch, mem, esp) == RunIn(w, script).world
            && Stream(RunIn(w, script).chunks) + ch.Fifo() + esp.Pending() == w.dev
            && mem.bytes == Replay(old(mem.bytes), RunIn(w, script).chunks)
            && Contained(RunIn(w, script).chunks, |mem.bytes|)
  {
    hide MovedIn, Stream, Replay, Contained, Scsi.Stream, Scsi.Offset, Scsi.Count, Scsi.Overlay, Scsi.Target.Due, First,
         RunIn, Window;
    esp.target.ReadSector(cdb);
    esp.LoadCounter(low, high);
    ghost var w := WorldScsi(ch, mem, esp);
    NoBytes(w.dev);
    assert ch.Fifo() == []
           && w == Begun(old(RegsOf(ch)), old(mem.bytes), old(mem.faults), Wanted(esp.target.View(), cdb, low, high));
    aborted := Drive(ch, mem, esp, script);
    ConservedIn(w, script);
    NothingServed(w, script);
    assert w.fifo + w.dev + [] == w.dev;
  }

  /** An idle FIFO and a controller with these bytes to hand over. */
  function Begun(regs: Regs, image: seq<Byte>, faults: iset<nat>, wanted: seq<Byte>): (w: World)
    ensures Shaped(w)
  {
    World(regs, [], 0, wanted, 0, 0, image, faults)
  }

  /** The blocks of a READ as far as the count goes; zero means the maximum. */
  function Wanted(view: seq<Scsi.Block>, cdb: seq<nat>, low: nat, high: nat): (s: seq<Byte>)
    requires Scsi.IsCdb(cdb)
  {
    First(Scsi.Stream(view, Scsi.Offset(cdb), Scsi.Count(cdb)), if low == high == 0 then 65536 else high * 256 + low)
  }
}
