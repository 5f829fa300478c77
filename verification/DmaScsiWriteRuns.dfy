/** Runs of the SCSI channel in the middle of a WRITE: any sequence of transfers, register writes,
    chained buffers and faults, with the controller in the place of a device. */
module DmaScsiWriteRuns {
  import opened Bytes
  import opened Esp
  import opened Dma
  import opened DmaModel
  import opened DmaRuns
  import opened DmaDriver
  import opened DmaScsiWrite

  /** How many bytes the target takes in all, as far as the count goes. */
  ghost function Places(esp: Controller): (n: nat)
    reads esp, esp.target
  {
    Least(esp.counter + |esp.given|, Scsi.Demand(esp.op) * esp.target.blockSize)
  }

  /** The world whose device holds what the target was given since the WRITE began. */
  ghost function WorldWrite(ch: Channel, mem: Memory, esp: Controller): (w: World)
    reads ch, mem, esp, esp.target
    requires ch.Shape()
  {
    World(RegsOf(ch), ch.Fifo(), ch.lim, esp.given, Places(esp), 0, mem.bytes, mem.faults)
  }

  lemma WriteShaped(ch: Channel, mem: Memory, esp: Controller)
    requires Joined(ch, esp)
    ensures ch.Shape() && Shaped(WorldWrite(ch, mem, esp)) && ch.delivered + ch.Fifo() == ch.taken
    ensures |esp.given| <= Places(esp) && (esp.dma && !esp.ReceiveReady() ==> |esp.given| == Places(esp))
  {
    WriteEnds(esp.target, esp.op, esp.given, esp.blocks);
  }

  /** The places depend on the count and the WRITE only. */
  lemma PlacesOf(esp: Controller, op: Scsi.WriteOp, sum: nat)
    requires esp.op == op && esp.counter + |esp.given| == sum
    ensures Places(esp) == Least(sum, Scsi.Demand(op) * esp.target.blockSize)
  {
  }

  /** What is given and kept is what was there and what was fetched. */
  lemma Split(sent: seq<Byte>, fifo: seq<Byte>, d: seq<Byte>, kept: seq<Byte>, f: seq<Byte>)
    requires (sent + d) + kept == (sent + fifo) + f
    ensures d + kept == fifo + f
  {
    Associate(sent, d, kept);
    Associate(sent, fifo, f);
    Cancel(sent, d + kept, fifo + f);
  }

  /** One transfer. */
  method Move(ch: Channel, mem: Memory, esp: Controller)
    requires Joined(ch, esp) && esp.dma && ch.Shape() && !Misplaced(WorldWrite(ch, mem, esp))
    modifies ch, esp`counter, esp`exchanged, esp`given, esp`blocks, esp.target`image, esp.target`shadow,
             esp.target`phase, esp.target`size, esp.target`limit, esp.target`lba, esp.target`counter, esp.target`status,
             esp.target`sense, esp.target.data
    ensures Joined(ch, esp) && esp.op == old(esp.op) && Shaped(old(WorldWrite(ch, mem, esp)))
    ensures |old(esp.given)| <= old(Places(esp))
            && WorldWrite(ch, mem, esp) == MovedOut(old(WorldWrite(ch, mem, esp))).0
  {
    hide Fetched, WholeBursts, Aligned, Open, Window, Channel.Settled, MovedOut, Settle, Broken, Places, Joined,
         Controller.InWrite, Controller.Balanced, Controller.Valid;
    WriteShaped(ch, mem, esp);
    ghost var w0, sent, sum := WorldWrite(ch, mem, esp), ch.delivered, esp.counter + |esp.given|;
    PlacesOf(esp, esp.op, sum);
    var exit; ghost var f;
    exit, f := ReadMemory(ch, mem, esp);
    WriteShaped(ch, mem, esp);
    PlacesOf(esp, esp.op, sum);
    ghost var d, moved := esp.given[|w0.dev|..], w0.regs.(next := w0.regs.next + |f|);
    assert w0.dev + d == esp.given;
    Split(sent, w0.fifo, d, ch.Fifo(), f);
    if !w0.regs.csr.enable || w0.regs.next >= w0.regs.limit {
      OutIdle(w0);
      SameFifo(d, ch.Fifo(), w0.fifo);
      Ends(w0.dev);
    } else {
      AlignedParts(w0.regs, |f|);
      OutDetermined(w0, exit, f, d, ch.Fifo(), ch.lim);
    }
    if exit != Off && exit != Fault {
      SettledIs(ch, moved);
    } else {
      BrokenIs(moved);
    }
  }

  /** One event of a run. */
  method Play(ch: Channel, mem: Memory, esp: Controller, e: Event, ghost r: Ran) returns (aborted: bool)
    requires Joined(ch, esp) && esp.dma && ch.Shape() && r.world == WorldWrite(ch, mem, esp) && !r.aborted
             && Shaped(r.world) && !e.Serve?
    modifies ch, mem`faults, esp`counter, esp`exchanged, esp`given, esp`blocks, esp.target`image, esp.target`shadow,
             esp.target`phase, esp.target`size, esp.target`limit, esp.target`lba, esp.target`counter, esp.target`status,
             esp.target`sense, esp.target.data
    ensures Joined(ch, esp) && esp.op == old(esp.op) && |r.world.dev| <= r.world.places
    ensures aborted == StepOut(r, e).aborted && WorldWrite(ch, mem, esp) == StepOut(r, e).world
  {
    hide Window, Aligned, WholeBursts, MovedOut, Places, Controller.InWrite, Controller.Balanced, Controller.Valid;
    WriteShaped(ch, mem, esp);
    aborted := false;
    if e.Move? {
      if ch.csr.enable && !(Aligned(ch.next) && WholeBursts(ch.limit)) {
        aborted := true;
      } else {
        Move(ch, mem, esp);
      }
    } else {
      Configure(ch, mem, e);
    }
  }

  /** Every run in the middle of a WRITE ends as the script says. */
  method Drive(ch: Channel, mem: Memory, esp: Controller, script: seq<Event>) returns (aborted: bool)
    requires Joined(ch, esp) && esp.dma && ch.Shape() && forall e <- script :: !e.Serve?
    modifies ch, mem`faults, esp`counter, esp`exchanged, esp`given, esp`blocks, esp.target`image, esp.target`shadow,
             esp.target`phase, esp.target`size, esp.target`limit, esp.target`lba, esp.target`counter, esp.target`status,
             esp.target`sense, esp.target.data
    ensures Joined(ch, esp) && esp.op == old(esp.op) && Shaped(old(WorldWrite(ch, mem, esp)))
            && |old(esp.given)| <= old(Places(esp))
    ensures var r := RunOut(old(WorldWrite(ch, mem, esp)), script);
            aborted == r.aborted && WorldWrite(ch, mem, esp) == r.world
  {
    hide StepOut, Shaped, Window, Places, Controller.InWrite, Controller.Balanced, Controller.Valid;
    WriteShaped(ch, mem, esp);
    ghost var w := WorldWrite(ch, mem, esp);
    aborted := false;
    var i := 0;
    while i < |script|
      invariant 0 <= i <= |script| && Joined(ch, esp) && esp.op == old(esp.op)
      invariant var r := RunOut(w, script[..i]); aborted == r.aborted && WorldWrite(ch, mem, esp) == r.world
    {
      assert script[..i + 1][..i] == script[..i];
      assert script[i] in script;
      if !aborted {
        aborted := Play(ch, mem, esp, script[i], RunOut(w, script[..i]));
      } else {
        AbortedStays(RunOut(w, script[..i]), script[i]);
      }
      i := i + 1;
    }
    assert script[..i] == script;
  }

  /** Nothing is taken away from the target. */
  lemma {:induction false} NothingUnloaded(w: World, script: seq<Event>)
    requires Shaped(w) && |w.dev| <= w.places && forall e <- script :: !e.Serve?
    ensures RunOut(w, script).stream == []
  {
    hide MovedOut, Shaped, Misplaced;
    if script != [] {
      assert script[|script| - 1] in script;
      NothingUnloaded(w, script[..|script| - 1]);
    }
  }

  /** An idle FIFO and a controller that takes so many bytes. */
  function Begun(regs: Regs, image: seq<Byte>, faults: iset<nat>, places: nat): (w: World)
    ensures Shaped(w)
  {
    World(regs, [], 0, [], places, 0, image, faults)
  }

  /** The bytes a WRITE takes as far as the count goes; zero means the maximum. */
  function Accepted(op: Scsi.WriteOp, bs: nat, low: nat, high: nat): (n: nat)
  {
    Least(if low == high == 0 then 65536 else high * 256 + low, Scsi.Demand(op) * bs)
  }

  /** A WRITE with any count, supplied by any run of the channel: what the target was given and what is
      in the FIFO are together, in order, what was read from memory, each chunk from inside the buffer
      programmed at the time; the complete blocks among the bytes given are those that landed on the
      disk, and the target is in the status phase exactly when it has all it takes. */
  method WriteInTicks(ch: Channel, mem: Memory, esp: Controller, cdb: seq<nat>, low: nat, high: nat, script: seq<Event>)
    returns (aborted: bool)
    requires ch.Outbound() && ch.size == 0 && esp.Valid() && esp.dma && !esp.target.readonly
    requires Scsi.IsCdb(cdb) && low < 256 && high < 256 && forall e <- script :: !e.Serve?
    modifies ch, mem`faults, esp, esp.target`image, esp.target`shadow, esp.target`phase, esp.target`size,
             esp.target`limit, esp.target`lba, esp.target`lastLba, esp.target`counter, esp.target`status,
             esp.target`sense, esp.target`disk, esp.target.data
    ensures Joined(ch, esp) && ch.Shape()
    ensures var op := Scsi.WriteOp(old(esp.target.View()), old(esp.target.shadow), Scsi.Offset(cdb), Scsi.Count(cdb));
            var w := Begun(old(RegsOf(ch)), mem.bytes, old(mem.faults), Accepted(op, esp.target.blockSize, low, high));
            && esp.op == op && aborted == RunOut(w, script).aborted
            && WorldWrite(ch, mem, esp) == RunOut(w, script).world
            && esp.given + ch.Fifo() == Stream(RunOut(w, script).chunks)
            && ReadFrom(mem.bytes, RunOut(w, script).chunks) && Contained(RunOut(w, script).chunks, |mem.bytes|)
            && Scsi.Landed(op.view, esp.target.View(), op.l, esp.blocks, op.table, esp.target.protect)
            && Scsi.Flat(esp.blocks) <= esp.given
            && (esp.target.phase == Scsi.StatusPhase <==> |esp.given| == Scsi.Demand(op) * esp.target.blockSize)
  {
    hide MovedOut, Stream, ReadFrom, Contained, Scsi.Offset, Scsi.Count, Scsi.Landed, Scsi.Flat, Scsi.Demand, RunOut,
         Window, Scsi.Target.Taking, Scsi.Target.View, Scsi.Target.Shape, Places, Controller.Valid,
         Controller.Balanced;
    BeginWrite(ch, mem, esp, cdb, low, high);
    ghost var w := WorldWrite(ch, mem, esp);
    aborted := Drive(ch, mem, esp, script);
    ConservedOut(w, script);
    NothingUnloaded(w, script);
    OnlyThese(esp.given + ch.Fifo(), Stream(RunOut(w, script).chunks));
    WriteEnds(esp.target, esp.op, esp.given, esp.blocks);
    TakingShows(esp.target, esp.op, esp.given, esp.blocks);
  }

  lemma OnlyThese(s: seq<Byte>, t: seq<Byte>)
    requires [] + s == [] + [] + t
    ensures s == t
  {
    assert [] + s == s && [] + [] + t == t;
  }

  /** The WRITE starts and the count is loaded. */
  method BeginWrite(ch: Channel, mem: Memory, esp: Controller, cdb: seq<nat>, low: nat, high: nat)
    requires ch.Outbound() && ch.size == 0 && esp.Valid() && !esp.target.readonly && Scsi.IsCdb(cdb) && low < 256
             && high < 256
    modifies esp, esp.target`phase, esp.target`size, esp.target`limit, esp.target`lba, esp.target`lastLba,
             esp.target`counter, esp.target`status, esp.target`sense, esp.target`disk
    ensures Joined(ch, esp) && ch.Shape() && esp.dma == old(esp.dma)
    ensures esp.op == Scsi.WriteOp(old(esp.target.View()), old(esp.target.shadow), Scsi.Offset(cdb), Scsi.Count(cdb))
    ensures WorldWrite(ch, mem, esp) ==
                Begun(RegsOf(ch), mem.bytes, mem.faults, Accepted(esp.op, esp.target.blockSize, low, high))
  {
    hide Scsi.Offset, Scsi.Count, Scsi.Overlay, Scsi.Landed, Scsi.Flat, Scsi.Demand, Window, Scsi.Uniform,
         Scsi.Target.Taking, Places;
    EmptyWindow(ch.buf, ch.lim);
    Begin(esp, cdb, low, high);
    PlacesOf(esp, esp.op, esp.counter);
  }
}
