/** The SCSI branch of dma_esp_write_memory: the channel takes its bytes from the controller, which
    takes them from the target. */
module DmaScsi {
  import opened Bytes
  import opened Scsi
  import opened Esp
  import opened Dma

  /** Controller and channel are separate, and the controller is in the middle of a READ. */
  ghost predicate Joined(ch: Channel, esp: Controller)
    reads ch, esp, esp.target, esp.fifo, esp.target.data
  {
    ch.Inbound() && esp.Valid() && esp.Balanced() && esp.Live()
  }

  /** One byte from the controller into the FIFO. */
  method TakeByte(ch: Channel, esp: Controller)
    requires ch.Shape() && ch.lim < BURST && esp.Valid() && esp.Balanced() && esp.Live() && esp.SendReady()
    modifies ch`buf, ch`size, ch`lim, ch`taken, esp`flags, esp`counter, esp`exchanged, esp.fifo, esp.target`phase,
             esp.target`size, esp.target`limit, esp.target`lba, esp.target`counter, esp.target`status, esp.target`sense,
             esp.target.data
    ensures ch.Shape() && ch.lim == old(ch.lim) + 1 && ch.size == old(ch.size) + 1
    ensures esp.Valid() && esp.Balanced() && esp.Live() && esp.loaded == old(esp.loaded)
            && esp.counter + esp.flags < old(esp.counter + esp.flags)
    ensures |ch.taken| == |old(ch.taken)| + 1 && ch.Fifo() == old(ch.Fifo()) + ch.taken[|old(ch.taken)|..]
    ensures old(ch.taken) <= ch.taken && ch.taken + esp.Pending() == old(ch.taken + esp.Pending())
            && esp.Beyond() == old(esp.Beyond())
  {
    hide Target.Due, Controller.Live, After;
    var v := esp.SendPending();
    Associate(ch.taken, [v], esp.Pending());
    ch.buf := ch.buf[ch.lim := v];
    ch.lim, ch.size := ch.lim + 1, ch.size + 1;
    ch.taken := ch.taken + [v];
    assert ch.taken[|old(ch.taken)|..] == [v];
  }

  /** Top up the FIFO unless it is full already. */
  method FillFromController(ch: Channel, esp: Controller)
    requires Joined(ch, esp)
    modifies ch`buf, ch`size, ch`lim, ch`taken, esp`flags, esp`counter, esp`exchanged, esp.fifo, esp.target`phase,
             esp.target`size, esp.target`limit, esp.target`lba, esp.target`counter, esp.target`status, esp.target`sense,
             esp.target.data
    ensures Joined(ch, esp) && esp.loaded == old(esp.loaded) && esp.Beyond() == old(esp.Beyond())
            && (ch.lim == BURST || esp.Pending() == [])
    ensures old(ch.taken) <= ch.taken && ch.taken + esp.Pending() == old(ch.taken + esp.Pending())
    ensures old(ch.lim) <= ch.lim <= BURST
            && (ch.lim == BURST ==> 0 < ch.size == if old(ch.lim) == BURST then old(ch.size) else BURST)
    ensures esp.counter + esp.flags <= old(esp.counter + esp.flags) && ch.size - old(ch.size) == ch.lim - old(ch.lim)
    ensures ch.lim > old(ch.lim) ==> esp.counter + esp.flags < old(esp.counter + esp.flags)
  {
    hide Target.Due, Controller.Live, Controller.Pending, Controller.Balanced, Controller.Beyond, Controller.Valid,
         Aligned, Window;
    AlignedBurst();
    while ch.lim < BURST && esp.SendReady()
      invariant Joined(ch, esp) && esp.loaded == old(esp.loaded) && esp.Beyond() == old(esp.Beyond())
      invariant old(ch.taken) <= ch.taken && ch.taken + esp.Pending() == old(ch.taken + esp.Pending())
      invariant old(ch.lim) <= ch.lim <= BURST && ch.size - old(ch.size) == ch.lim - old(ch.lim)
      invariant esp.counter + esp.flags <= old(esp.counter + esp.flags)
      invariant ch.lim > old(ch.lim) ==> esp.counter + esp.flags < old(esp.counter + esp.flags) && ch.size == ch.lim
      decreases esp.counter + esp.flags
    {
      ghost var fifo, was := ch.Fifo(), ch.taken;
      TakeByte(ch, esp);
      Flow(ch.delivered, fifo, was, ch.taken);
    }
    if ch.lim < BURST {
      esp.PendingGone();
    }
  }

  lemma Flow(delivered: seq<Byte>, fifo: seq<Byte>, was: seq<Byte>, now: seq<Byte>)
    requires delivered + fifo == was <= now
    ensures delivered + (fifo + now[|was|..]) == now
  {
    assert now == was + now[|was|..];
    Associate(delivered, fifo, now[|was|..]);
  }

  /** One round; Done means that the loop goes on. */
  method Round(ch: Channel, mem: Memory, esp: Controller) returns (exit: Exit, ghost v: seq<Byte>)
    requires Joined(ch, esp) && Aligned(ch.next) && Aligned(ch.limit) && ch.next <= ch.limit
    modifies ch`buf, ch`size, ch`lim, ch`next, ch`taken, ch`delivered, mem`bytes, esp`flags, esp`counter, esp`exchanged,
             esp.fifo, esp.target`phase, esp.target`size, esp.target`limit, esp.target`lba, esp.target`counter,
             esp.target`status, esp.target`sense, esp.target.data
    ensures Joined(ch, esp) && esp.loaded == old(esp.loaded) && esp.Beyond() == old(esp.Beyond()) && Aligned(ch.next)
            && ch.next == old(ch.next) + |v| <= ch.limit
    ensures ch.delivered == old(ch.delivered) + v && Dma.Stored(old(mem.bytes), mem.bytes, old(ch.next), v)
    ensures ch.taken + esp.Pending() == old(ch.taken + esp.Pending())
    ensures match exit
            case Off => false
            case Done => ch.lim == 0 && |v| == (if old(ch.lim) == BURST then old(ch.size) else BURST)
                         && esp.counter + esp.flags + ch.size < old(esp.counter + esp.flags + ch.size)
            case Starved => esp.Pending() == [] && ch.lim < BURST && v == [] && old(ch.lim) < BURST
            case Blocked => ch.next == ch.limit && ch.lim == BURST
            case Fault => ch.lim == BURST && ch.next < ch.limit && !mem.Reachable(ch.next, 4)
    ensures ch.lim == BURST ==> |v| + ch.size == if old(ch.lim) == BURST then old(ch.size) else BURST
    ensures Open(|old(mem.bytes)|, mem.faults, old(ch.next), |v|) && |mem.bytes| == |old(mem.bytes)|
  {
    hide Dma.Stored, Overwrite, Aligned, Memory.Reachable, Channel.Flowing, Channel.Fifo, Channel.Inbound,
         Channel.Shape, Controller.Live, Controller.Pending, Controller.Beyond, Controller.Balanced, Controller.Valid,
         Open;
    OpenNone(|mem.bytes|, mem.faults, ch.next);
    FillFromController(ch, esp);
    if ch.lim < BURST {
      exit, v := Starved, [];
      StoredNothing(mem.bytes, ch.next);
      TakeNothing(ch.delivered, []);
    } else {
      var ok;
      ok, v := ch.DrainToMemory(mem);
      exit := if !ok then Fault else if ch.size > 0 then Blocked else Done;
    }
  }

  /** The TRY block. */
  method Move(ch: Channel, mem: Memory, esp: Controller) returns (exit: Exit, ghost w: seq<Byte>)
    requires Joined(ch, esp) && Aligned(ch.next) && Aligned(ch.limit)
    modifies ch`buf, ch`size, ch`lim, ch`next, ch`taken, ch`delivered, mem`bytes, esp`flags, esp`counter, esp`exchanged,
             esp.fifo, esp.target`phase, esp.target`size, esp.target`limit, esp.target`lba, esp.target`counter,
             esp.target`status, esp.target`sense, esp.target.data
    ensures Joined(ch, esp) && esp.loaded == old(esp.loaded) && esp.Beyond() == old(esp.Beyond()) && Aligned(ch.next)
    ensures ch.next == old(ch.next) + |w| && (w == [] || ch.next <= ch.limit)
    ensures ch.delivered == old(ch.delivered) + w && Dma.Stored(old(mem.bytes), mem.bytes, old(ch.next), w)
    ensures ch.taken + esp.Pending() == old(ch.taken + esp.Pending())
    ensures match exit
            case Off => false
            case Done => ch.next > ch.limit && w == [] && ch.size == old(ch.size) && ch.lim == old(ch.lim)
            case Starved => esp.Pending() == [] && ch.lim < BURST && ch.next <= ch.limit
                            && WholeBursts(|w| - old(ch.Pending())) && old(ch.Pending()) <= |w|
            case Blocked => ch.next == ch.limit && ch.lim == BURST
            case Fault => ch.lim == BURST && ch.next < ch.limit && !mem.Reachable(ch.next, 4)
    ensures exit == Blocked || exit == Fault ==> WholeBursts(|w| + ch.size - old(ch.Pending()))
    ensures Open(|old(mem.bytes)|, mem.faults, old(ch.next), |w|) && |mem.bytes| == |old(mem.bytes)|
  {
    hide Dma.Stored, Overwrite, Aligned, WholeBursts, Memory.Reachable, Channel.Flowing, Channel.Fifo, Channel.Inbound,
         Channel.Shape, Controller.Live, Controller.Pending, Controller.Beyond, Controller.Balanced, Controller.Valid,
         Open;
    OpenNone(|mem.bytes|, mem.faults, ch.next);
    AlignedAdd(0, 4);
    ghost var image, lo, sent, pending := mem.bytes, ch.next, ch.delivered, ch.Pending();
    exit, w := Done, [];
    StoredNothing(image, lo);
    TakeNothing(ch.delivered, []);
    WholeBurstsStep(0);
    while ch.next <= ch.limit
      invariant Joined(ch, esp) && esp.loaded == old(esp.loaded) && esp.Beyond() == old(esp.Beyond())
                && Aligned(ch.next)
      invariant ch.next == lo + |w| && (w == [] || ch.next <= ch.limit) && exit == Done
      invariant ch.delivered == sent + w && Dma.Stored(image, mem.bytes, lo, w)
      invariant ch.taken + esp.Pending() == old(ch.taken + esp.Pending())
      invariant if ch.lim == BURST then w == [] && ch.size == pending
                else WholeBursts(|w| - pending) && (w == [] || ch.lim == 0) && pending <= |w|
      invariant Open(|image|, mem.faults, lo, |w|) && |mem.bytes| == |image| && Aligned(|w|)
      invariant lo <= ch.limit || (w == [] && ch.size == old(ch.size) && ch.lim == old(ch.lim))
      decreases esp.counter + esp.flags + ch.size
    {
      ghost var mid, was, here := mem.bytes, |w|, ch.next;
      ghost var v;
      exit, v := Round(ch, mem, esp);
      OpenNext(|image|, mem.faults, lo, |w|, |v|);
      AlignedSum(here, |v|);
      AlignedAdd(|w|, |v|);
      StoredNext(image, mid, mem.bytes, lo, w, v);
      Associate(sent, w, v);
      WholeBurstsStep(was - pending);
      w := w + v;
      if exit != Done {
        break;
      }
    }
  }

  /** dma_esp_write_memory with the SCSI controller selected. */
  method WriteMemory(ch: Channel, mem: Memory, esp: Controller) returns (exit: Exit, ghost w: seq<Byte>)
    requires Joined(ch, esp) && (ch.csr.enable ==> Aligned(ch.next) && WholeBursts(ch.limit))
    modifies ch, mem`bytes, esp`flags, esp`counter, esp`exchanged, esp.fifo, esp.target`phase, esp.target`size,
             esp.target`limit, esp.target`lba, esp.target`counter, esp.target`status, esp.target`sense, esp.target.data
    ensures Joined(ch, esp) && esp.loaded == old(esp.loaded) && esp.Beyond() == old(esp.Beyond())
    ensures ch.start == old(ch.start) && ch.stop == old(ch.stop)
    ensures ch.delivered == old(ch.delivered) + w && Dma.Stored(old(mem.bytes), mem.bytes, old(ch.next), w)
    ensures w == [] || old(ch.next) + |w| <= old(ch.limit)
    ensures ch.taken + esp.Pending() == old(ch.taken + esp.Pending())
    ensures exit == Off <==> !old(ch.csr.enable)
    ensures exit != Off && exit != Fault ==> ch.Settled(old(ch.next) + |w|, old(ch.limit), old(ch.csr))
    ensures ch.interrupt == (old(ch.interrupt) || (exit != Off && ch.csr.complete))
    ensures match exit
            case Off => w == [] && ch.csr == old(ch.csr) && ch.next == old(ch.next) && ch.limit == old(ch.limit)
                        && ch.size == old(ch.size) && ch.lim == old(ch.lim)
            case Done => old(ch.next) > old(ch.limit) && w == [] && ch.size == old(ch.size) && ch.lim == old(ch.lim)
            case Starved => esp.Pending() == [] && ch.lim < BURST && old(ch.next) + |w| <= old(ch.limit)
                            && WholeBursts(|w| - old(ch.Pending())) && old(ch.Pending()) <= |w|
            case Blocked => old(ch.next) + |w| == old(ch.limit) && ch.lim == BURST
            case Fault => ch.lim == BURST && Aligned(ch.next)
                          && ch.next == old(ch.next) + |w| < ch.limit == old(ch.limit)
                          && !mem.Reachable(ch.next, 4) && ch.csr == Csr(false, old(ch.csr.supdate), true, true)
    ensures exit == Blocked || exit == Fault ==> WholeBursts(|w| + ch.size - old(ch.Pending()))
    ensures Open(|old(mem.bytes)|, mem.faults, old(ch.next), |w|) && |mem.bytes| == |old(mem.bytes)|
    ensures exit != Off ==> Aligned(old(ch.next) + |w|)
  {
    hide Dma.Stored, Overwrite, Aligned, WholeBursts, Memory.Reachable, Window, Controller.Live, Controller.Pending,
         Controller.Beyond, Controller.Balanced, Controller.Valid, Channel.Settled, Open;
    OpenNone(|mem.bytes|, mem.faults, ch.next);
    if !ch.csr.enable {
      exit, w := Off, [];
      StoredNothing(mem.bytes, ch.next);
      TakeNothing(ch.delivered, []);
      return;
    }
    AlignedBurst();
    exit, w := Move(ch, mem, esp);
    ch.Conclude(exit == Fault);
  }

  /** An idle FIFO and an enabled, unfaulted buffer of n bytes. */
  ghost predicate BufferFor(ch: Channel, mem: Memory, n: nat)
    reads ch, mem
  {
    && ch.Inbound() && ch.size == 0 && ch.taken == ch.delivered
    && ch.csr.enable && Aligned(ch.next) && WholeBursts(ch.limit) && WholeBursts(n) && n > 0
    && ch.limit == ch.next + n && Clear(mem, ch.next, n)
  }

  /** However the transfer of n pending bytes into a buffer of n bytes ends, all of them are out. */
  lemma TransferCases(exit: Exit, n: nat, stored: nat, size: nat, lim: nat, pending: nat)
    requires stored + size + pending == n && WholeBursts(n) && if lim < BURST then size == lim else size > 0
    requires exit == Starved || exit == Blocked
    requires exit == Starved ==> pending == 0 && lim < BURST && WholeBursts(stored)
    requires exit == Blocked ==> lim == BURST && stored == n
    ensures size == 0 && pending == 0
  {
  }

  /** What was taken is stored, in the FIFO or still pending. */
  lemma Balance(taken: seq<Byte>, delivered: seq<Byte>, w: seq<Byte>, fifo: seq<Byte>, pending: seq<Byte>,
                all: seq<Byte>)
    requires taken == delivered + w + fifo && taken + pending == delivered + all
    ensures w + fifo + pending == all
  {
    assert delivered + all == delivered + (w + fifo + pending);
    assert all == (delivered + all)[|delivered|..];
    assert w + fifo + pending == (delivered + (w + fifo + pending))[|delivered|..];
  }

  lemma NothingIn(ch: Channel)
    requires ch.Inbound()
    ensures ch.Shape() && ch.delivered + ch.Fifo() == ch.taken && ch.size <= ch.lim <= BURST
    ensures if ch.lim < BURST then ch.size == ch.lim else ch.size > 0
  {
  }

  /** All pending bytes of a READ go to a buffer of their size. */
  method TransferAll(ch: Channel, mem: Memory, esp: Controller)
    requires Joined(ch, esp) && BufferFor(ch, mem, |esp.Pending()|)
    modifies ch, mem`bytes, esp`flags, esp`counter, esp`exchanged, esp.fifo, esp.target`phase, esp.target`size,
             esp.target`limit, esp.target`lba, esp.target`counter, esp.target`status, esp.target`sense, esp.target.data
    ensures Joined(ch, esp) && esp.Pending() == [] && esp.Beyond() == old(esp.Beyond()) && ch.size == 0
    ensures Dma.Stored(old(mem.bytes), mem.bytes, old(ch.next), old(esp.Pending()))
    ensures ch.Settled(old(ch.limit), old(ch.limit), old(ch.csr))
  {
    hide Dma.Stored, Overwrite, Aligned, WholeBursts, Memory.Reachable, Window, Controller.Live, Controller.Pending,
         Controller.Beyond, Controller.Balanced, Controller.Valid, Channel.Settled, Channel.Inbound;
    NothingIn(ch);
    ghost var all, lo, n, had, image := esp.Pending(), ch.next, |esp.Pending()|, ch.delivered, mem.bytes;
    var exit; ghost var w;
    exit, w := WriteMemory(ch, mem, esp);
    NothingIn(ch);
    Balance(ch.taken, had, w, ch.Fifo(), esp.Pending(), all);
    StoredLength(image, mem.bytes, lo, w);
    LongWordClear(mem, lo, n, |w|);
    TransferCases(exit, n, |w|, ch.size, ch.lim, |esp.Pending()|);
    TakeNothing(w, []);
  }

  /** A READ by one DMA transfer with a count and a buffer of the right size: memory holds the blocks
      in order, the target is in the status phase, and the channel is at its limit. */
  method ReadToMemory(ch: Channel, mem: Memory, esp: Controller, cdb: seq<nat>, low: nat, high: nat)
    requires esp.Valid() && esp.flags == 0 && IsCdb(cdb) && low < 256 && high < 256
    requires var n := |Stream(esp.target.View(), Offset(cdb), Count(cdb))|;
             BufferFor(ch, mem, n) && n <= 65536 && n % 65536 == high * 256 + low
    modifies ch, mem`bytes, esp, esp.fifo, esp.target`phase, esp.target`size, esp.target`limit, esp.target`lba,
             esp.target`lastLba, esp.target`counter, esp.target`status, esp.target`sense, esp.target`disk,
             esp.target.data
    ensures esp.Valid() && esp.target.phase == StatusPhase && ch.Settled(old(ch.limit), old(ch.limit), old(ch.csr))
    ensures Dma.Stored(old(mem.bytes), mem.bytes, old(ch.next), Stream(esp.target.View(), Offset(cdb), Count(cdb)))
  {
    hide Dma.Stored, Overwrite, Aligned, WholeBursts, Memory.Reachable, Channel.Settled, Channel.Inbound, Stream,
         Overlay, Offset, Count, Target.Due, Target.Shape;
    ghost var all := Stream(esp.target.View(), Offset(cdb), Count(cdb));
    esp.target.ReadSector(cdb);
    esp.LoadCounter(low, high);
    Whole(esp.Contents(), all, esp.counter);
    TransferAll(ch, mem, esp);
    esp.AllSent();
  }

  lemma Whole(contents: seq<Byte>, s: seq<Byte>, n: nat)
    requires contents == [] && n == |s|
    ensures contents + First(s, n) == s && After(s, n) == []
  {
  }
}
