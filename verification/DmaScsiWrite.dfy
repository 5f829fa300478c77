/** The SCSI branch of dma_esp_read_memory: the channel hands its bytes to the controller, which gives
    them to the target. */
module DmaScsiWrite {
  import opened Bytes
  import opened Scsi
  import opened Esp
  import opened Dma

  /** Controller and channel are in the middle of a WRITE. */
  ghost predicate Joined(ch: Channel, esp: Controller)
    reads ch, esp, esp.target, esp.target.data
  {
    ch.Outbound() && esp.Valid() && esp.Balanced() && esp.InWrite()
  }

  /** One byte of the FIFO goes to the target. */
  method GiveByte(ch: Channel, esp: Controller)
    requires ch.Shape() && ch.size > 0 && esp.Valid() && esp.Balanced() && esp.InWrite() && esp.ReceiveReady()
    modifies ch`size, esp`counter, esp`exchanged, esp`given, esp`blocks, esp.target`image, esp.target`shadow,
             esp.target`phase, esp.target`size, esp.target`limit, esp.target`lba, esp.target`counter, esp.target`status,
             esp.target`sense, esp.target.data
    ensures ch.Shape() && ch.size == old(ch.size) - 1 && esp.Valid() && esp.Balanced() && esp.InWrite()
            && esp.op == old(esp.op)
    ensures esp.given + ch.Fifo() == old(esp.given + ch.Fifo()) && |esp.given| == |old(esp.given)| + 1
            && esp.loaded == old(esp.loaded)
    ensures esp.counter == old(esp.counter) - 1 && esp.counter + |esp.given| == old(esp.counter + |esp.given|)
  {
    hide Controller.InWrite, Controller.Balanced, Controller.Valid;
    ghost var fifo, given := ch.Fifo(), esp.given;
    var v := ch.buf[ch.lim - ch.size];
    esp.GiveToTarget(v);
    ch.size := ch.size - 1;
    assert fifo == [v] + ch.Fifo();
    Associate(given, [v], ch.Fifo());
  }

  /** The full FIFO is handed over as far as the target goes. */
  method DrainToController(ch: Channel, esp: Controller)
    requires Joined(ch, esp) && ch.lim == BURST
    modifies ch`size, ch`lim, ch`delivered, esp`counter, esp`exchanged, esp`given, esp`blocks, esp.target`image,
             esp.target`shadow, esp.target`phase, esp.target`size, esp.target`limit, esp.target`lba, esp.target`counter,
             esp.target`status, esp.target`sense, esp.target.data
    ensures Joined(ch, esp) && esp.op == old(esp.op) && esp.loaded == old(esp.loaded) && old(esp.given) <= esp.given
    ensures |esp.given| - |old(esp.given)| == old(ch.size) - ch.size >= 0
            && esp.counter + |esp.given| == old(esp.counter + |esp.given|)
    ensures ch.delivered == old(ch.delivered) + esp.given[|old(esp.given)|..]
    ensures if ch.size == 0 then ch.lim == 0 else ch.lim == BURST && !esp.ReceiveReady()
  {
    hide Controller.InWrite, Controller.Balanced, Controller.Valid, Aligned, Window;
    ghost var given, fifo, sent, taken := esp.given, ch.Fifo(), ch.delivered, ch.taken;
    while ch.size > 0 && esp.ReceiveReady()
      invariant ch.Shape() && ch.lim == BURST && ch.delivered == sent && ch.taken == taken
      invariant esp.Valid() && esp.Balanced() && esp.InWrite() && esp.op == old(esp.op) && esp.loaded == old(esp.loaded)
      invariant esp.given + ch.Fifo() == given + fifo && |esp.given| - |given| == |fifo| - ch.size >= 0
      invariant esp.counter + |esp.given| == old(esp.counter + |esp.given|)
    {
      GiveByte(ch, esp);
    }
    Grown(given, fifo, esp.given, ch.Fifo());
    ghost var d := esp.given[|given|..];
    Associate(sent, d, ch.Fifo());
    ch.delivered := ch.delivered + d;
    if ch.size == 0 {
      EmptyWindow(ch.buf, ch.lim);
      AlignedBurst();
      ch.lim := ch.size;
    }
  }

  lemma Grown(given: seq<Byte>, fifo: seq<Byte>, now: seq<Byte>, rest: seq<Byte>)
    requires now + rest == given + fifo && |given| <= |now|
    ensures given <= now && now[|given|..] + rest == fifo
  {
    assert (now + rest)[..|given|] == given && (now + rest)[..|given|] == now[..|given|];
    assert (now + rest)[|given|..] == fifo && (now + rest)[|given|..] == now[|given|..] + rest;
  }

  /** One round; Done means that the loop goes on. */
  method Round(ch: Channel, mem: Memory, esp: Controller) returns (exit: Exit, ghost f: seq<Byte>)
    requires Joined(ch, esp) && Aligned(ch.next) && Aligned(ch.limit) && ch.next <= ch.limit
    modifies ch`buf, ch`size, ch`lim, ch`next, ch`taken, ch`delivered, esp`counter, esp`exchanged, esp`given,
             esp`blocks, esp.target`image, esp.target`shadow, esp.target`phase, esp.target`size, esp.target`limit,
             esp.target`lba, esp.target`counter, esp.target`status, esp.target`sense, esp.target.data
    ensures Joined(ch, esp) && esp.op == old(esp.op) && esp.loaded == old(esp.loaded) && old(esp.given) <= esp.given
    ensures esp.counter + |esp.given| == old(esp.counter + |esp.given|)
    ensures Aligned(ch.next) && ch.next == old(ch.next) + |f| <= ch.limit
    ensures Fetched(mem.bytes, old(ch.next), f) && ch.taken == old(ch.taken) + f
    ensures ch.delivered == old(ch.delivered) + esp.given[|old(esp.given)|..]
    ensures match exit
            case Off => false
            case Done => ch.lim == 0
                         && |esp.given| - |old(esp.given)| == if old(ch.lim) == BURST then old(ch.size) else BURST
            case Starved => ch.next == ch.limit && ch.lim < BURST && old(ch.lim) < BURST && esp.given == old(esp.given)
            case Blocked => !esp.ReceiveReady() && ch.lim == BURST
            case Fault => ch.next < ch.limit && ch.lim < BURST && old(ch.lim) < BURST && esp.given == old(esp.given)
                          && !mem.Reachable(ch.next, 4)
    ensures old(ch.lim) < BURST && old(ch.next) < ch.limit && exit == Done ==> old(ch.next) < ch.next
    ensures ch.lim == BURST ==>
              |esp.given| - |old(esp.given)| + ch.size == if old(ch.lim) == BURST then old(ch.size) else BURST
    ensures Open(|mem.bytes|, mem.faults, old(ch.next), |f|) && Aligned(|f|)
  {
    hide Controller.InWrite, Controller.Balanced, Controller.Valid, Aligned, Fetched, Memory.Reachable, Channel.Flowing,
         Channel.Fifo, Channel.Outbound, Channel.Shape, Open;
    var ok;
    ok, f := ch.FillFromMemory(mem);
    if ch.lim < BURST {
      exit := if ok then Starved else Fault;
      NothingLeft(esp.given);
      NothingLeft(ch.delivered);
    } else {
      DrainToController(ch, esp);
      exit := if ch.size > 0 then Blocked else Done;
    }
  }

  /** The TRY block. */
  method Move(ch: Channel, mem: Memory, esp: Controller) returns (exit: Exit, ghost f: seq<Byte>)
    requires Joined(ch, esp) && Aligned(ch.next) && Aligned(ch.limit)
    modifies ch`buf, ch`size, ch`lim, ch`next, ch`taken, ch`delivered, esp`counter, esp`exchanged, esp`given,
             esp`blocks, esp.target`image, esp.target`shadow, esp.target`phase, esp.target`size, esp.target`limit,
             esp.target`lba, esp.target`counter, esp.target`status, esp.target`sense, esp.target.data
    ensures Joined(ch, esp) && esp.op == old(esp.op) && esp.loaded == old(esp.loaded) && old(esp.given) <= esp.given
    ensures esp.counter + |esp.given| == old(esp.counter + |esp.given|)
    ensures Aligned(ch.next) && ch.next == old(ch.next) + |f| && (f == [] || ch.next <= ch.limit)
    ensures Fetched(mem.bytes, old(ch.next), f) && ch.taken == old(ch.taken) + f
    ensures ch.delivered == old(ch.delivered) + esp.given[|old(esp.given)|..]
    ensures match exit
            case Off => false
            case Done => if old(ch.next) < ch.limit then ch.next == ch.limit && ch.lim == 0
                         else f == [] && esp.given == old(esp.given) && ch.size == old(ch.size) && ch.lim == old(ch.lim)
            case Starved => ch.next == ch.limit && ch.lim < BURST
            case Blocked => !esp.ReceiveReady() && ch.lim == BURST
            case Fault => ch.next < ch.limit && ch.lim < BURST && !mem.Reachable(ch.next, 4)
    ensures old(ch.next) >= ch.limit ==> exit == Done
    ensures exit == Blocked ==> WholeBursts(|esp.given| - |old(esp.given)| + ch.size - old(ch.Pending()))
    ensures old(ch.next) < ch.limit && exit != Blocked ==>
              WholeBursts(|esp.given| - |old(esp.given)| - old(ch.Pending()))
              && old(ch.Pending()) <= |esp.given| - |old(esp.given)|
    ensures Open(|mem.bytes|, mem.faults, old(ch.next), |f|)
  {
    hide Controller.InWrite, Controller.Balanced, Controller.Valid, Aligned, Fetched, Memory.Reachable, Channel.Flowing,
         Channel.Fifo, Channel.Outbound, Channel.Shape, WholeBursts, Open;
    OpenNone(|mem.bytes|, mem.faults, ch.next);
    AlignedAdd(0, 4);
    ghost var lo, given, sent, pending := ch.next, esp.given, ch.delivered, ch.Pending();
    exit, f := Done, [];
    FetchedNothing(mem.bytes, lo);
    NothingLeft(given);
    NothingLeft(sent);
    NothingLeft(ch.taken);
    WholeBurstsStep(0);
    while ch.next < ch.limit
      invariant Joined(ch, esp) && esp.op == old(esp.op) && esp.loaded == old(esp.loaded) && given <= esp.given
                && exit == Done
      invariant esp.counter + |esp.given| == old(esp.counter + |esp.given|)
      invariant Aligned(ch.next) && ch.next == lo + |f| && (f == [] || ch.next <= ch.limit)
      invariant Fetched(mem.bytes, lo, f) && ch.taken == old(ch.taken) + f
                && ch.delivered == sent + esp.given[|given|..]
      invariant if ch.lim == BURST then f == [] && ch.size == pending && esp.given == given
                else WholeBursts(|esp.given| - |given| - pending) && pending <= |esp.given| - |given|
      invariant lo < ch.limit || (f == [] && esp.given == given && ch.size == old(ch.size) && ch.lim == old(ch.lim))
      invariant Open(|mem.bytes|, mem.faults, lo, |f|) && Aligned(|f|)
      invariant ch.lim == 0 || ch.next == lo
      decreases ch.limit - ch.next, ch.lim
    {
      ghost var mid, g := esp.given, f;
      ghost var v;
      exit, v := Round(ch, mem, esp);
      FetchedNext(mem.bytes, lo, f, v);
      Associate(old(ch.taken), f, v);
      Extended(given, mid, esp.given);
      Associate(sent, mid[|given|..], esp.given[|mid|..]);
      WholeBurstsStep(|mid| - |given| - pending);
      OpenNext(|mem.bytes|, mem.faults, lo, |f|, |v|);
      AlignedAdd(|f|, |v|);
      f := f + v;
      if exit != Done {
        break;
      }
    }
  }

  /** dma_esp_read_memory with the SCSI controller selected. */
  method ReadMemory(ch: Channel, mem: Memory, esp: Controller) returns (exit: Exit, ghost f: seq<Byte>)
    requires Joined(ch, esp) && (ch.csr.enable ==> Aligned(ch.next) && WholeBursts(ch.limit))
    modifies ch, esp`counter, esp`exchanged, esp`given, esp`blocks, esp.target`image, esp.target`shadow,
             esp.target`phase, esp.target`size, esp.target`limit, esp.target`lba, esp.target`counter, esp.target`status,
             esp.target`sense, esp.target.data
    ensures Joined(ch, esp) && esp.op == old(esp.op) && esp.loaded == old(esp.loaded) && old(esp.given) <= esp.given
    ensures esp.counter + |esp.given| == old(esp.counter + |esp.given|)
    ensures ch.start == old(ch.start) && ch.stop == old(ch.stop)
    ensures Fetched(mem.bytes, old(ch.next), f) && ch.taken == old(ch.taken) + f
            && (f == [] || old(ch.next) + |f| <= old(ch.limit))
    ensures ch.delivered == old(ch.delivered) + esp.given[|old(esp.given)|..]
    ensures exit == Off <==> !old(ch.csr.enable)
    ensures exit != Off && exit != Fault ==> ch.Settled(old(ch.next) + |f|, old(ch.limit), old(ch.csr))
    ensures ch.interrupt == (old(ch.interrupt) || (exit != Off && ch.csr.complete))
    ensures match exit
            case Off => f == [] && ch.csr == old(ch.csr) && ch.next == old(ch.next) && ch.limit == old(ch.limit)
                        && esp.given == old(esp.given) && ch.size == old(ch.size) && ch.lim == old(ch.lim)
            case Done => if old(ch.next < ch.limit) then old(ch.next) + |f| == old(ch.limit) && ch.lim == 0
                         else f == [] && esp.given == old(esp.given) && ch.size == old(ch.size) && ch.lim == old(ch.lim)
            case Starved => old(ch.next) + |f| == old(ch.limit) && ch.lim < BURST
            case Blocked => !esp.ReceiveReady() && ch.lim == BURST
            case Fault => ch.lim < BURST && Aligned(ch.next)
                          && ch.next == old(ch.next) + |f| < ch.limit == old(ch.limit)
                          && !mem.Reachable(ch.next, 4) && ch.csr == Csr(false, old(ch.csr.supdate), true, true)
    ensures exit != Off ==> Aligned(old(ch.next) + |f|)
    ensures old(ch.csr.enable && ch.next >= ch.limit) ==> exit == Done
    ensures exit == Blocked ==> WholeBursts(|esp.given| - |old(esp.given)| + ch.size - old(ch.Pending()))
    ensures old(ch.csr.enable && ch.next < ch.limit) && exit != Blocked ==>
              WholeBursts(|esp.given| - |old(esp.given)| - old(ch.Pending()))
              && old(ch.Pending()) <= |esp.given| - |old(esp.given)|
    ensures Open(|mem.bytes|, mem.faults, old(ch.next), |f|)
  {
    hide Controller.InWrite, Controller.Balanced, Controller.Valid, Aligned, Fetched, Memory.Reachable, Window,
         WholeBursts, Channel.Settled, Open;
    OpenNone(|mem.bytes|, mem.faults, ch.next);
    if !ch.csr.enable {
      exit, f := Off, [];
      FetchedNothing(mem.bytes, ch.next);
      NothingLeft(esp.given);
      NothingLeft(ch.delivered);
      NothingLeft(ch.taken);
      return;
    }
    AlignedBurst();
    exit, f := Move(ch, mem, esp);
    ch.Conclude(exit == Fault);
  }

  // ----- a whole WRITE

  lemma {:induction false} Product(j: nat, n: nat, bs: nat)
    requires j < n
    ensures j * bs + bs <= n * bs
    decreases n
  {
    OneMoreTime(n - 1, bs);
    if j < n - 1 {
      Product(j, n - 1, bs);
    }
  }

  /** A WRITE ends exactly when it has been given all the blocks it takes. */
  lemma WriteEnds(t: Target, op: WriteOp, given: seq<Byte>, blocks: seq<Block>)
    requires t.Taking(op, given, blocks)
    ensures t.phase == DataOut || t.phase == StatusPhase
    ensures |given| <= Demand(op) * t.blockSize
    ensures t.phase == StatusPhase <==> |given| == Demand(op) * t.blockSize
    ensures t.phase == StatusPhase ==> |blocks| == Demand(op) && given == Flat(blocks)
    ensures t.phase == StatusPhase && op.l + op.n <= |op.view| ==> t.status == Good
  {
    hide Landed, Flat, Target.View;
    FlatLength(blocks, t.blockSize);
    if t.phase == DataOut {
      Product(|blocks|, Demand(op), t.blockSize);
      TailLength(t, blocks, given);
    }
  }

  lemma TakingShows(t: Target, op: WriteOp, given: seq<Byte>, blocks: seq<Block>)
    requires t.Taking(op, given, blocks)
    ensures Landed(op.view, t.View(), op.l, blocks, op.table, t.protect) && Flat(blocks) <= given
    ensures forall b <- blocks :: |b| == t.blockSize
  {
  }

  lemma TailLength(t: Target, blocks: seq<Block>, given: seq<Byte>)
    requires t.Valid() && t.phase == DataOut && t.disk && given == Flat(blocks) + t.data[..t.size]
    ensures |given| == |Flat(blocks)| + t.size && t.size < t.blockSize
  {
  }

  /** However the transfer of a buffer of n bytes to a target that takes n bytes ends, all are given. */
  lemma TransferCases(exit: Exit, n: nat, fetched: nat, given: nat, size: nat, lim: nat)
    requires given + size == fetched <= n && WholeBursts(n) && n > 0 && if lim < BURST then size == lim else size > 0
    requires exit == Done || exit == Starved || exit == Blocked
    requires exit == Done ==> fetched == n && lim == 0
    requires exit == Starved ==> fetched == n && lim < BURST && WholeBursts(given)
    requires exit == Blocked ==> lim == BURST && given == n
    ensures size == 0 && given == n == fetched
  {
  }

  lemma OutboundFacts(ch: Channel)
    requires ch.Outbound()
    ensures ch.Shape() && ch.delivered + ch.Fifo() == ch.taken && ch.size <= ch.lim <= BURST
    ensures if ch.lim < BURST then ch.size == ch.lim else ch.size > 0
  {
  }

  lemma OutBalance(sent: seq<Byte>, f: seq<Byte>, given: seq<Byte>, fifo: seq<Byte>)
    requires sent + given + fifo == sent + f
    ensures |given| + |fifo| == |f| && (fifo == [] ==> given == f)
  {
    assert (sent + f)[|sent|..] == f;
    assert (sent + given + fifo)[|sent|..] == given + fifo;
    if fifo == [] {
      assert given + fifo == given;
    }
  }

  /** An idle FIFO and an enabled, unfaulted buffer of n bytes. */
  ghost predicate BufferFor(ch: Channel, mem: Memory, n: nat)
    reads ch, mem
  {
    && ch.Outbound() && ch.size == 0 && ch.taken == ch.delivered
    && ch.csr.enable && Aligned(ch.next) && WholeBursts(ch.limit) && WholeBursts(n) && n > 0
    && ch.limit == ch.next + n && Clear(mem, ch.next, n)
  }

  /** A buffer of n bytes goes to a target that takes n bytes. */
  method TransferAll(ch: Channel, mem: Memory, esp: Controller, ghost n: nat)
    requires Joined(ch, esp) && BufferFor(ch, mem, n) && esp.given == [] && esp.counter == n && esp.dma
             && esp.exchanged == 0
    requires esp.op.l + esp.op.n <= |esp.op.view| && n == esp.op.n * esp.target.blockSize
    modifies ch, esp`counter, esp`exchanged, esp`given, esp`blocks, esp.target`image, esp.target`shadow,
             esp.target`phase, esp.target`size, esp.target`limit, esp.target`lba, esp.target`counter, esp.target`status,
             esp.target`sense, esp.target.data
    ensures Joined(ch, esp) && esp.op == old(esp.op) && ch.size == 0
            && esp.given == mem.bytes[old(ch.next)..old(ch.next) + n]
    ensures |esp.given| == n && old(ch.next) + n <= |mem.bytes|
    ensures ch.Settled(old(ch.limit), old(ch.limit), old(ch.csr))
  {
    hide Aligned, Memory.Reachable, Window, WholeBursts, Channel.Settled, Target.Taking, Channel.Outbound,
         Controller.Valid, Controller.Balanced, Clear;
    OutboundFacts(ch);
    ghost var lo, sent := ch.next, ch.delivered;
    var exit; ghost var f;
    exit, f := ReadMemory(ch, mem, esp);
    OutboundFacts(ch);
    NoBytes(esp.given);
    OutBalance(sent, f, esp.given, ch.Fifo());
    LongWordClear(mem, lo, n, |f|);
    WriteEnds(esp.target, esp.op, esp.given, esp.blocks);
    TransferCases(exit, n, |f|, |esp.given|, ch.size, ch.lim);
    WholeFetched(mem.bytes, lo, f);
  }

  lemma WholeFetched(image: seq<Byte>, lo: nat, f: seq<Byte>)
    requires Fetched(image, lo, f) && f != []
    ensures lo + |f| <= |image| && f == image[lo..lo + |f|]
  {
  }

  /** A WRITE starts and the count is loaded; zero means the maximum. */
  method Begin(esp: Controller, cdb: seq<nat>, low: nat, high: nat)
    requires esp.Valid() && !esp.target.readonly && IsCdb(cdb) && low < 256 && high < 256
    modifies esp, esp.target`phase, esp.target`size, esp.target`limit, esp.target`lba, esp.target`lastLba,
             esp.target`counter, esp.target`status, esp.target`sense, esp.target`disk
    ensures esp.Valid() && esp.Balanced() && esp.InWrite() && esp.dma == old(esp.dma)
    ensures esp.given == [] && esp.exchanged == 0
    ensures esp.counter == if low == high == 0 then 65536 else high * 256 + low
    ensures esp.op == WriteOp(old(esp.target.View()), old(esp.target.shadow), Offset(cdb), Count(cdb))
    ensures |esp.op.view| == |esp.target.image|
  {
    hide Offset, Count, Landed, Flat, Overlay, Uniform;
    esp.StartWrite(cdb);
    esp.LoadCounter(low, high);
  }

  /** A WRITE to existing blocks by one DMA transfer with a count and a buffer of the right size: the
      target is in the status phase with status GOOD, and the blocks that are seen on the disk are
      those of memory, as far as they are taken. */
  method WriteFromMemory(ch: Channel, mem: Memory, esp: Controller, cdb: seq<nat>, low: nat, high: nat)
    requires esp.Valid() && esp.dma && IsCdb(cdb) && low < 256 && high < 256
    requires !esp.target.readonly && Offset(cdb) + Count(cdb) <= |esp.target.image|
    requires var n := Count(cdb) * esp.target.blockSize;
             BufferFor(ch, mem, n) && n <= 65536 && n % 65536 == high * 256 + low
    modifies ch, esp, esp.target`image, esp.target`shadow, esp.target`phase, esp.target`size, esp.target`limit,
             esp.target`lba, esp.target`lastLba, esp.target`counter, esp.target`status, esp.target`sense,
             esp.target`disk, esp.target.data
    ensures esp.Valid() && esp.target.phase == StatusPhase && esp.target.status == Good
    ensures ch.Settled(old(ch.limit), old(ch.limit), old(ch.csr))
    ensures old(ch.next) + Count(cdb) * esp.target.blockSize <= |mem.bytes|
    ensures Flat(esp.blocks) == mem.bytes[old(ch.next)..old(ch.next) + Count(cdb) * esp.target.blockSize]
    ensures |esp.blocks| == Count(cdb) && forall b <- esp.blocks :: |b| == esp.target.blockSize
    ensures Landed(old(esp.target.View()), esp.target.View(), Offset(cdb), esp.blocks, old(esp.target.shadow),
                   esp.target.protect)
  {
    hide Aligned, Window, WholeBursts, Channel.Settled, Offset, Count, Landed, Flat, Target.Taking, Target.View,
         Target.Shape, Controller.Valid, Controller.Balanced, Clear, Demand;
    ghost var n := Count(cdb) * esp.target.blockSize;
    WholeDemand(esp, cdb);
    CountIs(n, low, high);
    Begin(esp, cdb, low, high);
    TransferAll(ch, mem, esp, n);
    WriteEnds(esp.target, esp.op, esp.given, esp.blocks);
    TakingShows(esp.target, esp.op, esp.given, esp.blocks);
  }

  /** A WRITE to existing blocks takes all of them. */
  lemma WholeDemand(esp: Controller, cdb: seq<nat>)
    requires esp.Valid() && IsCdb(cdb) && Offset(cdb) + Count(cdb) <= |esp.target.image|
    ensures var t := esp.target;
            && t.Shape() && |t.View()| == |t.image|
            && Demand(WriteOp(t.View(), t.shadow, Offset(cdb), Count(cdb))) == Count(cdb)
  {
    hide Offset, Count, Uniform;
  }

  lemma CountIs(n: nat, low: nat, high: nat)
    requires 0 < n <= 65536 && low < 256 && high < 256 && n % 65536 == high * 256 + low
    ensures n == if low == high == 0 then 65536 else high * 256 + low
  {
  }
}
