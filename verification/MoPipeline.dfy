/** Whole operations of mo.c: the formatter's ticks interleaved with the error-correction events,
    and the DMA channel between the sector buffers and memory. */
module MoPipeline {
  import opened Bytes
  import opened RsSector
  import opened Dma
  import DmaModel
  import DmaDriver
  import opened Mo
  import opened MoFormatter

  /** The i-th sector of data. */
  function SectorOf(data: seq<Byte>, i: nat): (s: seq<Byte>)
    requires (i + 1) * DECODED <= |data|
    ensures |s| == DECODED
  {
    data[i * DECODED..(i + 1) * DECODED]
  }

  // ----- from disk to memory

  /** An idle FIFO, and room for m sectors in memory. */
  ghost predicate RoomFor(ch: Channel, mem: Memory, m: nat)
    reads ch, mem
  {
    && Quiet(ch) && !ch.csr.supdate
    && (m > 0 ==> ch.csr.enable && Aligned(ch.next) && WholeBursts(ch.limit)
                  && ch.limit == ch.next + m * DECODED && Clear(mem, ch.next, m * DECODED))
    && (m == 0 ==> !ch.csr.enable && ch.csr.complete)
  }

  lemma RoomForSector(ch: Channel, mem: Memory, m: nat)
    requires RoomFor(ch, mem, m) && m > 0
    ensures Quiet(ch) && SectorBuffer(ch, mem) && ch.Inbound() && Sound(ch) && Chainable(ch)
  {
    QuietFlows(ch);
  }

  /** One sector less to go. */
  lemma RoomLeft(ch: Channel, mem: Memory, m: nat, next: nat, limit: nat, csr: Csr)
    requires m > 0 && csr.enable && !csr.supdate && Aligned(next) && WholeBursts(limit) && limit == next + m * DECODED
    requires next + m * DECODED <= |mem.bytes| && forall a :: next <= a < next + m * DECODED ==> a !in mem.faults
    requires Quiet(ch) && Drained(ch, next, limit, csr)
    ensures RoomFor(ch, mem, m - 1) && ch.next == next + DECODED
  {
    assert Aligned(next + DECODED);
  }

  /** A sector in the input buffer, to be decoded. */
  ghost predicate Undecoded(osp: Processor, data: seq<Byte>)
    reads osp, osp.first, osp.second, osp.first.data, osp.second.data
  {
    && osp.Valid() && osp.state == Eccing && osp.mode == Reading && !osp.repeating && !osp.csr2.eccDisable
    && osp.eccin.size == ENCODED && Readable(osp.eccin.data[..], data)
  }

  /** Its data in the output buffer, to be drained. */
  ghost predicate Decoded(osp: Processor, data: seq<Byte>)
    reads osp, osp.first, osp.second, osp.first.data, osp.second.data
  {
    && osp.Valid() && osp.state == Draining && osp.mode == Reading && !osp.repeating && !osp.csr2.eccDisable
    && osp.eccout.size == osp.eccout.limit == DECODED && osp.eccout.data[..DECODED] == data
  }

  /** The event that decodes a sector. */
  method DecodeEvent(osp: Processor, ghost data: seq<Byte>)
    requires Undecoded(osp, data)
    modifies osp`state, osp`mode, osp`repeating, osp`signals, osp`status, osp`eccCount, osp`eccin, osp`eccout,
             osp.channel, osp.mem`bytes, osp.first, osp.second, osp.first.data, osp.second.data
    ensures Decoded(osp, data) && unchanged(osp.channel) && osp.mem.bytes == old(osp.mem.bytes)
            && osp.status == old(osp.status)
    ensures osp.signals == if osp.sectorCount == 0 then old(osp.signals) + {EccDone} else old(osp.signals)
  {
    hide Readable, Quiet, SectorBuffer, Stored, Channel.Settled, Channel.Inbound, Channel.Outbound, Drained, Aligned,
         WholeBursts, Sound, Chainable, Feeding, Fed, DmaDriver.WorldIn, DmaDriver.WorldOut, Flushed, DmaModel.MovedOut,
         BeyondRepair, Encoded;
    var event := osp.Handler();
  }

  /** The event that drains its data. */
  method DrainEvent(osp: Processor, ghost data: seq<Byte>, ghost m: nat)
    requires Decoded(osp, data) && m > 0 && RoomFor(osp.channel, osp.mem, m)
    modifies osp`state, osp`mode, osp`repeating, osp`signals, osp`status, osp`eccCount, osp`eccin, osp`eccout,
             osp.channel, osp.mem`bytes, osp.first, osp.second, osp.first.data, osp.second.data
    ensures osp.Valid() && osp.state == Idle && !osp.repeating && osp.status == old(osp.status)
            && osp.signals == old(osp.signals)
    ensures Stored(old(osp.mem.bytes), osp.mem.bytes, old(osp.channel.next), data)
    ensures RoomFor(osp.channel, osp.mem, m - 1) && osp.channel.next == old(osp.channel.next) + DECODED
  {
    hide Readable, Quiet, SectorBuffer, Stored, Channel.Settled, Channel.Inbound, Channel.Outbound, Drained, Aligned,
         WholeBursts, Sound, Chainable, Feeding, Fed, DmaDriver.WorldIn, DmaDriver.WorldOut, Flushed, DmaModel.MovedOut,
         BeyondRepair, Encoded;
    ghost var ch, mem, next, limit, csr := osp.channel, osp.mem, osp.channel.next, osp.channel.limit, osp.channel.csr;
    RoomForSector(ch, mem, m);
    ghost var bytes := mem.bytes;
    var event := osp.Handler();
    StoredLength(bytes, mem.bytes, next, data);
    RoomLeft(ch, mem, m, next, limit, csr);
  }

  /** The error-correction events after a tick that read a sector. */
  method DrainSector(osp: Processor, gap: nat, ghost data: seq<Byte>, ghost m: nat)
    requires Undecoded(osp, data) && gap >= 2 && m > 0 && RoomFor(osp.channel, osp.mem, m)
    modifies osp`state, osp`mode, osp`repeating, osp`signals, osp`status, osp`eccCount, osp`eccin, osp`eccout,
             osp.channel, osp.mem`bytes, osp.first, osp.second, osp.first.data, osp.second.data
    ensures osp.Valid() && osp.state == Idle && !osp.repeating && osp.status == old(osp.status)
    ensures osp.signals == if osp.sectorCount == 0 then old(osp.signals) + {EccDone} else old(osp.signals)
    ensures Stored(old(osp.mem.bytes), osp.mem.bytes, old(osp.channel.next), data)
    ensures RoomFor(osp.channel, osp.mem, m - 1) && osp.channel.next == old(osp.channel.next) + DECODED
  {
    hide RoomFor, Stored, Readable;
    ghost var signals := if osp.sectorCount == 0 then osp.signals + {EccDone} else osp.signals;
    var i := 0;
    while i < gap && osp.state != Idle
      decreases gap - i
      invariant i <= 2 && osp.status == old(osp.status)
      invariant i < 2 ==> osp.mem.bytes == old(osp.mem.bytes) && unchanged(osp.channel)
      invariant i == 0 ==> Undecoded(osp, data) && osp.signals == old(osp.signals)
      invariant i == 1 ==> Decoded(osp, data) && osp.signals == signals
      invariant i == 2 ==> osp.Valid() && osp.state == Idle && !osp.repeating && osp.signals == signals
      invariant i == 2 ==> Stored(old(osp.mem.bytes), osp.mem.bytes, old(osp.channel.next), data)
      invariant i == 2 ==> RoomFor(osp.channel, osp.mem, m - 1) && osp.channel.next == old(osp.channel.next) + DECODED
    {
      if i == 0 {
        DecodeEvent(osp, data);
      } else {
        DrainEvent(osp, data, m);
      }
      i := i + 1;
    }
  }

  /** Sectors of the disk from first on that can be decoded to data. */
  ghost predicate Holds(disk: seq<seq<Byte>>, first: nat, data: seq<Byte>, n: nat)
    requires |data| == n * DECODED
  {
    first + n <= |disk| && forall i: nat :: i < n ==> Readable(disk[first + i], SectorOf(data, i))
  }

  /** Error correction as it is normally used. */
  predicate Usual(csr2: Csr2)
  {
    csr2 == Csr2(false, false, false)
  }

  lemma ProgressNext(n: nat, lead: nat, t: nat)
    ensures Progress(n, lead, 0) == 0
    ensures Progress(n, lead, t + 1) == Progress(n, lead, t) + if lead <= t < lead + n then 1 else 0
    ensures Progress(n, lead, t) == n <==> t >= lead + n || n == 0
    ensures lead <= t < lead + n ==> Progress(n, lead, t) == t - lead
  {
  }

  /** What a tick of a read operation does to the buffers. */
  lemma ReadOperated(d: Desk, mode: Mode, hit: bool, k: nat)
    requires d.state == Idle && !d.repeating && (mode == Read || mode == Inactive)
             && (hit ==> mode == Read && k < |d.disk|)
    ensures var r := Operated(d, false, mode, hit, k);
            if hit then r == d.(state := Eccing, mode := Reading, input := Bank(ENCODED, ENCODED, d.disk[k]))
            else r == d
  {
  }

  /** The interrupts do not matter to an operation. */
  lemma AlongAnyway(j0: Job, s: Setup, d0: Drive, n: nat, lead: nat, t: nat, j: Job, d: Drive, signals: set<Signal>)
    requires Along(j0, s, d0, n, lead, t, j, d)
    ensures Along(j0, s, d0, n, lead, t, j.(signals := signals), d)
  {
  }

  /** A tick of a read operation. */
  method ReadTick(f: Formatter, ghost j0: Job, ghost d0: Drive, ghost n: nat, ghost lead: nat, ghost t: nat)
    requires f.Underway(j0, d0, n, lead, t) && j0.mode == Read
    requires f.osp.state == Idle && !f.osp.repeating && Usual(f.osp.csr2)
    modifies f, f.osp`sectorCount, f.osp`signals, f.osp`state, f.osp`mode, f.osp`repeating, f.osp`disk, f.osp.first,
             f.osp.second, f.osp.first.data, f.osp.second.data
    ensures f.Underway(j0, d0, n, lead, t + 1) && f.osp.disk == old(f.osp.disk) && !f.osp.repeating
    ensures f.osp.signals == if t + 1 == lead + n then old(f.osp.signals) + {OperationComplete} else old(f.osp.signals)
    ensures if lead <= t < lead + n
            then f.osp.state == Eccing && f.osp.mode == Reading && f.osp.eccin.size == ENCODED
                 && f.osp.eccin.data[..] == f.osp.disk[FirstSector(j0) + (t - lead)]
            else f.osp.state == Idle
  {
    hide Start, Along, Processor.Valid, Spiral, Operated, Progress;
    ReadOperated(f.osp.Now(), f.mode, lead <= t < lead + n, FirstSector(j0) + if t <= lead then 0 else t - lead);
    f.Advance(j0, d0, n, lead, t);
  }

  /** Events of the error correction do not disturb the operation. */
  lemma StillUnderway(f: Formatter, j: Job, d: Drive, setup: Setup, j0: Job, d0: Drive, n: nat, lead: nat, t: nat)
    requires f.Valid() && Start(j0, setup, d0, n, lead) && d0.head == HeadFor(j0.mode)
    requires setup.timed ==> lead == 0 || j0.timer + lead <= SECTOR_TIMEOUT
    requires Along(j0, setup, d0, n, lead, t, j, d)
    requires f.setup == setup && f.Now() == j.(signals := f.osp.signals) && f.drives[f.selected] == d
    ensures f.Underway(j0, d0, n, lead, t)
  {
    hide Along, Start, Spiral;
    StartBound(j0, setup, d0, n, lead);
    AlongAnyway(j0, setup, d0, n, lead, t, j, d, f.osp.signals);
    AlongShows(j0, setup, d0, n, lead, t, f.Now(), d);
  }

  /** A tick of a read operation and the events until the next tick. */
  method ReadRound(f: Formatter, gap: nat, ghost j0: Job, ghost d0: Drive, ghost n: nat, ghost lead: nat, ghost t: nat,
                   ghost data: seq<Byte>)
    requires f.Underway(j0, d0, n, lead, t) && j0.mode == Read && gap >= 2 && |data| == n * DECODED
    requires f.osp.state == Idle && !f.osp.repeating && Usual(f.osp.csr2)
    requires RoomFor(f.osp.channel, f.osp.mem, n - Progress(n, lead, t)) && Holds(f.osp.disk, FirstSector(j0), data, n)
    modifies f, f.osp, f.osp.channel, f.osp.mem`bytes, f.osp.first, f.osp.second, f.osp.first.data, f.osp.second.data
    ensures f.Underway(j0, d0, n, lead, t + 1) && f.osp.state == Idle && !f.osp.repeating
            && f.osp.csr2 == old(f.osp.csr2)
    ensures f.osp.disk == old(f.osp.disk) && f.osp.status == old(f.osp.status)
    ensures f.osp.signals ==
                if t + 1 == lead + n then old(f.osp.signals) + {OperationComplete, EccDone} else old(f.osp.signals)
    ensures RoomFor(f.osp.channel, f.osp.mem, n - Progress(n, lead, t + 1))
    ensures if lead <= t < lead + n
            then Stored(old(f.osp.mem.bytes), f.osp.mem.bytes, old(f.osp.channel.next), SectorOf(data, t - lead))
                 && f.osp.channel.next == old(f.osp.channel.next) + DECODED
            else f.osp.mem.bytes == old(f.osp.mem.bytes) && f.osp.channel.next == old(f.osp.channel.next)
  {
    hide Start, Along, Readable, RoomFor, Stored, Processor.Valid, Spiral, SectorOf, Progress;
    ProgressNext(n, lead, t);
    ProgressNext(n, lead, t + 1);
    ReadTick(f, j0, d0, n, lead, t);
    ghost var j, d := f.Now(), f.drives[f.selected];
    if f.osp.state != Idle {
      DrainSector(f.osp, gap, SectorOf(data, t - lead), n - Progress(n, lead, t));
      StillUnderway(f, j, d, f.setup, j0, d0, n, lead, t + 1);
    }
  }

  /** One more sector is stored. */
  lemma StoredSector(before: seq<Byte>, mid: seq<Byte>, after: seq<Byte>, addr: nat, data: seq<Byte>, k: nat)
    requires (k + 1) * DECODED <= |data|
    requires Stored(before, mid, addr, data[..k * DECODED]) && Stored(mid, after, addr + k * DECODED, SectorOf(data, k))
    ensures Stored(before, after, addr, data[..(k + 1) * DECODED])
  {
    StoredNext(before, mid, after, addr, data[..k * DECODED], SectorOf(data, k));
    assert data[..k * DECODED] + SectorOf(data, k) == data[..(k + 1) * DECODED];
  }

  /** Reading n sectors: whatever the lead and however many events fit between two ticks, provided
      two do, each tick after the lead brings one more sector, decoded, into memory. */
  method ReadSectors(f: Formatter, gaps: seq<nat>, n: nat, lead: nat, ghost data: seq<Byte>)
    requires f.Begins(n, lead) && f.mode == Read && (forall g <- gaps :: g >= 2)
    requires f.osp.state == Idle && !f.osp.repeating && Usual(f.osp.csr2) && RoomFor(f.osp.channel, f.osp.mem, n)
    requires |data| == n * DECODED && Holds(f.osp.disk, FirstSector(f.Now()), data, n)
    modifies f, f.osp, f.osp.channel, f.osp.mem`bytes, f.osp.first, f.osp.second, f.osp.first.data, f.osp.second.data
    ensures f.Valid() && f.osp.state == Idle && f.osp.disk == old(f.osp.disk) && f.osp.status == old(f.osp.status)
    ensures var k := Progress(n, lead, |gaps|);
            && k * DECODED <= |data|
            && Stored(old(f.osp.mem.bytes), f.osp.mem.bytes, old(f.osp.channel.next), data[..k * DECODED])
            && RoomFor(f.osp.channel, f.osp.mem, n - k) && f.osp.channel.next == old(f.osp.channel.next) + k * DECODED
            && f.osp.sectorCount == n - k && f.mode == (if k == n then Inactive else Read)
            && f.osp.signals == if k == n then old(f.osp.signals) + {OperationComplete, EccDone} else old(f.osp.signals)
  {
    hide Start, Along, Readable, RoomFor, Stored, Processor.Valid, Spiral, SectorOf, Holds, Progress;
    ghost var j0, d0, before, addr := f.Now(), f.drives[f.selected], f.osp.mem.bytes, f.osp.channel.next;
    f.Beginning(n, lead);
    ProgressNext(n, lead, 0);
    StoredNothing(before, addr);
    assert data[..0] == [];
    var t := 0;
    while t < |gaps|
      invariant t <= |gaps| && f.Underway(j0, d0, n, lead, t)
      invariant f.osp.state == Idle && !f.osp.repeating && Usual(f.osp.csr2)
                && RoomFor(f.osp.channel, f.osp.mem, n - Progress(n, lead, t))
      invariant f.osp.disk == old(f.osp.disk) && f.osp.status == old(f.osp.status)
      invariant f.osp.channel.next == addr + Progress(n, lead, t) * DECODED
      invariant Progress(n, lead, t) * DECODED <= |data|
      invariant Stored(before, f.osp.mem.bytes, addr, data[..Progress(n, lead, t) * DECODED])
      invariant f.osp.signals ==
                    if t >= lead + n then old(f.osp.signals) + {OperationComplete, EccDone} else old(f.osp.signals)
    {
      ghost var mid := f.osp.mem.bytes;
      ProgressNext(n, lead, t);
      assert gaps[t] in gaps;
      ReadRound(f, gaps[t], j0, d0, n, lead, t, data);
      if lead <= t < lead + n {
        StoredSector(before, mid, f.osp.mem.bytes, addr, data, t - lead);
      }
      t := t + 1;
    }
    ProgressNext(n, lead, t);
  }

  // ----- verifying

  /** A sector in the input buffer, to be verified. */
  ghost predicate Unverified(osp: Processor)
    reads osp, osp.first, osp.second, osp.first.data, osp.second.data
  {
    && osp.Valid() && osp.state == Eccing && osp.mode == Verifying && !osp.repeating && !osp.csr2.eccDisable
    && osp.eccin.size == ENCODED
  }

  /** A sector is decoded unless it is beyond repair. */
  lemma ReadableUnless(sector: seq<Byte>)
    requires |sector| == ENCODED && !BeyondRepair(sector)
    ensures Readable(sector, Compact(ColPass(RowPass(sector), 32)))
  {
    hide RowPass, ColPass, Compact, Uncorrectable;
  }

  /** The event that verifies a sector. */
  method VerifyEvent(osp: Processor)
    requires Unverified(osp)
    modifies osp`state, osp`mode, osp`repeating, osp`signals, osp`status, osp`eccCount, osp`eccin, osp`eccout,
             osp.channel, osp.mem`bytes, osp.first, osp.second, osp.first.data, osp.second.data
    ensures osp.Valid() && osp.state == Idle && !osp.repeating && unchanged(osp.channel)
            && osp.mem.bytes == old(osp.mem.bytes)
    ensures osp.eccCount == Tally(old(osp.eccCount), old(osp.eccin.data[..]))
    ensures var bad := BeyondRepair(old(osp.eccin.data[..]));
            && osp.status == (if bad then EccError else old(osp.status))
            && osp.signals == old(osp.signals) + (if bad then {DataError} else {})
                              + (if osp.sectorCount == 0 then {EccDone} else {})
  {
    hide Readable, Quiet, SectorBuffer, Stored, Channel.Settled, Channel.Inbound, Channel.Outbound, Drained, Aligned,
         WholeBursts, Sound, Chainable, Feeding, Fed, DmaDriver.WorldIn, DmaDriver.WorldOut, Flushed, DmaModel.MovedOut,
         BeyondRepair, Encoded, Tally;
    if !BeyondRepair(osp.eccin.data[..]) {
      ReadableUnless(osp.eccin.data[..]);
    }
    var event := osp.Handler();
  }

  /** What a tick of a verify operation does to the buffers. */
  lemma VerifyOperated(d: Desk, blocks: bool, mode: Mode, hit: bool, k: nat)
    requires d.state == Idle && !d.repeating && (mode == Verify || mode == Inactive)
             && (hit ==> mode == Verify && k < |d.disk|)
    ensures var r := Operated(d, blocks, mode, hit, k);
            if hit then r == d.(state := Eccing, mode := Verifying, input := Bank(ENCODED, ENCODED, d.disk[k]))
            else r == d
  {
  }

  /** A tick of a verify operation. */
  method VerifyTick(f: Formatter, ghost j0: Job, ghost d0: Drive, ghost n: nat, ghost lead: nat, ghost t: nat)
    requires f.Underway(j0, d0, n, lead, t) && j0.mode == Verify && f.osp.state == Idle && !f.osp.repeating
    modifies f, f.osp`sectorCount, f.osp`signals, f.osp`state, f.osp`mode, f.osp`repeating, f.osp`disk, f.osp.first,
             f.osp.second, f.osp.first.data, f.osp.second.data
    ensures f.Underway(j0, d0, n, lead, t + 1) && f.osp.disk == old(f.osp.disk) && !f.osp.repeating
    ensures f.osp.signals == if t + 1 == lead + n then old(f.osp.signals) + {OperationComplete} else old(f.osp.signals)
    ensures if lead <= t < lead + n
            then f.osp.state == Eccing && f.osp.mode == Verifying && f.osp.eccin.size == ENCODED
                 && FirstSector(j0) + (t - lead) < |f.osp.disk|
                 && f.osp.eccin.data[..] == f.osp.disk[FirstSector(j0) + (t - lead)]
            else f.osp.state == Idle
  {
    hide Start, Along, Processor.Valid, Spiral, Operated, Progress;
    VerifyOperated(f.osp.Now(), f.osp.csr2.eccBlocks, f.mode, lead <= t < lead + n,
                   FirstSector(j0) + if t <= lead then 0 else t - lead);
    f.Advance(j0, d0, n, lead, t);
  }

  /** Verifying k sectors from first on finds one beyond repair. */
  ghost predicate Fails(disk: seq<seq<Byte>>, first: nat, k: nat)
    requires first + k <= |disk| && forall i :: 0 <= i < |disk| ==> |disk[i]| == ENCODED
  {
    exists i :: first <= i < first + k && BeyondRepair(disk[i])
  }

  /** The error count after verifying them: the first count that is not zero. */
  ghost function CountAfter(disk: seq<seq<Byte>>, first: nat, k: nat, count: nat): (r: nat)
    requires first + k <= |disk| && forall i :: 0 <= i < |disk| ==> |disk[i]| == ENCODED
  {
    if k == 0 then count else Tally(CountAfter(disk, first, k - 1, count), disk[first + k - 1])
  }

  lemma FailsNext(disk: seq<seq<Byte>>, first: nat, k: nat)
    requires first + k < |disk| && forall i :: 0 <= i < |disk| ==> |disk[i]| == ENCODED
    ensures !Fails(disk, first, 0)
            && (Fails(disk, first, k + 1) <==> Fails(disk, first, k) || BeyondRepair(disk[first + k]))
  {
    hide BeyondRepair;
  }

  /** A tick of a verify operation and the events until the next tick. */
  method VerifyRound(f: Formatter, gap: nat, ghost j0: Job, ghost d0: Drive, ghost n: nat, ghost lead: nat,
                     ghost t: nat)
    requires f.Underway(j0, d0, n, lead, t) && j0.mode == Verify && gap >= 1
    requires f.osp.state == Idle && !f.osp.repeating && !f.osp.csr2.eccDisable
    modifies f, f.osp, f.osp.channel, f.osp.mem`bytes, f.osp.first, f.osp.second, f.osp.first.data, f.osp.second.data
    ensures f.Underway(j0, d0, n, lead, t + 1) && f.osp.state == Idle && !f.osp.repeating
            && f.osp.csr2 == old(f.osp.csr2)
    ensures f.osp.disk == old(f.osp.disk) && unchanged(f.osp.channel) && f.osp.mem.bytes == old(f.osp.mem.bytes)
    ensures if lead <= t < lead + n
            then && FirstSector(j0) + (t - lead) < |f.osp.disk| && |f.osp.disk[FirstSector(j0) + (t - lead)]| == ENCODED
                 && var sector := f.osp.disk[FirstSector(j0) + (t - lead)];
                    && f.osp.eccCount == Tally(old(f.osp.eccCount), sector)
                    && f.osp.status == (if BeyondRepair(sector) then EccError else old(f.osp.status))
                    && f.osp.signals == old(f.osp.signals) + (if BeyondRepair(sector) then {DataError} else {})
                                        + (if t + 1 == lead + n then {OperationComplete, EccDone} else {})
            else f.osp.eccCount == old(f.osp.eccCount) && f.osp.status == old(f.osp.status)
                 && f.osp.signals == old(f.osp.signals)
  {
    hide Start, Along, Spiral, Progress, BeyondRepair, Tally;
    ProgressNext(n, lead, t);
    ProgressNext(n, lead, t + 1);
    VerifyTick(f, j0, d0, n, lead, t);
    ghost var j, d := f.Now(), f.drives[f.selected];
    if f.osp.state != Idle {
      VerifyEvent(f.osp);
      StillUnderway(f, j, d, f.setup, j0, d0, n, lead, t + 1);
    }
  }

  /** Verifying n sectors: memory, the channel and the disk are left alone, and the operation ends with an
      error exactly if one of the sectors reached is beyond repair. */
  method VerifySectors(f: Formatter, gaps: seq<nat>, n: nat, lead: nat)
    requires f.Begins(n, lead) && f.mode == Verify && (forall g <- gaps :: g >= 1)
    requires f.osp.state == Idle && !f.osp.repeating && !f.osp.csr2.eccDisable
    modifies f, f.osp, f.osp.channel, f.osp.mem`bytes, f.osp.first, f.osp.second, f.osp.first.data, f.osp.second.data
    ensures f.Valid() && f.osp.state == Idle && f.osp.disk == old(f.osp.disk) && unchanged(f.osp.channel)
            && f.osp.mem.bytes == old(f.osp.mem.bytes)
    ensures var k, first := Progress(n, lead, |gaps|), old(FirstSector(f.Now()));
            && first + k <= |f.osp.disk| && f.osp.sectorCount == n - k
            && f.mode == (if k == n then Inactive else Verify)
            && f.osp.eccCount == CountAfter(f.osp.disk, first, k, old(f.osp.eccCount))
            && f.osp.status == (if Fails(f.osp.disk, first, k) then EccError else old(f.osp.status))
            && f.osp.signals == old(f.osp.signals) + (if Fails(f.osp.disk, first, k) then {DataError} else {})
                                + (if k == n then {OperationComplete, EccDone} else {})
  {
    hide Start, Along, Spiral, Progress, Processor.Valid, BeyondRepair, Tally, Fails, FirstSector;
    ghost var j0, d0, first, disk := f.Now(), f.drives[f.selected], FirstSector(f.Now()), f.osp.disk;
    f.Beginning(n, lead);
    ProgressNext(n, lead, 0);
    SectorsWhole(f);
    FailsNext(disk, first, 0);
    var t := 0;
    while t < |gaps|
      invariant t <= |gaps| && f.Underway(j0, d0, n, lead, t) && f.osp.disk == disk
      invariant f.osp.state == Idle && !f.osp.repeating && !f.osp.csr2.eccDisable
      invariant unchanged(f.osp.channel) && f.osp.mem.bytes == old(f.osp.mem.bytes)
      invariant f.osp.eccCount == CountAfter(disk, first, Progress(n, lead, t), old(f.osp.eccCount))
      invariant var bad := Fails(disk, first, Progress(n, lead, t));
                && f.osp.status == (if bad then EccError else old(f.osp.status))
                && f.osp.signals == old(f.osp.signals) + (if bad then {DataError} else {})
                                    + (if t >= lead + n then {OperationComplete, EccDone} else {})
    {
      ProgressNext(n, lead, t);
      assert gaps[t] in gaps;
      VerifyRound(f, gaps[t], j0, d0, n, lead, t);
      if lead <= t < lead + n {
        FailsNext(disk, first, t - lead);
      }
      t := t + 1;
    }
    ProgressNext(n, lead, t);
  }

  lemma SectorsWhole(f: Formatter)
    requires f.Valid()
    ensures |f.osp.disk| == LOGICAL_SECTORS && forall i :: 0 <= i < |f.osp.disk| ==> |f.osp.disk[i]| == ENCODED
  {
  }

  // ----- from memory to disk

  /** A sector on its way from memory to the disk: 0, its buffer is free; 1, it is to be fetched;
      2, it is to be encoded; 3, it waits for its place on the disk. */
  ghost predicate Staged(d: Desk, s: nat, sector: seq<Byte>)
  {
    && d.mode == Writing && !d.repeating
    && match s
       case 0 => d.state == Waiting && d.output.size == 0
       case 1 => d.state == Filling && d.input.size == 0 && d.input.limit == DECODED
       case 2 => d.state == Eccing && d.input.limit == DECODED <= |d.input.data| && d.input.data[..DECODED] == sector
       case _ => d.state == Waiting && d.output.size == d.output.limit == ENCODED && Encoded(d.output.data, sector)
  }

  /** The channel is at the sector at address a, or past it. */
  ghost predicate Supplied(ch: Channel, mem: Memory, s: nat, a: nat, limit: nat, csr: Csr)
    reads ch, mem
  {
    if s <= 1 then Feeding(ch, mem) && Base(ch) == a && ch.limit == limit && ch.csr == csr
    else Fed(ch, mem, a, limit, csr)
  }

  function Later(s: nat, n: nat): (r: nat)
  {
    if s + n < 3 then s + n else 3
  }

  /** One event of the error correction takes the sector one stage further. */
  method NextStage(osp: Processor, ghost s: nat, ghost a: nat, ghost limit: nat, ghost csr: Csr)
    requires osp.Valid() && Usual(osp.csr2) && osp.sectorCount > 0 && a + DECODED <= |osp.mem.bytes|
    requires s <= 3 && Staged(osp.Now(), s, osp.mem.bytes[a..a + DECODED])
             && Supplied(osp.channel, osp.mem, s, a, limit, csr)
    modifies osp`state, osp`mode, osp`repeating, osp`signals, osp`status, osp`eccCount, osp`eccin, osp`eccout,
             osp.channel, osp.mem`bytes, osp.first, osp.second, osp.first.data, osp.second.data
    ensures osp.Valid() && osp.mem.bytes == old(osp.mem.bytes)
    ensures Staged(osp.Now(), Later(s, 1), osp.mem.bytes[a..a + DECODED])
            && Supplied(osp.channel, osp.mem, Later(s, 1), a, limit, csr)
    ensures osp.signals == if s == 2 && osp.sectorCount == 1 then old(osp.signals) + {EccDone} else old(osp.signals)
    ensures osp.status == old(osp.status)
  {
    hide Encoded, Readable, Quiet, SectorBuffer, Stored, Channel.Settled, Channel.Inbound, Channel.Outbound, Drained,
         Aligned, WholeBursts, Sound, Chainable, Feeding, Fed, Base;
    if osp.state == Filling {
      FeedingSound(osp.channel, osp.mem);
    }
    var event := osp.Handler();
  }

  /** Enough events bring the sector to its last stage. */
  method Encoding(osp: Processor, gap: nat, ghost s: nat, ghost a: nat, ghost limit: nat, ghost csr: Csr)
    requires osp.Valid() && Usual(osp.csr2) && osp.sectorCount > 0 && a + DECODED <= |osp.mem.bytes| && s + gap >= 3
    requires s <= 3 && Staged(osp.Now(), s, osp.mem.bytes[a..a + DECODED])
             && Supplied(osp.channel, osp.mem, s, a, limit, csr)
    modifies osp`state, osp`mode, osp`repeating, osp`signals, osp`status, osp`eccCount, osp`eccin, osp`eccout,
             osp.channel, osp.mem`bytes, osp.first, osp.second, osp.first.data, osp.second.data
    ensures osp.Valid() && osp.mem.bytes == old(osp.mem.bytes)
    ensures Staged(osp.Now(), 3, osp.mem.bytes[a..a + DECODED]) && Supplied(osp.channel, osp.mem, 3, a, limit, csr)
    ensures osp.signals == if s <= 2 && osp.sectorCount == 1 then old(osp.signals) + {EccDone} else old(osp.signals)
    ensures osp.status == old(osp.status)
  {
    hide Staged, Supplied, Processor.Valid, Processor.Now;
    var i := 0;
    while i < gap
      invariant i <= gap && osp.Valid() && osp.mem.bytes == old(osp.mem.bytes) && osp.status == old(osp.status)
      invariant Staged(osp.Now(), Later(s, i), osp.mem.bytes[a..a + DECODED])
      invariant Supplied(osp.channel, osp.mem, Later(s, i), a, limit, csr)
      invariant osp.signals ==
                    if s <= 2 < s + i && osp.sectorCount == 1 then old(osp.signals) + {EccDone} else old(osp.signals)
    {
      NextStage(osp, Later(s, i), a, limit, csr);
      i := i + 1;
    }
  }

  /** After the last sector the error correction comes to rest. */
  method Resting(osp: Processor)
    requires osp.Valid() && Usual(osp.csr2) && osp.sectorCount == 0
    requires Staged(osp.Now(), 0, [])
    modifies osp`state, osp`mode, osp`repeating, osp`signals, osp`status, osp`eccCount, osp`eccin, osp`eccout,
             osp.channel, osp.mem`bytes, osp.first, osp.second, osp.first.data, osp.second.data
    ensures osp.Valid() && osp.state == Idle && !osp.repeating && osp.mem.bytes == old(osp.mem.bytes)
    ensures unchanged(osp.channel) && osp.signals == old(osp.signals) && osp.status == old(osp.status)
  {
    hide Encoded, Readable, Quiet, SectorBuffer, Stored, Channel.Settled, Channel.Inbound, Channel.Outbound, Drained,
         Sound, Chainable, Feeding, Fed, Base;
    var event := osp.Handler();
  }

  /** What a tick of a write operation does to the buffers and the disk. */
  lemma WriteOperated(d: Desk, mode: Mode, hit: bool, k: nat)
    requires (mode == Write || mode == Inactive) && (hit ==> mode == Write && k < |d.disk| && d.state != Idle)
    ensures var r := Operated(d, false, mode, hit, k);
            && (mode == Inactive ==> r == d)
            && (mode == Write && d.state == Idle && !hit ==>
                  r == d.(state := Filling, mode := Writing, input := Bank(0, DECODED, d.input.data)))
            && (mode == Write && d.state != Idle ==> r == if hit then Saved(d, k) else d)
  {
  }

  /** A tick of a write operation. */
  method WriteTick(f: Formatter, ghost j0: Job, ghost d0: Drive, ghost n: nat, ghost lead: nat, ghost t: nat,
                   ghost sector: seq<Byte>)
    requires f.Underway(j0, d0, n, lead, t) && j0.mode == Write && lead > 0 && Usual(f.osp.csr2)
    requires if 0 < t < lead + n then f.writeTiming && Staged(f.osp.Now(), 3, sector)
             else f.osp.state == Idle && !f.osp.repeating
    modifies f, f.osp`sectorCount, f.osp`signals, f.osp`state, f.osp`mode, f.osp`repeating, f.osp`disk, f.osp.first,
             f.osp.second, f.osp.first.data, f.osp.second.data
    ensures f.Underway(j0, d0, n, lead, t + 1)
    ensures f.osp.signals == if t + 1 == lead + n then old(f.osp.signals) + {OperationComplete} else old(f.osp.signals)
    ensures t < lead + n ==> f.writeTiming
    ensures t < lead || t >= lead + n ==> f.osp.disk == old(f.osp.disk)
    ensures lead <= t < lead + n ==>
              var k := FirstSector(j0) + (t - lead);
              f.osp.disk == old(f.osp.disk)[k := f.osp.disk[k]] && Encoded(f.osp.disk[k], sector)
                  && Staged(f.osp.Now(), 0, sector)
    ensures t == 0 ==> Staged(f.osp.Now(), 1, sector)
    ensures 0 < t < lead ==> Staged(f.osp.Now(), 3, sector)
    ensures t >= lead + n ==> f.osp.state == Idle && !f.osp.repeating
  {
    hide Start, Along, Processor.Valid, Spiral, Operated, Progress, Encoded;
    WriteOperated(f.osp.Now(), f.mode, lead <= t < lead + n, FirstSector(j0) + if t <= lead then 0 else t - lead);
    f.Advance(j0, d0, n, lead, t);
  }

  /** The state between two ticks of a write operation, after the events of the gap. */
  ghost predicate AtWrite(f: Formatter, n: nat, lead: nat, t: nat, base: nat, csr: Csr)
    reads f, f.osp, f.osp.first, f.osp.second, f.osp.first.data, f.osp.second.data, f.osp.channel, f.osp.mem
    requires f.osp.Valid() && base + n * DECODED <= |f.osp.mem.bytes|
  {
    var k, ch, mem, limit := Progress(n, lead, t), f.osp.channel, f.osp.mem, base + n * DECODED;
    if t == 0 then f.osp.state == Idle && !f.osp.repeating && Supplied(ch, mem, 1, base, limit, csr)
    else if t >= lead + n then f.osp.state == Idle && !f.osp.repeating && Quiet(ch) && ch.Settled(limit, limit, csr)
    else
      && f.writeTiming && base + k * DECODED + DECODED <= limit
      && Staged(f.osp.Now(), 3, mem.bytes[base + k * DECODED..base + k * DECODED + DECODED])
      && Supplied(ch, mem, 3, base + k * DECODED, limit, csr)
  }

  /** The events after a tick of a write operation. */
  method WriteGap(f: Formatter, gap: nat, ghost n: nat, ghost lead: nat, ghost t: nat, ghost base: nat, ghost csr: Csr)
    requires f.Valid() && Usual(f.osp.csr2) && gap >= 3 && lead > 0 && n > 0 && base + n * DECODED <= |f.osp.mem.bytes|
    requires f.osp.sectorCount == n - Progress(n, lead, t + 1) && (t < lead + n ==> f.writeTiming)
    requires 0 < t < lead ==> AtWrite(f, n, lead, t, base, csr)
    requires t == 0 ==>
               Staged(f.osp.Now(), 1, []) && Supplied(f.osp.channel, f.osp.mem, 1, base, base + n * DECODED, csr)
    requires lead <= t < lead + n ==>
               Staged(f.osp.Now(), 0, [])
               && Supplied(f.osp.channel, f.osp.mem, 3, base + (t - lead) * DECODED, base + n * DECODED, csr)
    requires t >= lead + n ==> AtWrite(f, n, lead, t, base, csr)
    modifies f.osp`state, f.osp`mode, f.osp`repeating, f.osp`signals, f.osp`status, f.osp`eccCount, f.osp`eccin,
             f.osp`eccout, f.osp.channel, f.osp.mem`bytes, f.osp.first, f.osp.second, f.osp.first.data,
             f.osp.second.data
    ensures f.Valid() && f.osp.mem.bytes == old(f.osp.mem.bytes) && AtWrite(f, n, lead, t + 1, base, csr)
    ensures f.osp.status == old(f.osp.status)
    ensures f.osp.signals == if t + 1 == Last(n, lead) then old(f.osp.signals) + {EccDone} else old(f.osp.signals)
  {
    hide Encoded, Processor.Valid, Processor.Now, Feeding, Quiet, Channel.Settled, Progress;
    ghost var ch, mem, limit := f.osp.channel, f.osp.mem, base + n * DECODED;
    ProgressNext(n, lead, t);
    ProgressNext(n, lead, t + 1);
    if f.osp.sectorCount > 0 {
      ghost var a := base + Progress(n, lead, t + 1) * DECODED;
      Encoding(f.osp, gap, if t == 0 then 1 else if t < lead then 3 else 0, a, limit, csr);
    } else if f.osp.state != Idle {
      Resting(f.osp);
    }
  }

  /** The tick with which the last sector is about to be encoded. */
  function Last(n: nat, lead: nat): (t: int)
  {
    if n == 1 then 1 else lead + n - 1
  }

  /** A tick of a write operation and the events until the next tick. */
  method WriteRound(f: Formatter, gap: nat, ghost j0: Job, ghost d0: Drive, ghost n: nat, ghost lead: nat, ghost t: nat,
                    ghost base: nat, ghost csr: Csr)
    requires f.Underway(j0, d0, n, lead, t) && j0.mode == Write && lead > 0 && Usual(f.osp.csr2) && gap >= 3
    requires base + n * DECODED <= |f.osp.mem.bytes| && AtWrite(f, n, lead, t, base, csr)
    modifies f, f.osp, f.osp.channel, f.osp.mem`bytes, f.osp.first, f.osp.second, f.osp.first.data, f.osp.second.data
    ensures f.Underway(j0, d0, n, lead, t + 1) && f.osp.csr2 == old(f.osp.csr2)
            && f.osp.mem.bytes == old(f.osp.mem.bytes)
    ensures AtWrite(f, n, lead, t + 1, base, csr) && f.osp.status == old(f.osp.status)
    ensures f.osp.signals == old(f.osp.signals) + (if t + 1 == Last(n, lead) then {EccDone} else {})
                             + (if t + 1 == lead + n then {OperationComplete} else {})
    ensures t < lead || t >= lead + n ==> f.osp.disk == old(f.osp.disk)
    ensures lead <= t < lead + n ==>
              var k := FirstSector(j0) + (t - lead);
              && f.osp.disk == old(f.osp.disk)[k := f.osp.disk[k]]
              && Encoded(f.osp.disk[k],
                         f.osp.mem.bytes[base + (t - lead) * DECODED..base + (t - lead) * DECODED + DECODED])
  {
    hide Encoded, Processor.Valid, Processor.Now, Feeding, Quiet, Channel.Settled, Progress, Start, Along, Spiral, Fed;
    ProgressNext(n, lead, t);
    ghost var a := base + Progress(n, lead, t) * DECODED;
    WriteTick(f, j0, d0, n, lead, t, if 0 < t < lead + n then f.osp.mem.bytes[a..a + DECODED] else []);
    ghost var j, d := f.Now(), f.drives[f.selected];
    WriteGap(f, gap, n, lead, t, base, csr);
    StillUnderway(f, j, d, f.setup, j0, d0, n, lead, t + 1);
  }

  /** The first k sectors of data are on the disk from sector first on, and nothing else changed. */
  ghost predicate Written(before: seq<seq<Byte>>, after: seq<seq<Byte>>, first: nat, data: seq<Byte>, k: nat)
  {
    && |after| == |before| && first + k <= |before| && k * DECODED <= |data|
    && (forall i :: 0 <= i < |before| && !(first <= i < first + k) ==> after[i] == before[i])
    && forall i: nat :: i < k ==> Encoded(after[first + i], SectorOf(data, i))
  }

  lemma WrittenNext(before: seq<seq<Byte>>, mid: seq<seq<Byte>>, after: seq<seq<Byte>>, first: nat, data: seq<Byte>,
                    k: nat)
    requires Written(before, mid, first, data, k) && first + k < |before| && (k + 1) * DECODED <= |data|
    requires |after| == |mid| && after == mid[first + k := after[first + k]]
        && Encoded(after[first + k], SectorOf(data, k))
    ensures Written(before, after, first, data, k + 1)
  {
    hide Encoded, SectorOf;
  }

  /** A buffer for n sectors can be read as well as written. */
  lemma RoomFeeds(ch: Channel, mem: Memory, n: nat)
    requires RoomFor(ch, mem, n) && n > 0
    ensures Supplied(ch, mem, 1, ch.next, ch.next + n * DECODED, ch.csr) && ch.next + n * DECODED <= |mem.bytes|
            && !ch.csr.supdate
  {
    QuietFlows(ch);
    EmptyWindow(ch.buf, ch.lim);
  }

  /** The interrupts of a write operation after t ticks. */
  function Raised(signals: set<Signal>, n: nat, lead: nat, t: nat): (r: set<Signal>)
  {
    signals + (if t >= Last(n, lead) then {EccDone} else {}) + (if t >= lead + n then {OperationComplete} else {})
  }

  lemma RaisedNext(signals: set<Signal>, n: nat, lead: nat, t: nat)
    requires n > 0 && lead > 0
    ensures Raised(signals, n, lead, 0) == signals
    ensures Raised(signals, n, lead, t + 1) ==
                Raised(signals, n, lead, t) + (if t + 1 == Last(n, lead) then {EccDone} else {})
                                               + (if t + 1 == lead + n then {OperationComplete} else {})
  {
  }

  lemma SameSector(bytes: seq<Byte>, base: nat, n: nat, k: nat)
    requires k < n && base + n * DECODED <= |bytes|
    ensures (k + 1) * DECODED <= |bytes[base..base + n * DECODED]|
    ensures SectorOf(bytes[base..base + n * DECODED], k) == bytes[base + k * DECODED..base + k * DECODED + DECODED]
  {
    Slice(bytes, base, n * DECODED, k * DECODED, (k + 1) * DECODED);
  }

  lemma DiskSize(osp: Processor)
    requires osp.Valid()
    ensures |osp.disk| == LOGICAL_SECTORS
  {
  }

  lemma WriteBegins(f: Formatter, n: nat, lead: nat, base: nat, csr: Csr)
    requires f.osp.Valid() && base + n * DECODED <= |f.osp.mem.bytes| && f.osp.state == Idle && !f.osp.repeating
    requires Supplied(f.osp.channel, f.osp.mem, 1, base, base + n * DECODED, csr)
    ensures AtWrite(f, n, lead, 0, base, csr) && |f.osp.disk| == LOGICAL_SECTORS
  {
  }

  lemma WriteEnds(f: Formatter, n: nat, lead: nat, t: nat, base: nat, csr: Csr)
    requires f.osp.Valid() && base + n * DECODED <= |f.osp.mem.bytes| && AtWrite(f, n, lead, t, base, csr)
    requires t >= lead + n && lead > 0 && !csr.supdate
    ensures f.osp.state == Idle && !f.osp.repeating && RoomFor(f.osp.channel, f.osp.mem, 0)
  {
  }

  /** Writing n sectors: whatever the lead, if there is one, and however many events fit between two
      ticks, provided three do, each tick after the lead puts one more sector, encoded, on the disk. */
  method WriteSectors(f: Formatter, gaps: seq<nat>, n: nat, lead: nat)
    requires f.Begins(n, lead) && f.mode == Write && lead > 0 && (forall g <- gaps :: g >= 3)
    requires f.osp.state == Idle && !f.osp.repeating && Usual(f.osp.csr2) && RoomFor(f.osp.channel, f.osp.mem, n)
    modifies f, f.osp, f.osp.channel, f.osp.mem`bytes, f.osp.first, f.osp.second, f.osp.first.data, f.osp.second.data
    ensures f.Valid() && f.osp.mem.bytes == old(f.osp.mem.bytes) && f.osp.status == old(f.osp.status)
            && f.osp.csr2 == old(f.osp.csr2)
    ensures old(f.osp.channel.next) + n * DECODED <= |f.osp.mem.bytes|
    ensures var k, base := Progress(n, lead, |gaps|), old(f.osp.channel.next);
            && Written(old(f.osp.disk), f.osp.disk, old(FirstSector(f.Now())),
                       f.osp.mem.bytes[base..base + n * DECODED], k)
            && f.osp.sectorCount == n - k && f.mode == (if k == n then Inactive else Write)
            && f.osp.signals == Raised(old(f.osp.signals), n, lead, |gaps|)
            && (k == n ==> f.osp.state == Idle && !f.osp.repeating && RoomFor(f.osp.channel, f.osp.mem, 0))
  {
    hide Encoded, Start, Along, RoomFor, Processor.Valid, Spiral, SectorOf, Progress, Supplied, Staged, Written, Raised,
         Last, AtWrite, Operating, HeadFor;
    ghost var j0, d0, base, csr := f.Now(), f.drives[f.selected], f.osp.channel.next, f.osp.channel.csr;
    f.Beginning(n, lead);
    RoomFeeds(f.osp.channel, f.osp.mem, n);
    WriteBegins(f, n, lead, base, csr);
    ghost var bytes := f.osp.mem.bytes;
    ghost var data := bytes[base..base + n * DECODED];
    ProgressNext(n, lead, 0);
    RaisedNext(f.osp.signals, n, lead, 0);
    WrittenNothing(f.osp.disk, FirstSector(j0), data);
    var t := 0;
    while t < |gaps|
      invariant t <= |gaps| && f.Underway(j0, d0, n, lead, t) && Usual(f.osp.csr2)
      invariant f.osp.mem.bytes == bytes && f.osp.status == old(f.osp.status)
      invariant AtWrite(f, n, lead, t, base, csr)
      invariant Written(old(f.osp.disk), f.osp.disk, FirstSector(j0), data, Progress(n, lead, t))
      invariant f.osp.signals == Raised(old(f.osp.signals), n, lead, t)
    {
      ghost var mid := f.osp.disk;
      DiskSize(f.osp);
      ProgressNext(n, lead, t);
      RaisedNext(old(f.osp.signals), n, lead, t);
      assert gaps[t] in gaps;
      WriteRound(f, gaps[t], j0, d0, n, lead, t, base, csr);
      if lead <= t < lead + n {
        SameSector(bytes, base, n, t - lead);
        DiskSize(f.osp);
        WrittenNext(old(f.osp.disk), mid, f.osp.disk, FirstSector(j0), data, t - lead);
      }
      t := t + 1;
    }
    ProgressNext(n, lead, t);
    if t >= lead + n {
      WriteEnds(f, n, lead, t, base, csr);
    }
  }

  lemma WrittenNothing(disk: seq<seq<Byte>>, first: nat, data: seq<Byte>)
    requires first <= |disk|
    ensures Written(disk, disk, first, data, 0)
  {
  }

  // ----- there and back

  /** Time passes for the disk: each sector wears in a way that its code can repair. */
  ghost predicate Aged(before: seq<seq<Byte>>, after: seq<seq<Byte>>)
  {
    |after| == |before| && forall i :: 0 <= i < |before| ==> Worn(before[i], after[i])
  }

  lemma AgedHolds(start: seq<seq<Byte>>, before: seq<seq<Byte>>, after: seq<seq<Byte>>, first: nat, data: seq<Byte>,
                  n: nat)
    requires Written(start, before, first, data, n) && Aged(before, after) && |data| == n * DECODED
    ensures Holds(after, first, data, n)
  {
    hide Encoded, Worn, Readable, SectorOf;
    forall i: nat | i < n
      ensures Readable(after[first + i], SectorOf(data, i))
    {
      WornReadable(before[first + i], SectorOf(data, i), after[first + i]);
    }
  }

  /** The computer sets up the channel for n sectors at address to. */
  method SetChannel(ch: Channel, mem: Memory, n: nat, to: nat, dev2m: bool)
    requires ch.Shape() && n > 0 && WholeBursts(to) && Clear(mem, to, n * DECODED)
    modifies ch
    ensures RoomFor(ch, mem, n) && ch.next == to
  {
    hide Clear, WholeBursts, Aligned, Window;
    ch.next, ch.limit := to, to + n * DECODED;
    ch.CsrWrite(dev2m, Command(true, true, false, true, true));
    SectorsAligned(to, n);
  }

  lemma {:induction false} SectorsAligned(to: nat, n: nat)
    requires WholeBursts(to)
    ensures WholeBursts(to + n * DECODED) && Aligned(to)
  {
    hide WholeBursts;
    OneMoreSector(to);
    if n > 0 {
      SectorsAligned(to, n - 1);
      OneMoreSector(to + (n - 1) * DECODED);
      assert to + n * DECODED == to + (n - 1) * DECODED + DECODED;
    }
  }

  lemma OneMoreSector(a: nat)
    requires WholeBursts(a)
    ensures WholeBursts(a + DECODED) && Aligned(a)
  {
  }

  /** What the computer asks for: an operation on n sectors from the given one on, which comes lead
      sectors after the one under the head. */
  datatype Request = Request(mode: Mode, n: nat, track: nat, sector: nat, drive: Drive, lead: nat)

  ghost predicate Proper(q: Request)
  {
    && Operating(q.mode) && q.n > 0 && q.sector < SECTORS_PER_TRACK && TRACK_OFFSET <= q.track
    && q.lead <= SECTOR_TIMEOUT
    && q.drive.spiraling && !q.drive.seeking && q.drive.offset < SECTORS_PER_TRACK && q.drive.head == HeadFor(q.mode)
    && Spiral(q.track, q.sector) == Spiral(q.drive.position, q.drive.offset) + q.lead
    && Spiral(q.track, q.sector) + q.n <= (TRACK_OFFSET + TRACK_LIMIT) * SECTORS_PER_TRACK
  }

  method SetFormatter(f: Formatter, q: Request)
    requires f.Valid() && Proper(q)
    modifies f, f.osp`sectorCount
    ensures f.Begins(q.n, q.lead) && f.mode == q.mode && f.track == q.track && f.sector == q.sector
  {
    hide Spiral;
    f.mode, f.track, f.sector, f.timer, f.writeTiming, f.setup := q.mode, q.track, q.sector, 0, false,
        f.setup.(increment := 1);
    f.osp.sectorCount := q.n;
    f.drives := f.drives[f.selected := q.drive];
    StartBound(f.Now(), f.setup, q.drive, q.n, q.lead);
  }

  lemma RoomShape(ch: Channel, mem: Memory, n: nat)
    requires RoomFor(ch, mem, n)
    ensures ch.Shape()
  {
  }

  /** The first logical sector of a request. */
  function First(q: Request): (n: nat)
    requires TRACK_OFFSET <= q.track
  {
    Spiral(q.track, q.sector) - TRACK_OFFSET * SECTORS_PER_TRACK
  }

  /** A write request carried out in full. */
  method Store(f: Formatter, q: Request, from: nat, gaps: seq<nat>)
    requires f.Valid() && f.osp.channel.Shape() && f.osp.state == Idle && !f.osp.repeating && Usual(f.osp.csr2)
    requires Proper(q) && q.mode == Write && q.lead > 0 && |gaps| >= q.lead + q.n && (forall g <- gaps :: g >= 3)
    requires WholeBursts(from) && Clear(f.osp.mem, from, q.n * DECODED)
    modifies f, f.osp, f.osp.channel, f.osp.mem`bytes, f.osp.first, f.osp.second, f.osp.first.data, f.osp.second.data
    ensures f.Valid() && f.osp.channel.Shape() && f.osp.state == Idle && !f.osp.repeating && Usual(f.osp.csr2)
    ensures f.mode == Inactive && f.osp.sectorCount == 0 && f.osp.mem.bytes == old(f.osp.mem.bytes)
    ensures Written(old(f.osp.disk), f.osp.disk, First(q), f.osp.mem.bytes[from..from + q.n * DECODED], q.n)
    ensures f.osp.signals == old(f.osp.signals) + {EccDone, OperationComplete} && f.osp.status == old(f.osp.status)
  {
    hide Spiral, Written, RoomFor, Start, Processor.Valid, Progress;
    ProgressNext(q.n, q.lead, |gaps|);
    AllRaised(f.osp.signals, q.n, q.lead, |gaps|);
    SetChannel(f.osp.channel, f.osp.mem, q.n, from, false);
    SetFormatter(f, q);
    WriteSectors(f, gaps, q.n, q.lead);
    RoomShape(f.osp.channel, f.osp.mem, 0);
  }

  lemma AllRaised(signals: set<Signal>, n: nat, lead: nat, t: nat)
    requires n > 0 && lead > 0 && t >= lead + n
    ensures Raised(signals, n, lead, t) == signals + {EccDone, OperationComplete}
  {
  }

  /** A read request carried out in full. */
  method Fetch(f: Formatter, q: Request, to: nat, gaps: seq<nat>, ghost data: seq<Byte>)
    requires f.Valid() && f.osp.channel.Shape() && f.osp.state == Idle && !f.osp.repeating && Usual(f.osp.csr2)
    requires Proper(q) && q.mode == Read && |gaps| >= q.lead + q.n && (forall g <- gaps :: g >= 2)
    requires WholeBursts(to) && Clear(f.osp.mem, to, q.n * DECODED)
    requires |data| == q.n * DECODED && Holds(f.osp.disk, First(q), data, q.n)
    modifies f, f.osp, f.osp.channel, f.osp.mem`bytes, f.osp.first, f.osp.second, f.osp.first.data, f.osp.second.data
    ensures f.Valid() && f.osp.state == Idle && f.mode == Inactive && f.osp.sectorCount == 0
            && f.osp.disk == old(f.osp.disk)
    ensures Stored(old(f.osp.mem.bytes), f.osp.mem.bytes, to, data)
    ensures f.osp.signals == old(f.osp.signals) + {OperationComplete, EccDone} && f.osp.status == old(f.osp.status)
  {
    hide Spiral, Stored, Holds, RoomFor, Start, Processor.Valid, Progress;
    ProgressNext(q.n, q.lead, |gaps|);
    SetChannel(f.osp.channel, f.osp.mem, q.n, to, true);
    SetFormatter(f, q);
    ReadSectors(f, gaps, q.n, q.lead, data);
    NothingLeft(data);
  }

  /** Every sector has its full length. */
  predicate Formatted(disk: seq<seq<Byte>>)
  {
    |disk| == LOGICAL_SECTORS && forall i :: 0 <= i < |disk| ==> |disk[i]| == ENCODED
  }

  method Age(osp: Processor, aging: seq<seq<Byte>> -> seq<seq<Byte>>)
    requires osp.Valid() && forall disk :: Formatted(disk) ==> Aged(disk, aging(disk))
    modifies osp`disk
    ensures osp.Valid() && Aged(old(osp.disk), osp.disk)
  {
    hide Worn;
    ghost var before := osp.disk;
    assert Formatted(before);
    osp.disk := aging(osp.disk);
    forall i | 0 <= i < |before|
      ensures |osp.disk[i]| == ENCODED
    {
      WornLength(before[i], osp.disk[i]);
    }
  }

  /** The end-to-end round trip: n sectors leave memory through the FIFO bursts, are encoded and
      written under the spiralling head; the disk wears in any way the code can repair; they are
      read back, decoded and drained to another place, which then holds the same bytes. */
  method RoundTrip(f: Formatter, w: Request, r: Request, from: nat, to: nat, writing: seq<nat>, reading: seq<nat>,
                   aging: seq<seq<Byte>> -> seq<seq<Byte>>)
    requires f.Valid() && f.osp.channel.Shape() && f.osp.state == Idle && !f.osp.repeating && Usual(f.osp.csr2)
    requires Proper(w) && w.mode == Write && w.lead > 0 && |writing| >= w.lead + w.n && (forall g <- writing :: g >= 3)
    requires Proper(r) && r.mode == Read && r.n == w.n && r.track == w.track && r.sector == w.sector
    requires |reading| >= r.lead + r.n && forall g <- reading :: g >= 2
    requires WholeBursts(from) && Clear(f.osp.mem, from, w.n * DECODED) && WholeBursts(to)
             && Clear(f.osp.mem, to, w.n * DECODED)
    requires forall disk :: Formatted(disk) ==> Aged(disk, aging(disk))
    modifies f, f.osp, f.osp.channel, f.osp.mem`bytes, f.osp.first, f.osp.second, f.osp.first.data, f.osp.second.data
    ensures f.Valid() && f.osp.state == Idle && f.mode == Inactive && f.osp.sectorCount == 0
    ensures Stored(old(f.osp.mem.bytes), f.osp.mem.bytes, to, old(f.osp.mem.bytes[from..from + w.n * DECODED]))
  {
    hide Spiral, Stored, Written, Holds, RoomFor, Start, Aged, Processor.Valid, Progress, Formatted;
    ghost var n, data, disk := w.n, f.osp.mem.bytes[from..from + w.n * DECODED], f.osp.disk;
    ProgressNext(n, w.lead, |writing|);
    ProgressNext(n, r.lead, |reading|);
    Store(f, w, from, writing);
    ghost var written := f.osp.disk;
    Age(f.osp, aging);
    AgedHolds(disk, written, f.osp.disk, First(w), data, n);
    Fetch(f, r, to, reading, data);
  }
}
