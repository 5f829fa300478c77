/** The error-correcting side of mo.c: two sector buffers between the DMA channel and the disk. */
module Mo {
  import opened Bytes
  import opened RsSector
  import opened Dma
  import opened DmaModel
  import opened DmaRuns
  import opened DmaDriver

  const SECTORS_PER_TRACK: nat := 16
  const TRACK_OFFSET: nat := 4096
  const TRACK_LIMIT: nat := 19819 - TRACK_OFFSET
  const LOGICAL_SECTORS: nat := TRACK_LIMIT * SECTORS_PER_TRACK

  datatype EccState = Filling | Draining | Eccing | Waiting | Idle
  datatype EccMode = Reading | Writing | Verifying
  datatype Signal = OperationComplete | EccDone | DataError | Timeout
  datatype ErrorStatus = NoError | EccError | Starvation

  /** The controller bits that steer the error correction. */
  datatype Csr2 = Csr2(eccDisable: bool, eccMode: bool, eccBlocks: bool)

  /** get_logical_sector aborts outside this range. */
  predicate OnDisk(id: nat)
  {
    TRACK_OFFSET <= id / 256 % 65536 < TRACK_OFFSET + TRACK_LIMIT
  }

  /** get_logical_sector. */
  function LogicalSector(id: nat): (n: nat)
    requires OnDisk(id)
    ensures n < LOGICAL_SECTORS
  {
    (id / 256 % 65536 - TRACK_OFFSET) * SECTORS_PER_TRACK + id % 16
  }

  /** A sector image from which decoding recovers the data. */
  ghost predicate Readable(t: seq<Byte>, data: seq<Byte>)
  {
    && |t| >= ENCODED
    && (forall c :: 0 <= c < 32 ==> !Uncorrectable(RowPass(t), c))
    && Compact(ColPass(RowPass(t), 32)) == data
  }

  /** A sector image with a column that cannot be corrected after the row pass. */
  ghost predicate BeyondRepair(t: seq<Byte>)
    requires |t| >= ENCODED
  {
    exists c :: 0 <= c < 32 && Uncorrectable(RowPass(t), c)
  }

  /** The error count after a decoding: the first count that is not zero stays, and a sector beyond repair adds none. */
  ghost function Tally(count: nat, sector: seq<Byte>): (r: nat)
    requires |sector| == ENCODED
  {
    if count != 0 || BeyondRepair(sector) then count
    else (RowCount(sector, 36) + ColCount(RowPass(sector), 32)) % 256
  }

  /** Undamaged sectors are readable, and so are damaged ones within the limits of the code. */
  lemma DamagedReadable(s: seq<Byte>, data: seq<Byte>, t: seq<Byte>, bad: nat)
    requires Encoded(s, data) && |t| >= ENCODED && bad < 36
    requires forall r :: 0 <= r < 36 && r != bad ==> Repairable(Row(s, r), Row(t, r))
    ensures Readable(t, data)
  {
    SectorCorrected(s, data, t, bad);
  }

  /** Outside row bad, t is s with damage that the row pass repairs. */
  ghost predicate WornBut(s: seq<Byte>, t: seq<Byte>, bad: nat)
  {
    |s| == |t| == ENCODED && bad < 36 && forall r :: 0 <= r < 36 && r != bad ==> Repairable(Row(s, r), Row(t, r))
  }

  ghost predicate Worn(s: seq<Byte>, t: seq<Byte>)
  {
    exists bad: nat :: WornBut(s, t, bad)
  }

  lemma WornReadable(s: seq<Byte>, data: seq<Byte>, t: seq<Byte>)
    requires Encoded(s, data) && Worn(s, t)
    ensures Readable(t, data)
  {
    hide Encoded, Readable, Repairable, Row;
    var bad: nat :| WornBut(s, t, bad);
    DamagedReadable(s, data, t, bad);
  }

  lemma EncodedReadable(s: seq<Byte>, data: seq<Byte>)
    requires Encoded(s, data)
    ensures Readable(s, data)
  {
    hide RowPass, ColPass, Compact, Uncorrectable, Row;
    forall r | 0 <= r < 36
      ensures Repairable(Row(s, r), Row(s, r))
    {
      assert Row(s, r) == Row(s, r)[0 := Row(s, r)[0]];
    }
    SectorCorrected(s, data, s, 0);
  }

  lemma WornLength(s: seq<Byte>, t: seq<Byte>)
    requires Worn(s, t)
    ensures |t| == ENCODED
  {
  }

  /** Nothing in the FIFO, and the streams agree. */
  ghost predicate Quiet(ch: Channel)
    reads ch
  {
    ch.Shape() && ch.size == ch.lim == 0 && ch.taken == ch.delivered
  }

  lemma QuietFlows(ch: Channel)
    ensures Quiet(ch) ==> ch.Inbound() && ch.Outbound() && ch.Fifo() == []
    ensures ch.Shape() && ch.lim == ch.size == 0 && ch.Flowing() ==> Quiet(ch)
  {
    AlignedBurst();
    if ch.Shape() && ch.size == 0 {
      EmptyWindow(ch.buf, ch.lim);
      NothingLeft(ch.delivered);
    }
  }

  /** Room for a sector, aligned and free of faults. */
  ghost predicate SectorBuffer(ch: Channel, mem: Memory)
    reads ch, mem
  {
    && ch.csr.enable && Aligned(ch.next) && WholeBursts(ch.limit)
    && ch.next + DECODED <= ch.limit && Clear(mem, ch.next, DECODED)
  }

  /** Where the bytes in a FIFO that is filled from memory come from. */
  ghost function Base(ch: Channel): (a: nat)
    reads ch
  {
    if ch.size <= ch.next then ch.next - ch.size else 0
  }

  /** One or more sectors in memory are to be fetched; the first burst may be in the FIFO already. */
  ghost predicate Feeding(ch: Channel, mem: Memory)
    reads ch, mem
  {
    && ch.Outbound() && ch.csr.enable && WholeBursts(ch.limit) && Aligned(Base(ch)) && ch.size <= ch.next
    && (ch.size == ch.lim == 0 || ch.size == ch.lim == BURST)
    && Base(ch) + DECODED <= ch.limit && Sectors(ch.limit - Base(ch)) && Clear(mem, Base(ch), ch.limit - Base(ch))
    && ch.Fifo() == mem.bytes[Base(ch)..ch.next]
  }

  predicate Sectors(n: int)
  {
    n % DECODED == 0
  }

  /** After a sector at base was fetched: the next one is to be fetched, or the buffer is used up. */
  ghost predicate Fed(ch: Channel, mem: Memory, base: nat, limit: nat, csr: Csr)
    reads ch, mem
  {
    if base + DECODED < limit then Feeding(ch, mem) && Base(ch) == base + DECODED && ch.limit == limit && ch.csr == csr
    else Quiet(ch) && ch.Settled(limit, limit, csr)
  }

  lemma FeedingSound(ch: Channel, mem: Memory)
    requires Feeding(ch, mem)
    ensures Sound(ch) && ch.Outbound() && ch.Shape()
  {
  }

  /** What dma_mo_read_memory aborts on, and dma_mo_write_memory too. */
  ghost predicate Sound(ch: Channel)
    reads ch
  {
    ch.csr.enable ==> Aligned(ch.next) && WholeBursts(ch.limit)
  }

  /** The chained buffer would not abort either. */
  ghost predicate Chainable(ch: Channel)
    reads ch
  {
    ch.csr.supdate ==> Aligned(ch.start) && WholeBursts(ch.stop)
  }

  /** After a sector was stored at n: the rest of the buffer is to be filled, or it is full. */
  ghost predicate Drained(ch: Channel, n: nat, l: nat, c: Csr)
    reads ch
  {
    && (n + DECODED < l ==> ch.next == n + DECODED && ch.limit == l && ch.csr == c)
    && (n + DECODED == l && !c.supdate ==> ch.next == ch.limit == l && ch.csr == c.(complete := true, enable := false))
  }

  // ----- one sector through the channel

  /** No access to the n bytes at lo faults. */
  ghost predicate Unfaulted(len: nat, faults: iset<nat>, lo: nat, n: nat)
  {
    lo + n <= len && forall a :: lo <= a < lo + n ==> a !in faults
  }

  lemma AllOpen(len: nat, faults: iset<nat>, lo: nat, n: nat)
    requires Unfaulted(len, faults, lo, n) && Aligned(n)
    ensures Open(len, faults, lo, n)
  {
    forall k | 0 <= k < n && Aligned(k)
      ensures LongOk(len, faults, lo + k)
    {
      AlignedLess(k, n);
    }
  }

  /** A memory-to-device transfer without a fault, once its numbers are known. */
  lemma MovedOutIs(w: World, a: seq<Byte>, n: nat, b: nat)
    requires Shaped(w) && w.dev == [] && w.regs.csr.enable && w.regs.next < w.regs.limit
    requires OpenLength(|w.image|, w.faults, w.regs.next, w.regs.limit - w.regs.next) == w.regs.limit - w.regs.next
    requires a == w.fifo + Peek(w.image, w.regs.next, w.regs.limit - w.regs.next)
             && |a| == |w.fifo| + w.regs.limit - w.regs.next
    requires Whole(|a|, Full(w)) == |a| && n == Passed(|a|, Full(w), w.places)
             && |w.fifo| <= b == Held(|a|, Full(w), w.places)
    ensures var r := MovedOut(w).0;
            && r.dev == a[..n] && r.fifo == a[n..b] && r.lim == (if n == |a| then 0 else BURST) && r.image == w.image
            && r.regs == Settle(w.regs.(next := w.regs.next + b - |w.fifo|))
  {
    hide OpenLength, Passed, Whole, Held, Settle, Broken, Peek;
  }

  /** A channel about to fetch the sectors from base on, with an empty buffer for one. */
  ghost predicate Fetching(w: World, base: nat)
  {
    && Shaped(w) && w.dev == [] && w.places == DECODED && w.regs.csr.enable && WholeBursts(w.regs.limit)
    && Aligned(base)
    && ((w.fifo == [] && w.lim == 0) || |w.fifo| == w.lim == BURST)
    && w.regs.next == base + |w.fifo| && base + DECODED <= w.regs.limit && Sectors(w.regs.limit - base)
    && Unfaulted(|w.image|, w.faults, base, w.regs.limit - base) && w.fifo == w.image[base..w.regs.next]
  }

  lemma SectorsOpen(w: World, base: nat)
    requires Fetching(w, base)
    ensures w.regs.next < w.regs.limit <= |w.image|
    ensures OpenLength(|w.image|, w.faults, w.regs.next, w.regs.limit - w.regs.next) == w.regs.limit - w.regs.next
    ensures w.fifo + Peek(w.image, w.regs.next, w.regs.limit - w.regs.next) == w.image[base..w.regs.limit]
    ensures base + DECODED < w.regs.limit ==> base + DECODED + BURST < w.regs.limit
  {
    hide OpenLength, WholeBursts, Sectors, Peek;
    var g := w.regs;
    NextBurst(base, |w.fifo|, g.limit);
    AllOpen(|w.image|, w.faults, g.next, g.limit - g.next);
    OpenExactly(|w.image|, w.faults, g.next, g.limit - g.next, g.limit - g.next);
    PeekIs(w.image, base, |w.fifo|, g.limit);
  }

  /** A fetch of one sector from one or more: the sector arrives, and one burst of the next. */
  lemma SectorFetched(w: World, base: nat)
    requires Fetching(w, base)
    ensures var r, more := MovedOut(w).0, base + DECODED < w.regs.limit;
            && base + DECODED + r.lim <= |w.image|
            && r.dev == w.image[base..base + DECODED] && r.image == w.image && r.lim == (if more then BURST else 0)
            && r.fifo == w.image[base + DECODED..base + DECODED + r.lim]
            && r.regs == Settle(w.regs.(next := if more then base + DECODED + BURST else w.regs.limit))
  {
    hide MovedOut, OpenLength, Passed, Held, Whole, WholeBursts, Sectors, Peek, Settle, Aligned, Unfaulted;
    var g := w.regs;
    SectorsOpen(w, base);
    var a := w.image[base..g.limit];
    SectorNumbers(|a|, |w.fifo|);
    var b := if g.limit - base == DECODED then DECODED else DECODED + BURST;
    MovedOutIs(w, a, DECODED, b);
    Cuts(w.image, base, g.limit, DECODED, b);
  }

  lemma Cuts(image: seq<Byte>, base: nat, limit: nat, n: nat, b: nat)
    requires n <= b && base + b <= limit <= |image|
    ensures image[base..limit][..n] == image[base..base + n] && image[base..limit][n..b] == image[base + n..base + b]
  {
    Slice(image, base, limit - base, 0, n);
    Slice(image, base, limit - base, n, b);
  }

  lemma NextBurst(base: nat, f: nat, limit: nat)
    requires Aligned(base) && WholeBursts(limit) && (f == 0 || f == BURST) && base + DECODED <= limit
             && Sectors(limit - base)
    ensures Aligned(limit - (base + f)) && base + f < limit
            && (base + DECODED < limit ==> base + DECODED + BURST < limit)
  {
  }

  lemma PeekIs(image: seq<Byte>, base: nat, f: nat, limit: nat)
    requires base + f < limit <= |image|
    ensures image[base..base + f] + Peek(image, base + f, limit - (base + f)) == image[base..limit]
  {
  }

  lemma Slice(s: seq<Byte>, base: nat, len: nat, lo: nat, hi: nat)
    requires lo <= hi <= len && base + len <= |s|
    ensures s[base..base + len][lo..hi] == s[base + lo..base + hi]
  {
    var a, b := s[base..base + len][lo..hi], s[base + lo..base + hi];
    assert forall i :: 0 <= i < hi - lo ==> a[i] == b[i];
  }

  lemma SectorNumbers(a: nat, p: nat)
    requires (p == 0 || p == BURST) && DECODED <= a && Sectors(a)
    ensures Whole(a, p) == a && Passed(a, p, DECODED) == DECODED
            && Held(a, p, DECODED) == if a == DECODED then DECODED else DECODED + BURST
  {
    hide Whole, Boundary;
    SectorBursts(a, p);
    UsedUp(a, p, a);
    if a > DECODED {
      BoundaryIs(p, DECODED, DECODED + BURST);
    }
  }

  lemma SectorBursts(a: nat, p: nat)
    requires (p == 0 || p == BURST) && DECODED <= a && Sectors(a)
    ensures WholeBursts(a - p) && WholeBursts(DECODED + BURST - p) && (a == DECODED || DECODED + BURST <= a)
  {
    var k := a / DECODED;
    assert k >= 1 && a == k * DECODED;
    WholeMultiple(k * 64 - p / BURST);
    WholeMultiple(65 - p / BURST);
  }

  lemma WholeMultiple(k: int)
    ensures WholeBursts(k * BURST)
  {
  }

  /** A whole sector is stored where there is room for it. */
  lemma SectorStored(w: World)
    requires w.fifo == [] && w.lim == 0 && |w.dev| == DECODED && w.regs.csr.enable
    requires w.regs.next + DECODED <= w.regs.limit && Unfaulted(|w.image|, w.faults, w.regs.next, DECODED)
    ensures MovedIn(w).0 == w.(regs := Settle(w.regs.(next := w.regs.next + DECODED)), dev := [],
                               image := Overwrite(w.image, w.regs.next, w.dev))
  {
    hide OpenLength, Settle, Broken, Overwrite;
    var g := w.regs;
    AllOpen(|w.image|, w.faults, g.next, DECODED);
    OpenAtLeast(|w.image|, w.faults, g.next, g.limit - g.next, DECODED);
    assert w.fifo + w.dev == w.dev && w.dev[..DECODED] == w.dev;
  }

  /** With nothing to store, only the registers may settle. */
  lemma NothingStored(w: World)
    requires w.fifo == [] && w.lim == 0 && w.dev == []
    ensures MovedIn(w).0 == if w.regs.csr.enable then w.(regs := Settle(w.regs)) else w
  {
    hide OpenLength, Settle, Broken;
  }

  /** After a transfer the channel does not abort, if the chained buffer does not. */
  lemma StaysPlaced(w: World)
    requires Shaped(w) && !Misplaced(w) && Aligned(Full(w))
    requires w.regs.csr.supdate ==> Aligned(w.regs.start) && WholeBursts(w.regs.stop)
    ensures !Misplaced(MovedIn(w).0)
  {
    hide OpenLength, Held, Put, Passed, Whole, Full;
    var g := w.regs;
    if g.csr.enable && g.next <= g.limit {
      OpenStops(|w.image|, w.faults, g.next, g.limit - g.next);
      PassedAligned(|w.fifo + w.dev|, Full(w), OpenLength(|w.image|, w.faults, g.next, g.limit - g.next));
    }
  }

  lemma PassedAligned(a: nat, p: nat, cap: nat)
    requires p <= a && Aligned(p) && Aligned(cap)
    ensures Aligned(Passed(a, p, cap))
  {
    var k := (a - p) / BURST;
    assert Aligned(p + k * BURST);
  }

  /** What draining does: if the buffer becomes empty, the channel is called once more. */
  function Flushed(w: World): (r: World)
    requires Shaped(w)
    ensures Shaped(r)
  {
    StillShapedIn(w);
    var t := MovedIn(w).0;
    StillShapedIn(t);
    if |t.dev| != |w.dev| && t.dev == [] then MovedIn(t).0 else t
  }

  /** The same registers, whatever the interrupt line. */
  predicate Same(g: Regs, h: Regs)
  {
    g.(line := h.line) == h
  }

  lemma SectorFlushed(w: World)
    requires w.fifo == [] && w.lim == 0 && |w.dev| == DECODED && w.regs.csr.enable
    requires w.regs.next + DECODED <= w.regs.limit && Unfaulted(|w.image|, w.faults, w.regs.next, DECODED)
    ensures var r, g := Flushed(w), w.regs;
            && r.fifo == [] && r.lim == 0 && r.dev == [] && r.image == Overwrite(w.image, g.next, w.dev)
            && (g.next + DECODED < g.limit ==> Same(r.regs, g.(next := g.next + DECODED)))
            && (g.next + DECODED == g.limit && !g.csr.supdate ==>
                  Same(r.regs, g.(next := g.limit, csr := g.csr.(complete := true, enable := false))))
  {
    hide MovedIn, Overwrite;
    SectorStored(w);
    NothingStored(MovedIn(w).0);
  }

  /** What Feeding says about the world of an empty buffer. */
  lemma FeedingWorld(ch: Channel, mem: Memory, dev: Device)
    requires Feeding(ch, mem) && dev.Valid() && dev.size == 0 && dev.limit == DECODED
    ensures Fetching(WorldOut(ch, mem, dev), Base(ch))
  {
    hide Window, Aligned, WholeBursts, Sectors;
  }

  lemma FedWorld(ch: Channel, mem: Memory, w: World, base: nat)
    requires w.regs.csr.enable && WholeBursts(w.regs.limit) && Aligned(base) && base + DECODED <= w.regs.limit
    requires Sectors(w.regs.limit - base) && Clear(mem, base, w.regs.limit - base) && ch.Outbound()
    requires ch.lim == (if base + DECODED < w.regs.limit then BURST else 0)
    requires ch.Fifo() == mem.bytes[base + DECODED..base + DECODED + ch.lim]
    requires RegsOf(ch) ==
                 Settle(w.regs.(next := if base + DECODED < w.regs.limit then base + DECODED + BURST else w.regs.limit))
    ensures Fed(ch, mem, base, w.regs.limit, w.regs.csr)
  {
    hide Window, WholeBursts;
    QuietFlows(ch);
    NextSector(base, w.regs.limit);
  }

  lemma NextSector(base: nat, limit: nat)
    requires Aligned(base) && base + DECODED < limit ==> Sectors(limit - base)
    ensures Aligned(base) ==> Aligned(base + DECODED)
    ensures Aligned(base) && base + DECODED < limit ==>
              Sectors(limit - (base + DECODED)) && base + DECODED + DECODED <= limit
  {
  }

  /** dma_mo_read_memory; in the plain case a whole sector goes into an empty buffer. */
  method ReadIn(ch: Channel, mem: Memory, dev: Device)
    requires ch.Outbound() && dev.Valid() && Sound(ch)
    modifies ch, dev`size, dev.data
    ensures ch.Outbound() && dev.Valid() && Shaped(old(WorldOut(ch, mem, dev))) && |old(dev.Filled())| <= old(dev.limit)
    ensures WorldOut(ch, mem, dev) == MovedOut(old(WorldOut(ch, mem, dev))).0
    ensures old(Feeding(ch, mem) && dev.size == 0 && dev.limit == DECODED) ==>
              dev.size == DECODED && dev.data.Length >= DECODED && old(Base(ch)) + DECODED <= |mem.bytes|
              && dev.data[..DECODED] == mem.bytes[old(Base(ch))..old(Base(ch)) + DECODED]
              && Fed(ch, mem, old(Base(ch)), old(ch.limit), old(ch.csr))
  {
    hide MovedOut, Window, Feeding, Fed, Sectors, WholeBursts, Aligned, Settle, Channel.Outbound, Channel.Flowing;
    OutShaped(ch, mem, dev);
    ghost var plain := Feeding(ch, mem) && dev.size == 0 && dev.limit == DECODED;
    ghost var w, base := WorldOut(ch, mem, dev), Base(ch);
    if plain {
      FeedingWorld(ch, mem, dev);
      SectorFetched(w, base);
    }
    MoveOut(ch, mem, dev);
    if plain {
      FedWorld(ch, mem, w, base);
    }
  }

  lemma FullAligned(ch: Channel, mem: Memory, dev: Device)
    requires ch.Inbound() && dev.Valid()
    ensures ch.Shape() && Shaped(WorldIn(ch, mem, dev)) && Aligned(Full(WorldIn(ch, mem, dev)))
  {
    AlignedBurst();
  }

  /** dma_mo_write_memory. */
  method WriteOut(ch: Channel, mem: Memory, dev: Device)
    requires ch.Inbound() && dev.Valid() && Sound(ch)
    modifies ch, mem`bytes, dev`size
    ensures ch.Inbound() && dev.Valid() && Shaped(old(WorldIn(ch, mem, dev)))
    ensures WorldIn(ch, mem, dev) == MovedIn(old(WorldIn(ch, mem, dev))).0
    ensures old(Chainable(ch)) ==> Sound(ch)
  {
    hide MovedIn, Window, Channel.Inbound, WholeBursts, Aligned;
    FullAligned(ch, mem, dev);
    if Chainable(ch) {
      StaysPlaced(WorldIn(ch, mem, dev));
    }
    MoveIn(ch, mem, dev);
  }

  /** The device only shrinks. */
  lemma NeverMore(w: World)
    requires Shaped(w)
    ensures |MovedIn(w).0.dev| <= |w.dev|
  {
    hide Held, Passed, Whole, OpenLength, Put, Settle, Broken;
    var g := w.regs;
    if g.csr.enable && g.next <= g.limit {
      HeldBeyond(|w.fifo + w.dev|, Full(w), OpenLength(|w.image|, w.faults, g.next, g.limit - g.next), |w.fifo|, w.lim);
    }
  }

  lemma PlainWorld(ch: Channel, mem: Memory, dev: Device)
    requires Quiet(ch) && SectorBuffer(ch, mem) && dev.Valid() && dev.size == dev.limit == DECODED
    ensures var w := WorldIn(ch, mem, dev);
            && w.fifo == [] && w.lim == 0 && w.dev == dev.data[..dev.limit] && |w.dev| == DECODED && w.regs.csr.enable
            && w.regs.next + DECODED <= w.regs.limit && Unfaulted(|w.image|, w.faults, w.regs.next, DECODED)
  {
  }

  lemma PlainAfter(ch: Channel, mem: Memory, dev: Device, g: Regs)
    requires ch.Inbound() && dev.Valid() && ch.lim == 0 && dev.Rest() == []
    requires g.next + DECODED < g.limit ==> Same(RegsOf(ch), g.(next := g.next + DECODED))
    requires g.next + DECODED == g.limit && !g.csr.supdate ==>
               Same(RegsOf(ch), g.(next := g.limit, csr := g.csr.(complete := true, enable := false)))
    ensures Quiet(ch) && dev.size == 0 && Drained(ch, g.next, g.limit, g.csr)
  {
    QuietFlows(ch);
  }

  /** Draining: dma_mo_write_memory, and once more if that emptied the buffer. */
  method Flush(ch: Channel, mem: Memory, dev: Device) returns (done: bool)
    requires ch.Inbound() && dev.Valid() && Sound(ch) && Chainable(ch)
    modifies ch, mem`bytes, dev`size
    ensures ch.Inbound() && dev.Valid() && Shaped(old(WorldIn(ch, mem, dev)))
    ensures WorldIn(ch, mem, dev) == Flushed(old(WorldIn(ch, mem, dev)))
    ensures var w := MovedIn(old(WorldIn(ch, mem, dev))).0;
            Shaped(w) && WorldIn(ch, mem, dev) == if dev.size == 0 < old(dev.size) then MovedIn(w).0 else w
    ensures done == (dev.size == old(dev.size) || dev.size == 0)
    ensures old(Quiet(ch) && SectorBuffer(ch, mem) && dev.size == dev.limit == DECODED) ==>
              Quiet(ch) && dev.size == 0 && Stored(old(mem.bytes), mem.bytes, old(ch.next), dev.data[..dev.limit])
              && Drained(ch, old(ch.next), old(ch.limit), old(ch.csr))
  {
    hide MovedIn, Window, WholeBursts, Aligned, Channel.Inbound, Sound, Chainable, SectorBuffer, Quiet, Device.Rest,
         Overwrite;
    InShaped(ch, mem, dev);
    ghost var w := WorldIn(ch, mem, dev);
    ghost var plain := Quiet(ch) && SectorBuffer(ch, mem) && dev.size == dev.limit == DECODED;
    if plain {
      PlainWorld(ch, mem, dev);
      SectorFlushed(w);
    }
    StillShapedIn(w);
    NeverMore(w);
    NeverMore(MovedIn(w).0);
    var before := dev.size;
    WriteOut(ch, mem, dev);
    if dev.size == before {
      done := true;
    } else if dev.size == 0 {
      WriteOut(ch, mem, dev);
      done := true;
    } else {
      done := false;
    }
    if plain {
      PlainAfter(ch, mem, dev, w.regs);
    }
  }

  /** One of the two sector buffers. */
  datatype Bank = Bank(size: nat, limit: nat, data: seq<Byte>)

  /** The processor without its channel. */
  datatype Desk = Desk(disk: seq<seq<Byte>>, state: EccState, mode: EccMode, repeating: bool, input: Bank, output: Bank)

  class Processor {
    const first: Device
    const second: Device
    const channel: Channel
    const mem: Memory
    var eccin: Device
    var eccout: Device
    var state: EccState
    var mode: EccMode
    var repeating: bool
    var csr2: Csr2
    var sectorCount: int
    var eccCount: nat
    var status: ErrorStatus
    var signals: set<Signal>
    var disk: seq<seq<Byte>>

    ghost predicate Valid()
      reads this, first, second
    {
      && first != second && first.data != second.data
      && first.data.Length == second.data.Length == ENCODED
      && first.Valid() && second.Valid()
      && ((eccin == first && eccout == second) || (eccin == second && eccout == first))
      && |disk| == LOGICAL_SECTORS
      && (forall i :: 0 <= i < |disk| ==> |disk[i]| == ENCODED)
    }

    ghost function Now(): (d: Desk)
      reads this, first, second, first.data, second.data
      requires Valid()
      ensures |d.disk| == LOGICAL_SECTORS && d.disk == disk && d.state == state && d.mode == mode
              && d.repeating == repeating
    {
      Desk(disk, state, mode, repeating, Bank(eccin.size, eccin.limit, eccin.data[..]),
           Bank(eccout.size, eccout.limit, eccout.data[..]))
    }

    constructor (channel: Channel, mem: Memory)
      ensures Valid() && state == Idle && fresh(first) && fresh(second) && fresh(first.data) && fresh(second.data)
      ensures this.channel == channel && this.mem == mem
    {
      var a := new Device(ENCODED);
      var b := new Device(ENCODED);
      this.channel, this.mem := channel, mem;
      first, second, eccin, eccout := a, b, a, b;
      state, mode, repeating, csr2 := Idle, Reading, false, Csr2(false, false, false);
      sectorCount, eccCount, status, signals := 0, 0, NoError, {};
      disk := seq(LOGICAL_SECTORS, i => seq(ENCODED, j => ZERO));
    }

    /** One sector less to go; a count of zero completes the operation. */
    method CountDown()
      requires Valid()
      modifies this`sectorCount, this`signals
      ensures Valid() && Now() == old(Now()) && sectorCount == old(sectorCount) - 1
      ensures signals == if sectorCount == 0 then old(signals) + {OperationComplete} else old(signals)
    {
      sectorCount := sectorCount - 1;
      if sectorCount == 0 {
        signals := signals + {OperationComplete};
      }
    }

    /** osp_interrupt. */
    method Signal(s: Signal)
      requires Valid()
      modifies this`signals
      ensures Valid() && Now() == old(Now()) && signals == old(signals) + {s}
    {
      signals := signals + {s};
    }

    method ToggleBuffer()
      requires Valid()
      modifies this`eccin, this`eccout
      ensures Valid() && eccin == old(eccout) && eccout == old(eccin)
    {
      if eccin == first {
        eccout := first;
        eccin := second;
      } else {
        eccout := second;
        eccin := first;
      }
    }

    method ClearBuffer()
      requires Valid()
      modifies first`size, first`limit, second`size, second`limit
      ensures Valid() && eccin.size == eccout.size == 0 && eccin.limit == eccout.limit == DECODED
    {
      eccin.size, eccout.size := 0, 0;
      eccin.limit, eccout.limit := DECODED, DECODED;
    }

    /** ecc_encode on a buffer that is ready. */
    method EncodeBuffer()
      requires Valid() && eccin.limit == DECODED
      modifies this`eccin, this`eccout, eccin`size, eccin`limit, eccin.data
      ensures Valid() && eccin == old(eccout) && eccout == old(eccin)
      ensures eccout.size == eccout.limit == ENCODED
      ensures Encoded(eccout.data[..], old(eccin.data[..DECODED]))
    {
      hide Encoded;
      eccin.limit, eccin.size := ENCODED, ENCODED;
      Encode(eccin.data);
      ToggleBuffer();
    }

    /** ecc_decode on a buffer that is ready. */
    method DecodeBuffer()
      requires Valid() && eccin.size == ENCODED
      modifies this`eccin, this`eccout, this`status, this`signals, this`eccCount, eccin`size, eccin`limit, eccin.data
      ensures Valid() && eccin == old(eccout) && eccout == old(eccin)
      ensures eccout.size == eccout.limit == DECODED
      ensures forall data :: Readable(old(eccin.data[..]), data) ==>
                eccout.data[..DECODED] == data && status == old(status) && signals == old(signals)
      ensures BeyondRepair(old(eccin.data[..])) ==>
                status == EccError && signals == old(signals) + {DataError} && eccCount == old(eccCount)
      ensures !BeyondRepair(old(eccin.data[..])) ==>
                eccCount == if old(eccCount) != 0 then old(eccCount)
                            else (RowCount(old(eccin.data[..]), 36) + ColCount(RowPass(old(eccin.data[..])), 32)) % 256
    {
      hide Uncorrectable, RowPass, ColPass, Compact, RowCount, ColCount;
      eccin.limit, eccin.size := DECODED, DECODED;
      var errors := Decode(eccin.data);
      if errors < 0 {
        status := EccError;
        signals := signals + {DataError};
      } else if eccCount == 0 {
        eccCount := errors % 256;
      }
      ToggleBuffer();
    }

    /** The buffer is ready for ecc_decode, which aborts otherwise. */
    ghost predicate DecodeReady()
      reads this, eccin
    {
      (csr2.eccDisable && !csr2.eccMode) || eccin.size == ENCODED
    }

    ghost predicate EncodeReady()
      reads this, eccin
    {
      (csr2.eccDisable && csr2.eccMode) || eccin.limit == DECODED
    }

    method EccDecode()
      requires Valid() && DecodeReady()
      modifies this`eccin, this`eccout, this`status, this`signals, this`eccCount, eccin`size, eccin`limit, eccin.data
      ensures Valid()
      ensures !(csr2.eccDisable && !csr2.eccMode) ==>
                eccin == old(eccout) && eccout == old(eccin) && eccout.size == eccout.limit == DECODED
      ensures !(csr2.eccDisable && !csr2.eccMode) ==> forall data :: Readable(old(eccin.data[..]), data) ==>
                eccout.data[..DECODED] == data && status == old(status) && signals == old(signals)
      ensures !(csr2.eccDisable && !csr2.eccMode) && BeyondRepair(old(eccin.data[..])) ==>
                status == EccError && signals == old(signals) + {DataError}
      ensures !(csr2.eccDisable && !csr2.eccMode) ==> eccCount == Tally(old(eccCount), old(eccin.data[..]))
      ensures csr2.eccDisable && !csr2.eccMode ==>
                eccCount == old(eccCount)
                && (eccin == old(eccout)) == (csr2.eccBlocks && repeating) && first.data[..] == old(first.data[..])
                && second.data[..] == old(second.data[..])
    {
      hide Readable, RowPass, Uncorrectable, BeyondRepair, RowCount, ColCount, Compact, ColPass;
      if csr2.eccDisable && !csr2.eccMode {
        if csr2.eccBlocks && repeating {
          ToggleBuffer();
        }
      } else {
        DecodeBuffer();
      }
    }

    method EccEncode()
      requires Valid() && EncodeReady()
      modifies this`eccin, this`eccout, eccin`size, eccin`limit, eccin.data
      ensures Valid()
      ensures !(csr2.eccDisable && csr2.eccMode) ==>
                eccin == old(eccout) && eccout == old(eccin) && eccout.size == eccout.limit == ENCODED
      ensures !(csr2.eccDisable && csr2.eccMode) ==> Encoded(eccout.data[..], old(eccin.data[..DECODED]))
      ensures csr2.eccDisable && csr2.eccMode ==>
                (eccin == old(eccout)) == (csr2.eccBlocks && !repeating) && first.data[..] == old(first.data[..])
                && second.data[..] == old(second.data[..])
    {
      hide Encoded;
      if csr2.eccDisable && csr2.eccMode {
        if csr2.eccBlocks && !repeating {
          ToggleBuffer();
        }
      } else {
        EncodeBuffer();
      }
    }

    /** ecc_write: event says whether the handler is scheduled. */
    method EccWrite() returns (event: bool)
      requires Valid()
      modifies this`mode, this`state, this`repeating, eccin`size, eccin`limit
      ensures Valid() && event == (old(state) == Idle)
      ensures !event ==> mode == old(mode) && state == old(state) && repeating == old(repeating)
      ensures !event ==> eccin.size == old(eccin.size) && eccin.limit == old(eccin.limit)
      ensures event ==> mode == Writing && state == Filling && repeating == (old(repeating) || csr2.eccBlocks)
      ensures event ==> eccin.size == 0 && eccin.limit == DECODED
    {
      event := state == Idle;
      if event {
        mode, state := Writing, Filling;
        if csr2.eccBlocks {
          repeating := true;
        }
        eccin.size, eccin.limit := 0, DECODED;
      }
    }

    /** ecc_read. */
    method EccRead() returns (event: bool)
      modifies this`mode, this`state, this`repeating
      ensures event == (old(state) == Idle)
      ensures !event ==> mode == old(mode) && state == old(state) && repeating == old(repeating)
      ensures event ==> mode == Reading && state == Eccing && repeating == (old(repeating) || csr2.eccBlocks)
    {
      event := state == Idle;
      if event {
        mode, state := Reading, Eccing;
        if csr2.eccBlocks {
          repeating := true;
        }
      }
    }

    /** ecc_verify. */
    method EccVerify() returns (event: bool)
      modifies this`mode, this`state
      ensures event == (old(state) == Idle)
      ensures !event ==> mode == old(mode) && state == old(state)
      ensures event ==> mode == Verifying && state == Eccing
    {
      event := state == Idle;
      if event {
        mode, state := Verifying, Eccing;
      }
    }

    /** ecc_sequence_done. */
    method SequenceDone() returns (event: bool)
      requires Valid()
      modifies this`repeating, this`state, this`signals, eccin`size
      ensures Valid() && !repeating && event == old(repeating)
      ensures event ==> state == (if mode == Writing then Filling else Eccing) && signals == old(signals)
      ensures event ==> eccin.size == if mode == Writing then 0 else old(eccin.size)
      ensures !event ==> state == Idle && eccin.size == old(eccin.size)
      ensures !event ==> signals == if csr2.eccDisable then old(signals) + {EccDone} else old(signals)
    {
      event := repeating;
      if repeating {
        repeating := false;
        if mode == Writing {
          eccin.size := 0;
          state := Filling;
        } else {
          state := Eccing;
        }
      } else {
        state := Idle;
        if csr2.eccDisable {
          signals := signals + {EccDone};
        }
      }
    }

    /** mo_read_sector, and mo_verify_sector. */
    method ReadSector(id: nat)
      requires Valid() && OnDisk(id)
      modifies eccin`size, eccin`limit, eccin.data
      ensures Valid() && eccin.size == eccin.limit == ENCODED && eccin.data[..] == disk[LogicalSector(id)]
    {
      var sector := disk[LogicalSector(id)];
      forall i | 0 <= i < ENCODED {
        eccin.data[i] := sector[i];
      }
      eccin.limit, eccin.size := ENCODED, ENCODED;
      assert eccin.data[..] == sector;
    }

    /** mo_write_sector; it aborts if the buffer does not hold an encoded sector. */
    method WriteSector(id: nat)
      requires Valid() && OnDisk(id) && eccout.limit == ENCODED
      modifies this`disk, eccout`size, eccout`limit
      ensures Valid() && eccout.size == 0 && eccout.limit == DECODED
      ensures disk == old(disk)[LogicalSector(id) := eccout.data[..]]
    {
      disk := disk[LogicalSector(id) := eccout.data[..]];
      eccout.size, eccout.limit := 0, DECODED;
    }

    /** mo_erase_sector. */
    method EraseSector(id: nat)
      requires Valid() && OnDisk(id)
      modifies this`disk
      ensures Valid() && disk == old(disk)[LogicalSector(id) := seq(ENCODED, i => Byte(0xff))]
    {
      disk := disk[LogicalSector(id) := seq(ENCODED, i => Byte(0xff))];
    }

    /** Room for a sector in memory and an idle FIFO. */
    ghost predicate Plain()
      reads channel, mem
    {
      Quiet(channel) && SectorBuffer(channel, mem)
    }

    /** What the input buffer is to be filled to. */
    function Goal(): (n: nat)
      reads this
    {
      if csr2.eccMode then ENCODED else DECODED
    }

    /** The handler in state Filling. */
    method FillStep()
      requires Valid() && state == Filling
      requires eccin.size < eccin.limit ==> channel.Outbound() && Sound(channel) && eccin.size <= Goal()
      modifies this`state, this`status, this`signals, channel, eccin`size, eccin`limit, eccin.data
      ensures Valid() && state == if eccin.size == eccin.limit then Eccing else Filling
      ensures old(eccin.size >= eccin.limit) ==>
                unchanged(channel, eccin, eccin.data) && status == old(status) && signals == old(signals)
      ensures old(eccin.size < eccin.limit) ==>
                channel.Outbound() && Shaped(old(WorldOut(channel, mem, eccin)))
                && WorldOut(channel, mem, eccin) == MovedOut(old(WorldOut(channel, mem, eccin)).(places := Goal())).0
                && status == (if eccin.size == old(eccin.size) then Starvation else old(status))
                && signals == if eccin.size == old(eccin.size) then old(signals) + {DataError} else old(signals)
      ensures old(Feeding(channel, mem) && eccin.size == 0 && eccin.limit == DECODED) && !csr2.eccMode ==>
                state == Eccing && eccin.limit == DECODED && signals == old(signals) && status == old(status)
                && old(Base(channel)) + DECODED <= |mem.bytes|
                && eccin.data[..DECODED] == mem.bytes[old(Base(channel))..old(Base(channel)) + DECODED]
                && Fed(channel, mem, old(Base(channel)), old(channel.limit), old(channel.csr))
    {
      hide Quiet, Feeding, Fed, Channel.Outbound, Channel.Settled, MovedOut, Window, Device.Filled, Aligned,
           WholeBursts, Base, Sound, Shaped, RegsOf;
      if eccin.size < eccin.limit {
        OutShaped(channel, mem, eccin);
        Raise();
        var before := eccin.size;
        ReadIn(channel, mem, eccin);
        if eccin.size == before {
          status := Starvation;
          signals := signals + {DataError};
        }
      }
      if eccin.size == eccin.limit {
        state := Eccing;
      }
    }

    /** The limit of the input buffer is set. */
    method Raise()
      requires Valid() && eccin.size <= Goal() && channel.Shape()
      modifies eccin`limit
      ensures Valid() && eccin.limit == Goal()
      ensures WorldOut(channel, mem, eccin) == old(WorldOut(channel, mem, eccin)).(places := Goal())
    {
      hide Window;
      eccin.limit := if csr2.eccMode then ENCODED else DECODED;
    }

    /** The handler in state Eccing when a sector goes to the disk or is only decoded. */
    method EccWriteStep() returns (event: bool)
      requires Valid() && state == Eccing && mode == Writing
      requires if csr2.eccDisable then DecodeReady() else EncodeReady()
      modifies this`state, this`repeating, this`signals, this`status, this`eccCount, this`eccin, this`eccout, first,
               second, eccin.data
      ensures Valid()
      ensures !csr2.eccDisable ==>
                event && state == Waiting && repeating == old(repeating)
                && eccin == old(eccout) && eccout == old(eccin) && eccout.size == eccout.limit == ENCODED
                && Encoded(eccout.data[..], old(eccin.data[..DECODED]))
                && signals == (if sectorCount == 1 then old(signals) + {EccDone} else old(signals))
                && status == old(status)
      ensures csr2.eccDisable ==> event == old(repeating) && state == if event then Filling else Idle
      ensures eccCount == if csr2.eccDisable && csr2.eccMode then Tally(old(eccCount), old(eccin.data[..]))
                          else old(eccCount)
      ensures csr2.eccDisable && csr2.eccMode ==>
                eccin == old(eccout) && eccout == old(eccin) && eccout.limit == DECODED
                && (forall data :: Readable(old(eccin.data[..]), data) ==>
                      eccout.data[..DECODED] == data && status == old(status))
      ensures csr2.eccDisable && !csr2.eccMode ==>
                (eccin == old(eccout)) == (csr2.eccBlocks && old(repeating))
                && first.data[..] == old(first.data[..]) && second.data[..] == old(second.data[..])
    {
      hide Encoded, Readable, Tally, BeyondRepair;
      if csr2.eccDisable {
        EccDecode();
        event := SequenceDone();
      } else {
        EccEncode();
        state := Waiting;
        if sectorCount == 1 {
          signals := signals + {EccDone};
        }
        event := true;
      }
    }

    /** The interrupts after a sector was decoded. */
    ghost function Told(before: set<Signal>, bad: bool): (r: set<Signal>)
      reads this
    {
      before + (if bad then {DataError} else {}) + (if sectorCount == 0 then {EccDone} else {})
    }

    /** A sector from the disk is decoded, and drained unless it is only verified. */
    method DecodeStep() returns (event: bool)
      requires Valid() && state == Eccing && mode != Writing && !csr2.eccDisable && eccin.size == ENCODED
      modifies this`state, this`repeating, this`signals, this`status, this`eccCount, this`eccin, this`eccout, first,
               second, eccin.data
      ensures Valid() && event == (state != Idle) && eccin == old(eccout) && eccout == old(eccin)
      ensures forall data :: Readable(old(eccin.data[..]), data) ==>
                eccout.data[..DECODED] == data && status == old(status)
                && signals == (if sectorCount == 0 then old(signals) + {EccDone} else old(signals)) ==
                       Told(old(signals), false)
      ensures BeyondRepair(old(eccin.data[..])) ==>
                status == EccError && signals == Told(old(signals), true)
                && signals == old(signals) + if sectorCount == 0 then {DataError, EccDone} else {DataError}
      ensures eccCount == Tally(old(eccCount), old(eccin.data[..]))
      ensures mode == Reading ==>
                state == Draining && eccout.size == eccout.limit == DECODED && repeating == old(repeating)
      ensures mode == Verifying ==>
                state == (if old(repeating) then Eccing else Idle) && !repeating
                && eccin.size == eccout.size == 0 && eccin.limit == eccout.limit == DECODED
    {
      hide Readable, RowPass, Uncorrectable, BeyondRepair, Tally;
      EccDecode();
      if sectorCount == 0 {
        signals := signals + {EccDone};
      }
      if mode == Verifying {
        ClearBuffer();
        event := SequenceDone();
      } else {
        state := Draining;
        event := true;
      }
    }

    /** The handler in state Eccing when a sector was read from the disk or is only encoded. */
    method EccReadStep() returns (event: bool)
      requires Valid() && state == Eccing && mode != Writing
      requires csr2.eccDisable && !csr2.eccBlocks ==> EncodeReady()
      modifies this`state, this`repeating, this`signals, this`status, this`eccCount, this`eccin, this`eccout, first,
               second, eccin.data
      ensures Valid() && event == (state != Idle)
      ensures !csr2.eccDisable && old(eccin.size) != ENCODED ==> unchanged(this, first, second, eccin.data)
      ensures eccCount == if !csr2.eccDisable && old(eccin.size) == ENCODED
                          then Tally(old(eccCount), old(eccin.data[..])) else old(eccCount)
      ensures !csr2.eccDisable && old(eccin.size) == ENCODED ==>
                eccin == old(eccout) && eccout == old(eccin)
                && (forall data :: Readable(old(eccin.data[..]), data) ==>
                      eccout.data[..DECODED] == data && status == old(status) && signals == Told(old(signals), false))
                && (BeyondRepair(old(eccin.data[..])) ==> status == EccError && signals == Told(old(signals), true))
                && (mode == Reading ==>
                      state == Draining && eccout.size == eccout.limit == DECODED && repeating == old(repeating))
                && (mode == Verifying ==>
                      state == (if old(repeating) then Eccing else Idle) && !repeating
                      && eccin.size == eccout.size == 0 && eccin.limit == eccout.limit == DECODED)
      ensures csr2.eccDisable ==>
                state == Draining && status == old(status) && signals == old(signals) && repeating == old(repeating)
      ensures csr2.eccDisable && !csr2.eccMode ==>
                eccin == old(eccout) && eccout == old(eccin) && eccout.size == eccout.limit == ENCODED
                && Encoded(eccout.data[..], old(eccin.data[..DECODED]))
      ensures csr2.eccDisable && csr2.eccMode ==>
                (eccin == old(eccout)) == (csr2.eccBlocks && !old(repeating))
                && first.data[..] == old(first.data[..]) && second.data[..] == old(second.data[..])
    {
      hide Encoded, Readable, BeyondRepair, Told, Tally;
      if csr2.eccDisable {
        if csr2.eccBlocks {
          eccin.limit, eccin.size := DECODED, DECODED;
        }
        EccEncode();
        state := Draining;
        event := true;
      } else if eccin.size != ENCODED {
        event := true;
      } else {
        event := DecodeStep();
      }
    }

    /** Where a drain leaves the machine: it goes on as long as the buffer shrinks and is not empty. */
    ghost predicate Drainage(size: nat, again: bool, before: set<Signal>)
      reads this, eccout
    {
      var done := eccout.size == size || eccout.size == 0;
      && repeating == (!done && again)
      && state == (if !done then Draining else if !again then Idle else if mode == Writing then Filling else Eccing)
      && signals == if done && !again && csr2.eccDisable then before + {EccDone} else before
    }

    /** The handler in state Draining. */
    method DrainStep() returns (event: bool)
      requires Valid() && state == Draining && channel.Inbound() && Sound(channel) && Chainable(channel)
      modifies this`state, this`repeating, this`signals, channel, mem`bytes, first`size, second`size
      ensures Valid() && event == (state != Idle) && channel.Inbound() && Shaped(old(WorldIn(channel, mem, eccout)))
      ensures WorldIn(channel, mem, eccout) == Flushed(old(WorldIn(channel, mem, eccout)))
      ensures Drainage(old(eccout.size), old(repeating), old(signals))
      ensures if 0 < eccout.size < old(eccout.size)
              then state == Draining && repeating == old(repeating) && signals == old(signals)
              else !repeating && (old(repeating) ==> state == if mode == Writing then Filling else Eccing)
                   && (!old(repeating) ==> state == Idle)
                   && signals == if !old(repeating) && csr2.eccDisable then old(signals) + {EccDone} else old(signals)
      ensures old(Plain() && eccout.size == eccout.limit == DECODED) ==>
                eccout.size == 0 && Quiet(channel)
                && Stored(old(mem.bytes), mem.bytes, old(channel.next), eccout.data[..DECODED])
                && Drained(channel, old(channel.next), old(channel.limit), old(channel.csr))
    {
      hide Quiet, SectorBuffer, Channel.Inbound, Channel.Settled, Stored, Sound, Chainable, Drained, Flushed, Window,
           Device.Rest;
      var done := Flush(channel, mem, eccout);
      event := true;
      if done {
        event := SequenceDone();
      }
    }

    /** The handler in state Waiting. */
    method WaitStep() returns (event: bool)
      requires Valid() && state == Waiting
      modifies this`state, this`mode, this`repeating, this`signals, first`size, first`limit, second`size, second`limit
      ensures Valid() && event == (state != Idle)
      ensures old(eccout.size) != 0 ==>
                state == Waiting && signals == old(signals) && mode == old(mode) && repeating == old(repeating)
                && unchanged(first, second)
      ensures old(eccout.size) == 0 && old(repeating) ==>
                state == (if mode == Writing then Filling else Eccing) && !repeating && mode == old(mode)
                && signals == old(signals)
                && (mode == Writing ==> eccin.size == 0)
      ensures old(eccout.size) == 0 && !old(repeating) && !csr2.eccDisable ==>
                signals == old(signals) && repeating == (sectorCount > 0 && csr2.eccBlocks)
                && state == (if sectorCount > 0 then Filling else Idle)
                && (sectorCount > 0 ==> mode == Writing && eccin.size == 0 && eccin.limit == DECODED)
    {
      if eccout.size == 0 {
        event := SequenceDone();
        if sectorCount > 0 {
          var more := EccWrite();
          event := event || more;
        }
        return;
      }
      event := true;
    }

    /** What the handler needs in order not to abort. */
    ghost predicate Ready()
      reads this, first, second, channel
      requires Valid()
    {
      match state
      case Filling => eccin.size < eccin.limit ==> channel.Outbound() && Sound(channel) && eccin.size <= Goal()
      case Eccing => if mode == Writing then (if csr2.eccDisable then DecodeReady() else EncodeReady())
                     else csr2.eccDisable && !csr2.eccBlocks ==> EncodeReady()
      case Draining => channel.Inbound() && Sound(channel) && Chainable(channel)
      case Waiting => true
      case Idle => true
    }

    lemma Which()
      requires Valid()
      ensures (eccin == first && eccout == second) || (eccin == second && eccout == first)
    {
    }

    /** MO_ECC_IO_Handler: event says whether it is scheduled again.  The clauses follow a sector
        through the machine. */
    method Handler() returns (event: bool)
      requires Valid() && Ready()
      modifies this`state, this`mode, this`repeating, this`signals, this`status, this`eccCount, this`eccin, this`eccout,
               channel, mem`bytes, first, second, first.data, second.data
      ensures Valid() && event == (state != Idle) && (old(state) != Draining ==> mem.bytes == old(mem.bytes))
      ensures old(state) != Filling && old(state) != Draining ==> unchanged(channel)
      // the error count, whenever a sector is decoded
      ensures eccCount == if old(state == Eccing && (if mode == Writing then csr2.eccDisable && csr2.eccMode
                                                     else !csr2.eccDisable && eccin.size == ENCODED))
                          then Tally(old(eccCount), old(eccin.data[..])) else old(eccCount)
      // filling
      ensures old(state) == Filling ==>
                eccin == old(eccin) && mode == old(mode) && repeating == old(repeating)
                && state == if eccin.size == eccin.limit then Eccing else Filling
      ensures old(state == Filling && eccin.size >= eccin.limit) ==>
                unchanged(channel, eccin, eccin.data) && status == old(status) && signals == old(signals)
      ensures old(state == Filling && eccin.size < eccin.limit) ==>
                channel.Outbound() && Shaped(old(WorldOut(channel, mem, eccin)))
                && WorldOut(channel, mem, eccin) == MovedOut(old(WorldOut(channel, mem, eccin)).(places := Goal())).0
                && status == (if eccin.size == old(eccin.size) then Starvation else old(status))
                && signals == if eccin.size == old(eccin.size) then old(signals) + {DataError} else old(signals)
      ensures old(state == Filling && Feeding(channel, mem) && eccin.size == 0 && eccin.limit == DECODED)
              && !csr2.eccMode ==>
                eccin.size == eccin.limit == DECODED && old(Base(channel)) + DECODED <= |mem.bytes|
                && eccin.data[..DECODED] == mem.bytes[old(Base(channel))..old(Base(channel)) + DECODED]
                && Fed(channel, mem, old(Base(channel)), old(channel.limit), old(channel.csr))
      // a sector for the disk
      ensures old(state == Eccing && mode == Writing) && !csr2.eccDisable ==>
                state == Waiting && mode == Writing && repeating == old(repeating) && eccin == old(eccout)
                && eccout == old(eccin)
                && eccout.size == eccout.limit == ENCODED && Encoded(eccout.data[..], old(eccin.data[..DECODED]))
                && signals == (if sectorCount == 1 then old(signals) + {EccDone} else old(signals))
                && status == old(status)
      ensures old(state == Waiting && eccout.size == 0 && !repeating) && !csr2.eccDisable ==>
                state == (if sectorCount > 0 then Filling else Idle) && repeating == (sectorCount > 0 && csr2.eccBlocks)
                && (sectorCount > 0 ==> mode == Writing && eccin.size == 0 && eccin.limit == DECODED)
                && signals == old(signals) && status == old(status)
      ensures old(state == Waiting && eccout.size == 0 && repeating) ==>
                state == (if mode == Writing then Filling else Eccing) && !repeating && mode == old(mode)
                && signals == old(signals)
                && (mode == Writing ==> eccin.size == 0)
      ensures old(state == Waiting && eccout.size != 0) ==> unchanged(this, first, second, first.data, second.data)
      // a sector from the disk
      ensures old(state == Eccing && mode != Writing && eccin.size != ENCODED) && !csr2.eccDisable ==>
                unchanged(this, first, second, first.data, second.data)
      ensures old(state == Eccing && mode != Writing && eccin.size == ENCODED) && !csr2.eccDisable ==>
                eccin == old(eccout) && eccout == old(eccin) && mode == old(mode)
                && (forall data :: Readable(old(eccin.data[..]), data) ==>
                      eccout.data[..DECODED] == data && status == old(status) && signals == Told(old(signals), false))
                && (BeyondRepair(old(eccin.data[..])) ==> status == EccError && signals == Told(old(signals), true))
                && (mode == Reading ==>
                      state == Draining && eccout.size == eccout.limit == DECODED && repeating == old(repeating))
                && (mode == Verifying ==>
                      state == (if old(repeating) then Eccing else Idle) && !repeating
                      && eccin.size == eccout.size == 0 && eccin.limit == eccout.limit == DECODED)
      ensures old(state) == Draining ==>
                channel.Inbound() && Shaped(old(WorldIn(channel, mem, eccout))) && eccout == old(eccout)
                && status == old(status)
                && WorldIn(channel, mem, eccout) == Flushed(old(WorldIn(channel, mem, eccout)))
                && mode == old(mode) && Drainage(old(eccout.size), old(repeating), old(signals))
      ensures old(state == Draining && Plain() && eccout.size == eccout.limit == DECODED) ==>
                eccout.size == 0 && Quiet(channel)
                && Stored(old(mem.bytes), mem.bytes, old(channel.next), old(eccout.data[..DECODED]))
                && Drained(channel, old(channel.next), old(channel.limit), old(channel.csr))
      ensures old(state == Idle) ==> unchanged(this, first, second, first.data, second.data)
      // error correction disabled
      ensures old(state == Eccing && mode == Writing) && csr2.eccDisable && csr2.eccMode ==>
                eccin == old(eccout) && eccout == old(eccin) && eccout.limit == DECODED && event == old(repeating)
                && (forall data :: Readable(old(eccin.data[..]), data) ==> eccout.data[..DECODED] == data)
      ensures old(state == Eccing && mode != Writing) && csr2.eccDisable && !csr2.eccMode ==>
                state == Draining && eccin == old(eccout) && eccout == old(eccin)
                && eccout.size == eccout.limit == ENCODED
                && Encoded(eccout.data[..], old(eccin.data[..DECODED]))
      ensures old(state == Eccing) && csr2.eccDisable && csr2.eccMode == (mode != Writing) ==>
                (eccin == old(eccout)) == (csr2.eccBlocks && old(repeating == (mode == Writing)))
                && first.data[..] == old(first.data[..]) && second.data[..] == old(second.data[..])
    {
      hide Encoded, Readable, Quiet, SectorBuffer, Stored, Sound, Channel.Settled, Channel.Inbound, Channel.Outbound,
           Feeding, Fed, Drained, Base, Chainable, BeyondRepair, Valid, Plain, WorldIn, WorldOut, Flushed, MovedOut,
           Told, Shaped, Drainage, Tally;
      Which();
      match state {
        case Filling =>
          FillStep();
          event := true;
        case Eccing =>
          if mode == Writing {
            event := EccWriteStep();
          } else {
            event := EccReadStep();
          }
        case Draining =>
          event := DrainStep();
        case Waiting =>
          event := WaitStep();
        case Idle =>
          event := false;
      }
    }
  }
}
