/** The burst channels of dma.c: a 16-byte FIFO between memory and a device buffer, with chaining
    and bus faults.  The optical disk and the floppy drive use the same two transfer routines.
 */
module Dma {
  import opened Bytes

  const BURST: nat := 16

  /** On a long-word boundary. */
  function Least(a: nat, b: nat): (r: nat)
  {
    if a <= b then a else b
  }

  predicate Aligned(x: nat)
  {
    x % 4 == 0
  }

  lemma AlignedLess(x: nat, y: nat)
    requires (x == 0 || Aligned(x)) && Aligned(y) && x < y
    ensures x + 4 <= y && Aligned(x + 4)
  {
  }

  lemma AlignedBurst()
    ensures Aligned(BURST) && Aligned(0)
    ensures forall n: nat :: WholeBursts(n) ==> Aligned(n)
  {
  }

  lemma AlignedBefore(x: nat)
    requires x >= 4
    ensures Aligned(x - 4) == Aligned(x)
  {
  }

  predicate WholeBursts(n: int)
  {
    n % BURST == 0
  }

  lemma WholeBurstsStep(n: int)
    ensures WholeBursts(0) && (WholeBursts(n) ==> WholeBursts(n + BURST))
  {
  }

  /** A long word that can be accessed, in memory of the given size and with the given faults. */
  predicate LongOk(len: nat, faults: iset<nat>, a: nat)
  {
    a + 4 <= len && a !in faults
  }

  /** All n bytes from lo on can be accessed long word by long word. */
  predicate Open(len: nat, faults: iset<nat>, lo: nat, n: nat)
  {
    forall k :: 0 <= k < n && Aligned(k) ==> LongOk(len, faults, lo + k)
  }

  lemma OpenNone(len: nat, faults: iset<nat>, lo: nat)
    ensures Open(len, faults, lo, 0)
  {
  }

  lemma OpenNext(len: nat, faults: iset<nat>, lo: nat, n: nat, m: nat)
    requires Aligned(n) && Open(len, faults, lo, n) && Open(len, faults, lo + n, m)
    ensures Open(len, faults, lo, n + m)
  {
    forall k | 0 <= k < n + m && Aligned(k)
      ensures LongOk(len, faults, lo + k)
    {
      if k >= n {
        assert Aligned(k - n);
        assert LongOk(len, faults, lo + n + (k - n));
      }
    }
  }

  lemma OpenOne(len: nat, faults: iset<nat>, a: nat)
    requires LongOk(len, faults, a)
    ensures Open(len, faults, a, 4)
  {
    forall k | 0 <= k < 4 && Aligned(k)
      ensures LongOk(len, faults, a + k)
    {
      assert k == 0;
    }
  }

  lemma AlignedAdd(x: nat, y: nat)
    ensures Aligned(0) && Aligned(4) && (Aligned(x) && Aligned(y) ==> Aligned(x + y))
  {
  }

  lemma AlignedSum(x: nat, y: nat)
    requires Aligned(x) && Aligned(x + y)
    ensures Aligned(y)
  {
  }

  predicate ByteOk(len: nat, faults: iset<nat>, a: nat)
  {
    a < len && a !in faults
  }

  predicate OpenBytes(len: nat, faults: iset<nat>, lo: nat, n: nat)
  {
    forall a :: lo <= a < lo + n ==> ByteOk(len, faults, a)
  }

  /** How many of the n bytes from lo on can be accessed before the first fault. */
  function BytesBefore(len: nat, faults: iset<nat>, lo: nat, n: nat): (k: nat)
    ensures k <= n && (k > 0 ==> lo + k <= len)
    decreases n
  {
    if n == 0 || !ByteOk(len, faults, lo) then 0 else 1 + BytesBefore(len, faults, lo + 1, n - 1)
  }

  lemma {:induction false} BytesExactly(len: nat, faults: iset<nat>, lo: nat, n: nat, k: nat)
    requires k <= n && OpenBytes(len, faults, lo, k) && (k == n || !ByteOk(len, faults, lo + k))
    ensures BytesBefore(len, faults, lo, n) == k
    decreases n
  {
    if k > 0 {
      assert ByteOk(len, faults, lo);
      BytesExactly(len, faults, lo + 1, n - 1, k - 1);
    }
  }

  /** Main memory, seen through get_long, put_long, get_byte and put_byte.  An access may fault;
      which addresses do so is up to the environment and may change between calls.  The ghost
      bounds lo and hi of a long-word access are the window it has to stay in. */
  class Memory {
    var bytes: seq<Byte>
    var faults: iset<nat>

    predicate Reachable(addr: nat, n: nat)
      reads this
    {
      addr + n <= |bytes| && addr !in faults
    }

    method PutLong(addr: nat, w: seq<Byte>, ghost lo: nat, ghost hi: nat) returns (ok: bool)
      requires |w| == 4 && Aligned(addr) && lo <= addr && addr + 4 <= hi
      modifies this`bytes
      ensures ok == old(Reachable(addr, 4))
      ensures ok ==>
                Stored(old(bytes), bytes, addr, w) && bytes == old(bytes)[..addr] + w + old(bytes)[addr + 4..]
      ensures !ok ==> bytes == old(bytes)
      ensures |bytes| == |old(bytes)|
    {
      ok := Reachable(addr, 4);
      if ok {
        bytes := bytes[..addr] + w + bytes[addr + 4..];
      }
    }

    method GetLong(addr: nat, ghost lo: nat, ghost hi: nat) returns (ok: bool, w: seq<Byte>)
      requires Aligned(addr) && lo <= addr && addr + 4 <= hi
      ensures ok == Reachable(addr, 4)
      ensures |w| == 4 && (ok ==> w == bytes[addr..addr + 4])
    {
      ok := Reachable(addr, 4);
      w := if ok then bytes[addr..addr + 4] else [ZERO, ZERO, ZERO, ZERO];
    }

    method PutByte(addr: nat, v: Byte) returns (ok: bool)
      modifies this`bytes
      ensures ok == old(Reachable(addr, 1))
      ensures ok ==>
                Stored(old(bytes), bytes, addr, [v]) && |bytes| == |old(bytes)| && bytes == old(bytes)[addr := v]
      ensures !ok ==> bytes == old(bytes)
    {
      ok := Reachable(addr, 1);
      if ok {
        bytes := bytes[addr := v];
      }
    }

    method GetByte(addr: nat) returns (ok: bool, v: Byte)
      ensures ok == Reachable(addr, 1) && (ok ==> v == bytes[addr])
    {
      ok := Reachable(addr, 1);
      v := if ok then bytes[addr] else ZERO;
    }
  }

  /** No access to the n bytes at lo faults. */
  ghost predicate Clear(mem: Memory, lo: nat, n: nat)
    reads mem
  {
    lo + n <= |mem.bytes| && forall a :: lo <= a < lo + n ==> a !in mem.faults
  }

  lemma LongWordClear(mem: Memory, lo: nat, n: nat, k: nat)
    requires Clear(mem, lo, n) && Aligned(lo) && WholeBursts(lo + n)
    ensures k < n && Aligned(lo + k) ==> mem.Reachable(lo + k, 4)
  {
  }

  function Overwrite(s: seq<Byte>, addr: nat, w: seq<Byte>): (r: seq<Byte>)
    requires addr + |w| <= |s|
    ensures |r| == |s|
  {
    s[..addr] + w + s[addr + |w|..]
  }

  lemma OverwriteNext(s: seq<Byte>, addr: nat, w: seq<Byte>, v: seq<Byte>)
    requires addr + |w| + |v| <= |s|
    ensures Overwrite(Overwrite(s, addr, w), addr + |w|, v) == Overwrite(s, addr, w + v)
  {
  }

  /** Memory after w was stored at addr; nothing is known about addr if w is empty. */
  predicate Stored(before: seq<Byte>, after: seq<Byte>, addr: nat, w: seq<Byte>)
  {
    if w == [] then after == before else addr + |w| <= |before| && after == Overwrite(before, addr, w)
  }

  lemma StoredNext(before: seq<Byte>, mid: seq<Byte>, after: seq<Byte>, addr: nat, w: seq<Byte>, v: seq<Byte>)
    requires Stored(before, mid, addr, w) && Stored(mid, after, addr + |w|, v)
    ensures Stored(before, after, addr, w + v)
  {
    if w == [] {
      assert w + v == v;
    } else if v == [] {
      assert w + v == w;
    } else {
      OverwriteNext(before, addr, w, v);
    }
  }

  lemma StoredLength(before: seq<Byte>, after: seq<Byte>, addr: nat, w: seq<Byte>)
    requires Stored(before, after, addr, w)
    ensures |after| == |before|
  {
  }

  lemma StoredNothing(image: seq<Byte>, addr: nat)
    ensures Stored(image, image, addr, [])
  {
  }

  lemma SplitAt(w: seq<Byte>, fifo: seq<Byte>, k: nat)
    requires k <= |fifo|
    ensures (w + fifo[..k]) + fifo[k..] == w + fifo
  {
  }

  /** Taking rest[k..k + m] after rest[..k]. */
  lemma TakeMore(before: seq<Byte>, rest: seq<Byte>, k: nat, m: nat)
    requires k + m <= |rest|
    ensures (before + rest[..k]) + rest[k..][..m] == before + rest[..k + m] && rest[k..][m..] == rest[k + m..]
  {
  }

  lemma TakeNothing(before: seq<Byte>, rest: seq<Byte>)
    ensures before + rest[..0] == before && before + [] == before && rest[0..] == rest
    ensures rest[0..0] == rest[..0] == []
  {
  }

  /** What a transfer changes: the address, the bytes left in the device (or filled into it), memory,
      and the two streams. */
  datatype Snapshot = Snapshot(next: nat, part: seq<Byte>, image: seq<Byte>, taken: seq<Byte>, delivered: seq<Byte>)

  /** From a to b, w was stored at the address and the missing part of the device was taken. */
  predicate Transfer(a: Snapshot, b: Snapshot, w: seq<Byte>)
  {
    && b.next == a.next + |w|
    && b.delivered == a.delivered + w
    && Stored(a.image, b.image, a.next, w)
    && |b.part| <= |a.part|
    && b.part == a.part[|a.part| - |b.part|..]
    && b.taken == a.taken + a.part[..|a.part| - |b.part|]
  }

  /** From a to b, w was fetched from the address and the new part of the device was delivered. */
  predicate Fetch(a: Snapshot, b: Snapshot, w: seq<Byte>)
  {
    && b.next == a.next + |w|
    && b.taken == a.taken + w
    && b.image == a.image
    && Fetched(a.image, a.next, w)
    && |a.part| <= |b.part|
    && a.part == b.part[..|a.part|]
    && b.delivered == a.delivered + b.part[|a.part|..]
  }

  /** w is what memory holds at addr. */
  predicate Fetched(image: seq<Byte>, addr: nat, w: seq<Byte>)
  {
    w != [] ==> addr + |w| <= |image| && w == image[addr..addr + |w|]
  }

  lemma NothingLeft(s: seq<Byte>)
    ensures s[|s|..] == [] && s[..|s|] == s && s + [] == s
  {
  }

  lemma FetchedNothing(image: seq<Byte>, addr: nat)
    ensures Fetched(image, addr, [])
  {
  }

  lemma FetchedNext(image: seq<Byte>, addr: nat, w: seq<Byte>, v: seq<Byte>)
    requires Fetched(image, addr, w) && Fetched(image, addr + |w|, v)
    ensures Fetched(image, addr, w + v)
  {
    if w == [] {
      assert w + v == v;
    } else if v == [] {
      assert w + v == w;
    }
  }

  lemma FetchNothing(a: Snapshot)
    ensures Fetch(a, a, [])
  {
  }

  lemma Extended(a: seq<Byte>, b: seq<Byte>, c: seq<Byte>)
    requires a <= b <= c
    ensures a == c[..|a|] && c[|a|..] == b[|a|..] + c[|b|..]
  {
  }

  lemma FetchTrans(a: Snapshot, b: Snapshot, c: Snapshot, w: seq<Byte>, v: seq<Byte>)
    requires Fetch(a, b, w) && Fetch(b, c, v)
    ensures Fetch(a, c, w + v)
  {
    FetchedNext(a.image, a.next, w, v);
    Extended(a.part, b.part, c.part);
    Associate(a.taken, w, v);
    Associate(a.delivered, b.part[|a.part|..], c.part[|b.part|..]);
  }

  lemma TransferNothing(a: Snapshot)
    ensures Transfer(a, a, [])
  {
  }

  lemma TransferTrans(a: Snapshot, b: Snapshot, c: Snapshot, w: seq<Byte>, v: seq<Byte>)
    requires Transfer(a, b, w) && Transfer(b, c, v)
    ensures Transfer(a, c, w + v)
  {
    StoredNext(a.image, b.image, c.image, a.next, w, v);
    TakeMore(a.taken, a.part, |a.part| - |b.part|, |b.part| - |c.part|);
  }

  /** A device buffer: when it is drained, size bytes are left before limit; when it is filled, the
      first size bytes are in. */
  class Device {
    const data: array<Byte>
    var size: nat
    var limit: nat

    constructor (n: nat)
      ensures data.Length == n && fresh(data) && size == 0 && limit == 0
    {
      data := new Byte[n](i => ZERO);
      size, limit := 0, 0;
    }

    ghost predicate Valid()
      reads this
    {
      size <= limit <= data.Length
    }

    /** The bytes still to be drained. */
    ghost function Rest(): (r: seq<Byte>)
      reads this, data
      requires Valid()
      ensures |r| == size
    {
      data[limit - size..limit]
    }

    /** The bytes filled in so far. */
    ghost function Filled(): (r: seq<Byte>)
      reads this, data
      requires Valid()
      ensures |r| == size
    {
      data[..size]
    }
  }

  /** Why a transfer routine stopped moving data. */
  datatype Exit =
    | Off        // channel not enabled
    | Done       // loop condition false
    | Starved    // source exhausted, FIFO not full
    | Blocked    // destination full, FIFO not empty
    | Fault      // bus error

  /** The last size of the first lim bytes. */
  function Window(buf: seq<Byte>, size: nat, lim: nat): (r: seq<Byte>)
    requires size <= lim <= |buf|
    ensures |r| == size
  {
    buf[lim - size..lim]
  }

  lemma EmptyWindow(buf: seq<Byte>, lim: nat)
    requires lim <= |buf|
    ensures Window(buf, 0, lim) == Window(buf, 0, 0) == []
  {
  }

  /** The readable bits of a channel's control and status register. */
  datatype Csr = Csr(enable: bool, supdate: bool, complete: bool, busexc: bool)

  /** The command bits of a write to that register, apart from the direction. */
  datatype Command = Command(reset: bool, initbuf: bool, setsupdate: bool, setenable: bool, clrcomplete: bool)

  class Channel {
    var next: nat
    var limit: nat
    var start: nat
    var stop: nat
    var csr: Csr
    var interrupt: bool
    var direction: bool
    var buf: seq<Byte>
    var size: nat
    var lim: nat
    /** Everything taken from the source and handed to the destination since the last
        initialisation of the buffer. */
    ghost var taken: seq<Byte>
    ghost var delivered: seq<Byte>

    constructor ()
      ensures Flowing() && csr == Csr(false, false, false, false) && taken == []
    {
      next, limit, start, stop := 0, 0, 0, 0;
      csr, interrupt, direction := Csr(false, false, false, false), false, false;
      buf := seq(BURST, i => ZERO);
      size, lim := 0, 0;
      taken, delivered := [], [];
    }

    ghost predicate Shape()
      reads this
    {
      |buf| == BURST && size <= lim <= BURST
    }

    /** The bytes in the FIFO, oldest first. */
    ghost function Fifo(): (r: seq<Byte>)
      reads this
      requires Shape()
      ensures |r| == size
    {
      Window(buf, size, lim)
    }

    /** Conservation: no byte is lost, invented or reordered on its way through. */
    ghost predicate Flowing()
      reads this
    {
      Shape() && delivered + Fifo() == taken
    }

    /** The states of a FIFO that is filled by the device and emptied four bytes at a time. */
    ghost predicate Inbound()
      reads this
    {
      Flowing() && if lim < BURST then size == lim else 0 < size && Aligned(size)
    }

    /** The states of a FIFO that is filled from memory and emptied byte by byte. */
    ghost predicate Outbound()
      reads this
    {
      Flowing() && if lim < BURST then size == lim && Aligned(lim) else 0 < size
    }

    /** dma_initialize_buffer with offset zero. */
    method InitializeBuffer()
      requires Shape()
      modifies this`size, this`lim, this`taken, this`delivered
      ensures Inbound() && Outbound() && size == lim == 0 && taken == []
    {
      hide Aligned;
      AlignedBurst();
      size, lim := 0, 0;
      taken, delivered := [], [];
      TakeNothing([], buf);
    }

    /** DMA_CSR_Write for a device channel. */
    method CsrWrite(dev2m: bool, c: Command)
      requires Shape()
      modifies this`direction, this`csr, this`interrupt, this`size, this`lim, this`taken, this`delivered
      ensures direction == dev2m && csr.busexc == old(csr.busexc)
      ensures csr.enable == (c.setenable || (old(csr.enable) && !c.reset))
      ensures csr.supdate == (c.setsupdate || (old(csr.supdate) && !c.reset))
      ensures csr.complete == (old(csr.complete) && !c.reset && !c.clrcomplete)
      ensures interrupt == (old(interrupt) && csr.complete)
      ensures c.initbuf ==> size == lim == 0 && taken == delivered == []
      ensures !c.initbuf ==> size == old(size) && lim == old(lim) && taken == old(taken) && delivered == old(delivered)
    {
      direction := dev2m;
      if c.reset {
        csr := csr.(complete := false, supdate := false, enable := false);
      }
      if c.initbuf {
        InitializeBuffer();
      }
      if c.setsupdate {
        csr := csr.(supdate := true);
      }
      if c.setenable {
        csr := csr.(enable := true);
      }
      if c.clrcomplete {
        csr := csr.(complete := false);
      }
      if !csr.complete {
        interrupt := false;
      }
    }

    /** The state dma_interrupt leaves behind when it is called with these values. */
    ghost predicate Settled(n: nat, l: nat, c: Csr)
      reads this
    {
      && (n != l ==> next == n && limit == l && csr == c)
      && (n == l && c.supdate ==> next == start && limit == stop && csr == c.(complete := true, supdate := false))
      && (n == l && !c.supdate ==> next == n && limit == l && csr == c.(complete := true, enable := false))
      && (csr.complete ==> interrupt)
    }

    /** dma_interrupt: at the limit the channel completes, and either switches to the chained
        buffer or disables itself. */
    method Interrupt()
      modifies this`next, this`limit, this`csr, this`interrupt
      ensures Settled(old(next), old(limit), old(csr))
      ensures interrupt == (old(interrupt) || csr.complete)
    {
      if next == limit {
        csr := csr.(complete := true);
        if csr.supdate {
          next := start;
          limit := stop;
          csr := csr.(supdate := false);
        } else {
          csr := csr.(enable := false);
        }
      }
      if csr.complete {
        interrupt := true;
      }
    }

    /** One round of the first inner loop of the device-to-memory routine. */
    method TakeByte(dev: Device)
      requires Shape() && dev.Valid() && lim < BURST && dev.size > 0
      modifies this`buf, this`size, this`lim, dev`size
      ensures Shape() && dev.Valid() && lim == old(lim) + 1 && size == old(size) + 1 && dev.size == old(dev.size) - 1
      ensures Fifo() == old(Fifo()) + old(dev.Rest())[..1] && dev.Rest() == old(dev.Rest())[1..]
    {
      buf := buf[lim := dev.data[dev.limit - dev.size]];
      dev.size := dev.size - 1;
      lim, size := lim + 1, size + 1;
    }

    /** The CATCH branch of every routine, and the call of dma_interrupt that follows it. */
    method Conclude(fault: bool)
      requires fault ==> next < limit
      modifies this`next, this`limit, this`csr, this`interrupt
      ensures !fault ==> Settled(old(next), old(limit), old(csr))
      ensures fault ==>
                next == old(next) && limit == old(limit) && interrupt && csr == Csr(false, old(csr.supdate), true, true)
      ensures interrupt == (old(interrupt) || csr.complete)
    {
      if fault {
        csr := csr.(enable := false, complete := true, busexc := true);
      }
      Interrupt();
    }

    /** The first step of the device-to-memory loop: top up the FIFO unless it is full already. */
    method FillFromDevice(dev: Device)
      requires Inbound() && dev.Valid()
      modifies this`buf, this`size, this`lim, this`taken, dev`size
      ensures Inbound() && dev.Valid() && (lim == BURST || dev.size == 0)
      ensures lim - old(lim) == old(dev.size) - dev.size == size - old(size) >= 0
      ensures 0 <= lim <= BURST && (lim == BURST ==> 0 < size == if old(lim) == BURST then old(size) else BURST)
      ensures dev.Rest() == old(dev.Rest())[lim - old(lim)..]
      ensures taken == old(taken) + old(dev.Rest())[..lim - old(lim)]
    {
      hide Device.Rest, Device.Valid, Aligned, Window;
      AlignedBurst();
      ghost var rest, n := dev.Rest(), lim;
      TakeNothing(taken, rest);
      while lim < BURST && dev.size > 0
        invariant Inbound() && dev.Valid() && n <= lim
        invariant lim - n == |rest| - dev.size == size - old(size) && (lim == n || size == lim)
        invariant dev.Rest() == rest[lim - n..] && taken == old(taken) + rest[..lim - n]
      {
        TakeMore(old(taken), rest, lim - n, 1);
        Associate(delivered, Fifo(), dev.Rest()[..1]);
        taken := taken + dev.Rest()[..1];
        TakeByte(dev);
      }
    }

    /** One round of the second inner loop of the device-to-memory routine. */
    method StoreLong(mem: Memory, ghost lo: nat) returns (ok: bool)
      requires Shape() && lim == BURST && size >= 4 && Aligned(next) && Aligned(limit) && lo <= next < limit
      modifies this`size, this`next, mem`bytes
      ensures Shape() && Aligned(next) && ok == old(mem.Reachable(next, 4))
      ensures !ok ==> size == old(size) && next == old(next) && mem.bytes == old(mem.bytes)
      ensures old(Aligned(size)) ==> Aligned(size)
      ensures next <= limit
      ensures ok ==> size == old(size) - 4 && next == old(next) + 4 && Fifo() == old(Fifo())[4..]
      ensures |mem.bytes| == |old(mem.bytes)| && (ok ==> Open(|mem.bytes|, mem.faults, old(next), 4))
      ensures ok ==> Stored(old(mem.bytes), mem.bytes, old(next), old(Fifo())[..4])
    {
      hide Stored, Overwrite, Aligned, Open;
      var long := buf[BURST - size..BURST - size + 4];
      assert long == Fifo()[..4];
      AlignedLess(next, limit);
      ok := mem.PutLong(next, long, lo, limit);
      if ok {
        OpenOne(|mem.bytes|, mem.faults, next);
        next := next + 4;
        AlignedBefore(size);
        size := size - 4;
      }
    }

    /** The second inner loop of the device-to-memory routine.  w is what reached memory. */
    method EmptyToMemory(mem: Memory) returns (ok: bool, ghost w: seq<Byte>)
      requires Shape() && lim == BURST && Aligned(size) && Aligned(next) && Aligned(limit) && next <= limit
      modifies this`size, this`next, mem`bytes
      ensures Shape() && Aligned(size) && Aligned(next) && next <= limit
      ensures |w| == next - old(next) == old(size) - size >= 0 && w + Fifo() == old(Fifo())
      ensures Stored(old(mem.bytes), mem.bytes, old(next), w)
      ensures if ok then size == 0 || next == limit else 0 < size && next < limit && !mem.Reachable(next, 4)
      ensures Open(|old(mem.bytes)|, mem.faults, old(next), |w|) && |mem.bytes| == |old(mem.bytes)|
    {
      hide Stored, Overwrite, Aligned, Memory.Reachable, Shape, Fifo, Open;
      ghost var image, lo, fifo := mem.bytes, next, Fifo();
      ok, w := true, [];
      StoredNothing(image, lo);
      OpenNone(|image|, mem.faults, lo);
      AlignedAdd(0, 4);
      while ok && next < limit && size > 0
        invariant Open(|image|, mem.faults, lo, |w|) && |mem.bytes| == |image| && Aligned(|w|)
        invariant Shape() && Aligned(size) && Aligned(next) && lo <= next <= limit
        invariant |w| == next - lo == |fifo| - size && w + Fifo() == fifo
        invariant Stored(image, mem.bytes, lo, w)
        invariant !ok ==> size > 0 && next < limit && !mem.Reachable(next, 4)
      {
        AlignedLess(0, size);
        ghost var mid, head := mem.bytes, Fifo()[..4];
        SplitAt(w, Fifo(), 4);
        ok := StoreLong(mem, lo);
        if ok {
          StoredNext(image, mid, mem.bytes, lo, w, head);
          OpenNext(|image|, mem.faults, lo, |w|, 4);
          AlignedAdd(|w|, 4);
          w := w + head;
        }
      }
    }

    /** The second step: empty the full FIFO as far as it goes. */
    method DrainToMemory(mem: Memory) returns (ok: bool, ghost w: seq<Byte>)
      requires Inbound() && lim == BURST && Aligned(next) && Aligned(limit) && next <= limit
      modifies this`size, this`lim, this`next, this`delivered, mem`bytes
      ensures Inbound() && Aligned(next) && next <= limit
      ensures |w| == next - old(next) == old(size) - size >= 0
      ensures delivered == old(delivered) + w
      ensures Stored(old(mem.bytes), mem.bytes, old(next), w)
      ensures if size == 0 then ok && lim == 0 else lim == BURST
      ensures if ok then size == 0 || next == limit else next < limit && !mem.Reachable(next, 4)
      ensures Open(|old(mem.bytes)|, mem.faults, old(next), |w|) && |mem.bytes| == |old(mem.bytes)|
    {
      hide Stored, Overwrite, Aligned, Memory.Reachable, Open;
      ok, w := EmptyToMemory(mem);
      Associate(delivered, w, Fifo());
      delivered := delivered + w;
      if size == 0 {
        TakeNothing(delivered, buf);
        lim := size;
      }
    }

    /** Bytes that were in a full FIFO when the transfer started. */
    ghost function Pending(): (n: nat)
      reads this
    {
      if lim == BURST then size else 0
    }

    ghost function Snap(mem: Memory, dev: Device): (r: Snapshot)
      reads this, mem, dev, dev.data
      requires dev.Valid()
      ensures r.next == next && r.part == dev.Rest()
    {
      Snapshot(next, dev.Rest(), mem.bytes, taken, delivered)
    }

    /** One round of the device-to-memory loop; Done means that the loop goes on. */
    method RoundToMemory(mem: Memory, dev: Device) returns (exit: Exit, ghost v: seq<Byte>)
      requires Inbound() && dev.Valid() && Aligned(next) && Aligned(limit) && next <= limit
      modifies this`buf, this`size, this`lim, this`next, this`taken, this`delivered, mem`bytes, dev`size
      ensures Inbound() && dev.Valid() && Aligned(next) && next == old(next) + |v| <= limit
      ensures Transfer(old(Snap(mem, dev)), Snap(mem, dev), v)
      ensures dev.size <= old(dev.size)
      ensures match exit
              case Off => false
              case Done => lim == 0 && |v| == (if old(lim) == BURST then old(size) else BURST)
                           && dev.size + size < old(dev.size + size)
              case Starved => dev.size == 0 && lim < BURST && v == [] && old(lim) < BURST
              case Blocked => next == limit && lim == BURST
              case Fault => lim == BURST && next < limit && !mem.Reachable(next, 4)
      ensures lim == BURST ==> |v| + size == if old(lim) == BURST then old(size) else BURST
      ensures Open(|old(mem.bytes)|, mem.faults, old(next), |v|) && |mem.bytes| == |old(mem.bytes)|
    {
      hide Stored, Overwrite, Aligned, Memory.Reachable, Flowing, Fifo, Inbound, Shape, Device.Rest, Device.Valid, Open;
      FillFromDevice(dev);
      if lim < BURST {
        exit, v := Starved, [];
        StoredNothing(mem.bytes, next);
        OpenNone(|mem.bytes|, mem.faults, next);
        TakeNothing(delivered, []);
      } else {
        var ok;
        ok, v := DrainToMemory(mem);
        exit := if !ok then Fault else if size > 0 then Blocked else Done;
      }
    }

    /** The TRY block of the device-to-memory routine. */
    method MoveToMemory(mem: Memory, dev: Device) returns (exit: Exit, ghost w: seq<Byte>)
      requires Inbound() && dev.Valid() && Aligned(next) && Aligned(limit)
      modifies this`buf, this`size, this`lim, this`next, this`taken, this`delivered, mem`bytes, dev`size
      ensures Inbound() && dev.Valid() && Aligned(next) && next == old(next) + |w| && (w == [] || next <= limit)
      ensures Transfer(old(Snap(mem, dev)), Snap(mem, dev), w)
      ensures match exit
              case Off => false
              case Done => next > limit && w == [] && size == old(size) && lim == old(lim) && dev.size == old(dev.size)
              case Starved => dev.size == 0 && lim < BURST && next <= limit && WholeBursts(|w| - old(Pending()))
                              && old(Pending()) <= |w|
              case Blocked => next == limit && lim == BURST
              case Fault => lim == BURST && next < limit && !mem.Reachable(next, 4)
      ensures exit == Blocked || exit == Fault ==> WholeBursts(|w| + size - old(Pending()))
      ensures Open(|old(mem.bytes)|, mem.faults, old(next), |w|) && |mem.bytes| == |old(mem.bytes)|
    {
      hide Transfer, Aligned, WholeBursts, Memory.Reachable, Flowing, Fifo, Inbound, Shape, Device.Rest, Device.Valid,
           Snap, Open;
      ghost var start, pending := Snap(mem, dev), Pending();
      exit, w := Done, [];
      TransferNothing(start);
      WholeBurstsStep(0);
      OpenNone(|mem.bytes|, mem.faults, next);
      AlignedAdd(0, 4);
      while next <= limit
        invariant Open(|old(mem.bytes)|, mem.faults, start.next, |w|) && |mem.bytes| == |old(mem.bytes)| && Aligned(|w|)
        invariant start.next <= limit || (w == [] && size == old(size) && lim == old(lim) && dev.size == old(dev.size))
        invariant Inbound() && dev.Valid() && Aligned(next) && next == start.next + |w| && (w == [] || next <= limit)
        invariant Transfer(start, Snap(mem, dev), w)
        invariant if lim == BURST then w == [] && size == pending
                  else WholeBursts(|w| - pending) && (w == [] || lim == 0) && pending <= |w|
        invariant exit == Done
        decreases dev.size + size
      {
        ghost var mid, was := Snap(mem, dev), |w|;
        ghost var v;
        exit, v := RoundToMemory(mem, dev);
        TransferTrans(start, mid, Snap(mem, dev), w, v);
        WholeBurstsStep(was - pending);
        OpenNext(|mem.bytes|, mem.faults, start.next, |w|, |v|);
        AlignedSum(mid.next, |v|);
        AlignedAdd(|w|, |v|);
        w := w + v;
        if exit != Done {
          break;
        }
      }
    }

    /** One round of the first inner loop of the memory-to-device routine. */
    method FetchLong(mem: Memory, ghost lo: nat) returns (ok: bool, ghost w: seq<Byte>)
      requires Shape() && size == lim < BURST && Aligned(lim) && Aligned(next) && Aligned(limit) && lo <= next < limit
      modifies this`buf, this`size, this`lim, this`next
      ensures Shape() && size == lim && Aligned(lim) && Aligned(next) && next <= limit
              && ok == mem.Reachable(old(next), 4)
      ensures |w| == next - old(next) == size - old(size) == if ok then 4 else 0
      ensures Fetched(mem.bytes, old(next), w) && Fifo() == old(Fifo()) + w
              && Open(|mem.bytes|, mem.faults, old(next), |w|)
    {
      OpenNone(|mem.bytes|, mem.faults, next);
      AlignedLess(next, limit);
      AlignedLess(lim, BURST);
      var long;
      ok, long := mem.GetLong(next, lo, limit);
      w := [];
      if ok {
        w := long;
        OpenOne(|mem.bytes|, mem.faults, next);
        ghost var was := buf;
        buf := buf[..lim] + long + buf[lim + 4..];
        assert buf[..lim] == was[..lim] && buf[lim..lim + 4] == long;
        next := next + 4;
        lim, size := lim + 4, size + 4;
        assert buf[0..lim] == was[0..lim - 4] + long;
      } else {
        TakeNothing(Fifo(), []);
      }
    }

    /** The first step of the memory-to-device loop: top up the FIFO unless it is full already. */
    method FillFromMemory(mem: Memory) returns (ok: bool, ghost w: seq<Byte>)
      requires Outbound() && Aligned(next) && Aligned(limit) && next <= limit
      modifies this`buf, this`size, this`lim, this`next, this`taken
      ensures Outbound() && Aligned(next) && next <= limit && (lim == BURST ==> ok)
      ensures |w| == next - old(next) == lim - old(lim) == size - old(size) >= 0
      ensures 0 <= lim <= BURST && (lim == BURST ==> 0 < size == if old(lim) == BURST then old(size) else BURST)
      ensures Fetched(mem.bytes, old(next), w) && taken == old(taken) + w
      ensures if ok then lim == BURST || next == limit else next < limit && !mem.Reachable(next, 4)
      ensures Open(|mem.bytes|, mem.faults, old(next), |w|) && Aligned(|w|)
    {
      hide Aligned, Memory.Reachable, Window, Fetched, Open;
      OpenNone(|mem.bytes|, mem.faults, next);
      AlignedAdd(0, 4);
      ghost var lo, n := next, lim;
      ok, w := true, [];
      FetchedNothing(mem.bytes, lo);
      TakeNothing(taken, []);
      while ok && next < limit && lim < BURST
        invariant Outbound() && Aligned(next) && lo <= next <= limit
        invariant |w| == next - lo == lim - n == size - old(size) && (lim == n || size == lim)
        invariant Fetched(mem.bytes, lo, w) && taken == old(taken) + w && Open(|mem.bytes|, mem.faults, lo, |w|)
                  && Aligned(|w|)
        invariant !ok ==> lim < BURST && next < limit && !mem.Reachable(next, 4)
      {
        ghost var v, fifo := [], Fifo();
        ok, v := FetchLong(mem, lo);
        Associate(delivered, fifo, v);
        Associate(old(taken), w, v);
        FetchedNext(mem.bytes, lo, w, v);
        OpenNext(|mem.bytes|, mem.faults, lo, |w|, |v|);
        AlignedAdd(|w|, |v|);
        taken := taken + v;
        w := w + v;
      }
    }

    /** One round of the second inner loop of the memory-to-device routine. */
    method GiveByte(dev: Device)
      requires Shape() && dev.Valid() && size > 0 && dev.size < dev.limit
      modifies this`size, dev`size, dev.data
      ensures Shape() && dev.Valid() && size == old(size) - 1 && dev.size == old(dev.size) + 1
      ensures Fifo() == old(Fifo())[1..] && dev.Filled() == old(dev.Filled()) + old(Fifo())[..1]
    {
      dev.data[dev.size] := buf[lim - size];
      dev.size := dev.size + 1;
      size := size - 1;
    }

    /** The second step: hand the full FIFO to the device as far as it goes. */
    method DrainToDevice(dev: Device)
      requires Outbound() && lim == BURST && dev.Valid()
      modifies this`size, this`lim, this`delivered, dev`size, dev.data
      ensures Outbound() && dev.Valid() && old(dev.Filled()) <= dev.Filled()
      ensures dev.size - old(dev.size) == old(size) - size >= 0
      ensures delivered == old(delivered) + dev.Filled()[old(dev.size)..]
      ensures if size == 0 then lim == 0 else lim == BURST && dev.size == dev.limit
    {
      hide Device.Filled, Aligned, Window;
      ghost var filled := dev.Filled();
      TakeNothing(delivered, filled);
      while size > 0 && dev.size < dev.limit
        invariant Shape() && lim == BURST && dev.Valid() && delivered + Fifo() == taken
        invariant dev.size - |filled| == old(size) - size >= 0
        invariant filled <= dev.Filled() && delivered == old(delivered) + dev.Filled()[|filled|..]
      {
        ghost var head, was := Fifo()[..1], dev.Filled();
        SplitAt(delivered, Fifo(), 1);
        GiveByte(dev);
        Extended(filled, was, dev.Filled());
        Associate(old(delivered), was[|filled|..], head);
        delivered := delivered + head;
      }
      if size == 0 {
        EmptyWindow(buf, lim);
        AlignedBurst();
        lim := size;
      }
    }

    ghost function SnapOut(mem: Memory, dev: Device): (r: Snapshot)
      reads this, mem, dev, dev.data
      requires dev.Valid()
      ensures r.next == next && r.part == dev.Filled()
    {
      Snapshot(next, dev.Filled(), mem.bytes, taken, delivered)
    }

    /** One round of the memory-to-device loop; Done means that the loop goes on. */
    method RoundToDevice(mem: Memory, dev: Device) returns (exit: Exit, ghost v: seq<Byte>)
      requires Outbound() && dev.Valid() && Aligned(next) && Aligned(limit) && next <= limit
      modifies this`buf, this`size, this`lim, this`next, this`taken, this`delivered, dev`size, dev.data
      ensures Outbound() && dev.Valid() && Aligned(next) && next == old(next) + |v| <= limit
      ensures Fetch(old(SnapOut(mem, dev)), SnapOut(mem, dev), v)
      ensures match exit
              case Off => false
              case Done => lim == 0 && dev.size - old(dev.size) == if old(lim) == BURST then old(size) else BURST
              case Starved => next == limit && lim < BURST && old(lim) < BURST && dev.size == old(dev.size)
              case Blocked => dev.size == dev.limit && lim == BURST
              case Fault => next < limit && lim < BURST && !mem.Reachable(next, 4)
      ensures old(lim) < BURST && old(next) < limit && exit == Done ==> old(next) < next
      ensures lim == BURST ==> dev.size - old(dev.size) + size == if old(lim) == BURST then old(size) else BURST
      ensures lim < BURST && exit != Done ==> dev.size == old(dev.size) && old(lim) < BURST
      ensures Open(|mem.bytes|, mem.faults, old(next), |v|) && Aligned(|v|)
    {
      hide Fetched, Aligned, Memory.Reachable, Flowing, Fifo, Outbound, Shape, Device.Filled, Device.Valid, Open;
      var ok;
      ok, v := FillFromMemory(mem);
      if lim < BURST {
        exit := if ok then Starved else Fault;
        TakeNothing(delivered, dev.Filled());
        NothingLeft(dev.Filled());
      } else {
        DrainToDevice(dev);
        exit := if size > 0 then Blocked else Done;
      }
    }

    /** The TRY block of the memory-to-device routine. */
    method MoveToDevice(mem: Memory, dev: Device) returns (exit: Exit, ghost w: seq<Byte>)
      requires Outbound() && dev.Valid() && Aligned(next) && Aligned(limit)
      modifies this`buf, this`size, this`lim, this`next, this`taken, this`delivered, dev`size, dev.data
      ensures Outbound() && dev.Valid() && Aligned(next) && next == old(next) + |w| && (w == [] || next <= limit)
      ensures Fetch(old(SnapOut(mem, dev)), SnapOut(mem, dev), w)
      ensures match exit
              case Off => false
              case Done => if old(next) < limit then next == limit && lim == 0
                           else w == [] && size == old(size) && lim == old(lim) && dev.size == old(dev.size)
              case Starved => next == limit && lim < BURST
              case Blocked => dev.size == dev.limit && lim == BURST
              case Fault => next < limit && lim < BURST && !mem.Reachable(next, 4)
      ensures old(next) >= limit ==> exit == Done
      ensures exit == Blocked ==> WholeBursts(dev.size - old(dev.size) + size - old(Pending()))
      ensures old(next) < limit && exit != Blocked ==>
                WholeBursts(dev.size - old(dev.size) - old(Pending())) && old(Pending()) <= dev.size - old(dev.size)
      ensures Open(|mem.bytes|, mem.faults, old(next), |w|)
    {
      hide Fetch, Aligned, WholeBursts, Memory.Reachable, Flowing, Fifo, Outbound, Shape, Device.Filled, Device.Valid,
           SnapOut, Open;
      OpenNone(|mem.bytes|, mem.faults, next);
      AlignedAdd(0, 4);
      ghost var start, pending := SnapOut(mem, dev), Pending();
      exit, w := Done, [];
      FetchNothing(start);
      WholeBurstsStep(0);
      while next < limit
        invariant Outbound() && dev.Valid() && Aligned(next) && next == start.next + |w| && (w == [] || next <= limit)
        invariant Fetch(start, SnapOut(mem, dev), w) && Open(|mem.bytes|, mem.faults, start.next, |w|) && Aligned(|w|)
        invariant if lim == BURST then w == [] && size == pending && dev.size == |start.part|
                  else WholeBursts(dev.size - |start.part| - pending) && pending <= dev.size - |start.part|
        invariant exit == Done && (lim == 0 || w == [])
        invariant start.next < limit || (w == [] && size == old(size) && lim == old(lim) && dev.size == old(dev.size))
        invariant lim == 0 || next == start.next
        decreases limit - next, lim
      {
        ghost var mid := SnapOut(mem, dev);
        ghost var v;
        exit, v := RoundToDevice(mem, dev);
        FetchTrans(start, mid, SnapOut(mem, dev), w, v);
        WholeBurstsStep(|mid.part| - |start.part| - pending);
        OpenNext(|mem.bytes|, mem.faults, start.next, |w|, |v|);
        AlignedAdd(|w|, |v|);
        w := w + v;
        if exit != Done {
          break;
        }
      }
    }

    /** dma_mo_write_memory, and the floppy branch of dma_esp_write_memory.  A bad alignment aborts
        the program. */
    method WriteMemory(mem: Memory, dev: Device) returns (exit: Exit, ghost w: seq<Byte>)
      requires Inbound() && dev.Valid()
      requires csr.enable ==> Aligned(next) && WholeBursts(limit)
      modifies this, mem`bytes, dev`size
      ensures Inbound() && dev.Valid() && start == old(start) && stop == old(stop) && direction == old(direction)
      ensures exit == Off <==> !old(csr.enable)
      ensures exit == Off ==>
                w == [] && csr == old(csr) && next == old(next) && limit == old(limit) && interrupt == old(interrupt)
      ensures Transfer(old(Snap(mem, dev)), Snap(mem, dev).(next := old(next) + |w|), w)
      ensures w == [] || old(next) + |w| <= old(limit)
      ensures exit != Off ==> Aligned(old(next) + |w|)
      ensures exit != Off && exit != Fault ==> Settled(old(next) + |w|, old(limit), old(csr))
      ensures interrupt == (old(interrupt) || (exit != Off && csr.complete))
      ensures match exit
              case Off => size == old(size) && lim == old(lim) && dev.size == old(dev.size)
              case Done => old(next) > old(limit) && w == [] && size == old(size) && lim == old(lim)
                           && dev.size == old(dev.size)
              case Starved => dev.size == 0 && lim < BURST && old(next) + |w| <= old(limit)
                              && WholeBursts(|w| - old(Pending())) && old(Pending()) <= |w|
              case Blocked => old(next) + |w| == old(limit) && lim == BURST
              case Fault => lim == BURST && Aligned(next) && next == old(next) + |w| < limit == old(limit)
                            && !mem.Reachable(next, 4)
                            && csr == Csr(false, old(csr.supdate), true, true) && interrupt
      ensures exit == Blocked || exit == Fault ==> WholeBursts(|w| + size - old(Pending()))
      ensures Open(|old(mem.bytes)|, mem.faults, old(next), |w|) && |mem.bytes| == |old(mem.bytes)|
    {
      hide Transfer, Aligned, WholeBursts, Memory.Reachable, Window, Device.Rest, Device.Valid, Open;
      OpenNone(|mem.bytes|, mem.faults, next);
      if !csr.enable {
        TransferNothing(Snap(mem, dev));
        return Off, [];
      }
      AlignedBurst();
      exit, w := MoveToMemory(mem, dev);
      Conclude(exit == Fault);
    }

    /** dma_mo_read_memory, and the floppy branch of dma_esp_read_memory. */
    method ReadMemory(mem: Memory, dev: Device) returns (exit: Exit, ghost w: seq<Byte>)
      requires Outbound() && dev.Valid()
      requires csr.enable ==> Aligned(next) && WholeBursts(limit)
      modifies this, dev`size, dev.data
      ensures Outbound() && dev.Valid() && start == old(start) && stop == old(stop) && direction == old(direction)
      ensures exit == Off <==> !old(csr.enable)
      ensures exit == Off ==>
                w == [] && csr == old(csr) && next == old(next) && limit == old(limit) && interrupt == old(interrupt)
      ensures Fetch(old(SnapOut(mem, dev)), SnapOut(mem, dev).(next := old(next) + |w|), w)
      ensures w == [] || old(next) + |w| <= old(limit)
      ensures exit != Off ==> Aligned(old(next) + |w|)
      ensures exit != Off && exit != Fault ==> Settled(old(next) + |w|, old(limit), old(csr))
      ensures interrupt == (old(interrupt) || (exit != Off && csr.complete))
      ensures match exit
              case Off => size == old(size) && lim == old(lim) && dev.size == old(dev.size)
              case Done => if old(next < limit) then old(next) + |w| == old(limit) && lim == 0
                           else w == [] && size == old(size) && lim == old(lim) && dev.size == old(dev.size)
              case Starved => old(next) + |w| == old(limit) && lim < BURST
              case Blocked => dev.size == dev.limit && lim == BURST
              case Fault => lim < BURST && Aligned(next) && next == old(next) + |w| < limit == old(limit)
                            && !mem.Reachable(next, 4)
                            && csr == Csr(false, old(csr.supdate), true, true) && interrupt
      ensures old(csr.enable && next >= limit) ==> exit == Done
      ensures exit == Blocked ==> WholeBursts(dev.size - old(dev.size) + size - old(Pending()))
      ensures old(csr.enable && next < limit) && exit != Blocked ==>
                WholeBursts(dev.size - old(dev.size) - old(Pending())) && old(Pending()) <= dev.size - old(dev.size)
      ensures Open(|mem.bytes|, mem.faults, old(next), |w|)
    {
      hide Fetch, Aligned, WholeBursts, Memory.Reachable, Window, Device.Filled, Device.Valid, Open;
      OpenNone(|mem.bytes|, mem.faults, next);
      if !csr.enable {
        FetchNothing(SnapOut(mem, dev));
        return Off, [];
      }
      AlignedBurst();
      exit, w := MoveToDevice(mem, dev);
      Conclude(exit == Fault);
    }
  }
}
