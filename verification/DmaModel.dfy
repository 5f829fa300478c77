/** What a burst channel does, in closed form: which part of the available bytes passes in one
    transfer, which part stays in the FIFO, and what becomes of the registers. */
module DmaModel {
  import opened Bytes
  import opened Dma

  // ----- numbers

  /** The most that can pass out of a available bytes: the p bytes of a full FIFO and whole bursts. */
  function Whole(a: nat, p: nat): (n: nat)
    requires p <= a
    ensures p <= n <= a < n + BURST
  {
    p + (a - p) / BURST * BURST
  }

  /** The first burst boundary beyond n. */
  function Boundary(p: nat, n: nat): (b: nat)
    ensures n < b
  {
    if n < p then p else p + ((n - p) / BURST + 1) * BURST
  }

  /** What passes if the destination takes at most cap bytes. */
  function Passed(a: nat, p: nat, cap: nat): (n: nat)
    requires p <= a
    ensures n <= a && n <= cap
  {
    if Whole(a, p) <= cap then Whole(a, p) else cap
  }

  /** What passes and what then is in the FIFO. */
  function Held(a: nat, p: nat, cap: nat): (b: nat)
    requires p <= a
    ensures Passed(a, p, cap) <= b <= a
  {
    if Passed(a, p, cap) == Whole(a, p) then a
    else
      BoundaryBelow(a, p, Passed(a, p, cap));
      Boundary(p, Passed(a, p, cap))
  }

  lemma BoundaryBelow(a: nat, p: nat, n: nat)
    requires p <= a && n < Whole(a, p)
    ensures Boundary(p, n) <= Whole(a, p)
  {
    if n >= p {
      var q, k := (n - p) / BURST, (a - p) / BURST;
      assert n - p < k * BURST;
      assert q < k;
    }
  }

  lemma BoundaryNear(p: nat, n: nat)
    requires p <= BURST
    ensures Boundary(p, n) <= n + BURST
  {
  }

  /** Burst boundaries are the numbers that differ from p by whole bursts. */
  lemma BoundaryIs(p: nat, n: nat, b: nat)
    requires p <= BURST && n < b <= n + BURST && WholeBursts(b - p)
    ensures b == Boundary(p, n)
  {
    var k := (b - p) / BURST;
    assert b - p == k * BURST;
  }

  lemma WholeIs(a: nat, p: nat, n: nat)
    requires p <= a && n <= a < n + BURST && WholeBursts(n - p) && p <= BURST
    ensures n == Whole(a, p) || (n + BURST == p && a < p + BURST)
  {
    var k := (n - p) / BURST;
    assert n - p == k * BURST;
  }

  // ----- registers and memory

  /** The registers of a channel and its interrupt line. */
  datatype Regs = Regs(next: nat, limit: nat, start: nat, stop: nat, csr: Csr, line: bool)

  /** dma_interrupt. */
  function Settle(r: Regs): (t: Regs)
  {
    Signalled(if r.next != r.limit then r
              else if r.csr.supdate
                   then r.(next := r.start, limit := r.stop, csr := r.csr.(complete := true, supdate := false))
              else r.(csr := r.csr.(complete := true, enable := false)))
  }

  /** A complete channel raises its interrupt. */
  function Signalled(r: Regs): (t: Regs)
  {
    r.(line := r.line || r.csr.complete)
  }

  /** A bus error. */
  function Broken(r: Regs): (t: Regs)
  {
    r.(csr := r.csr.(enable := false, complete := true, busexc := true), line := true)
  }

  /** How many of the n bytes from lo on can be accessed before the first fault. */
  function OpenLength(len: nat, faults: iset<nat>, lo: nat, n: nat): (k: nat)
    ensures k <= n
    decreases n
  {
    if n < 4 || !LongOk(len, faults, lo) then 0 else 4 + OpenLength(len, faults, lo + 4, n - 4)
  }

  lemma {:induction false} OpenAtLeast(len: nat, faults: iset<nat>, lo: nat, n: nat, k: nat)
    requires Aligned(k) && k <= n && Open(len, faults, lo, k)
    ensures OpenLength(len, faults, lo, n) >= k
    decreases k
  {
    if k > 0 {
      AlignedAdd(0, 4);
      AlignedLess(0, k);
      AlignedBefore(k);
      assert LongOk(len, faults, lo + 0);
      OpenRest(len, faults, lo, k);
      OpenAtLeast(len, faults, lo + 4, n - 4, k - 4);
    }
  }

  lemma OpenRest(len: nat, faults: iset<nat>, lo: nat, k: nat)
    requires k >= 4 && Open(len, faults, lo, k)
    ensures Open(len, faults, lo + 4, k - 4)
  {
    forall j | 0 <= j < k - 4 && Aligned(j)
      ensures LongOk(len, faults, lo + 4 + j)
    {
      assert Aligned(j + 4);
      assert LongOk(len, faults, lo + (j + 4));
    }
  }

  lemma {:induction false} OpenExactly(len: nat, faults: iset<nat>, lo: nat, n: nat, k: nat)
    requires Aligned(k) && Aligned(n) && k <= n && Open(len, faults, lo, k) && (k == n || !LongOk(len, faults, lo + k))
    ensures OpenLength(len, faults, lo, n) == k
    decreases k
  {
    if k > 0 {
      AlignedAdd(0, 4);
      AlignedLess(0, k);
      AlignedBefore(k);
      AlignedBefore(n);
      assert LongOk(len, faults, lo + 0);
      OpenRest(len, faults, lo, k);
      OpenExactly(len, faults, lo + 4, n - 4, k - 4);
    }
  }

  // ----- one transfer

  /** One uninterrupted access to memory: w at addr, with the limit that held at the time. */
  datatype Chunk = Chunk(addr: nat, limit: nat, w: seq<Byte>)

  /** A channel, the device it serves, and memory.  The device is given by the bytes it still has to
      hand over, or by those it has received and the number of places it offers. */
  datatype World = World(
    regs: Regs, fifo: seq<Byte>, lim: nat,
    dev: seq<Byte>, places: nat, capacity: nat,
    image: seq<Byte>, faults: iset<nat>)

  predicate Shaped(w: World)
  {
    w.lim <= BURST && if w.lim < BURST then |w.fifo| == w.lim else 0 < |w.fifo| <= BURST
  }

  /** The bytes of a full FIFO. */
  function Full(w: World): (p: nat)
    ensures p <= |w.fifo|
  {
    if w.lim == BURST then |w.fifo| else 0
  }

  /** The channel aborts the program. */
  predicate Misplaced(w: World)
  {
    w.regs.csr.enable && !(Aligned(w.regs.next) && WholeBursts(w.regs.limit))
  }

  function Put(image: seq<Byte>, addr: nat, w: seq<Byte>): (r: seq<Byte>)
    ensures |r| == |image|
  {
    if w == [] || addr + |w| > |image| then image else Overwrite(image, addr, w)
  }

  lemma StoredIsPut(before: seq<Byte>, after: seq<Byte>, addr: nat, w: seq<Byte>)
    requires Stored(before, after, addr, w)
    ensures after == Put(before, addr, w)
  {
  }

  /** Device to memory: the available bytes are those of the FIFO and of the device. */
  function MovedIn(w: World): (r: (World, Chunk))
    requires Shaped(w)
  {
    var g, a := w.regs, w.fifo + w.dev;
    if !g.csr.enable then (w, Chunk(g.next, g.limit, []))
    else if g.next > g.limit then (w.(regs := Settle(g)), Chunk(g.next, g.limit, []))
    else
      var cap := OpenLength(|w.image|, w.faults, g.next, g.limit - g.next);
      var n, b := Passed(|a|, Full(w), cap), Held(|a|, Full(w), cap);
      var moved := g.(next := g.next + n);
      var fault := n < Whole(|a|, Full(w)) && n < g.limit - g.next;
      (World(if fault then Broken(moved) else Settle(moved),
             a[n..b], if n == Whole(|a|, Full(w)) then |a| - n else BURST,
             a[b..], w.places, w.capacity, Put(w.image, g.next, a[..n]), w.faults),
       Chunk(g.next, g.limit, a[..n]))
  }

  /** Memory to device: the available bytes are those of the FIFO and of memory up to the limit or the
      first fault. */
  function MovedOut(w: World): (r: (World, Chunk))
    requires Shaped(w) && |w.dev| <= w.places
  {
    var g := w.regs;
    if !g.csr.enable then (w, Chunk(g.next, g.limit, []))
    else if g.next >= g.limit then (w.(regs := Settle(g)), Chunk(g.next, g.limit, []))
    else
      var open := OpenLength(|w.image|, w.faults, g.next, g.limit - g.next);
      var a := w.fifo + Peek(w.image, g.next, open);
      var cap := w.places - |w.dev|;
      var n, b := Passed(|a|, Full(w), cap), Held(|a|, Full(w), cap);
      var k := if b < |w.fifo| then 0 else b - |w.fifo|;
      var moved := g.(next := g.next + k);
      var fault := n == Whole(|a|, Full(w)) && k < g.limit - g.next;
      (World(if fault then Broken(moved) else Settle(moved),
             a[n..b], if n == Whole(|a|, Full(w)) then |a| - n else BURST,
             w.dev + a[..n], w.places, w.capacity, w.image, w.faults),
       Chunk(g.next, g.limit, Peek(w.image, g.next, k)))
  }

  function Peek(image: seq<Byte>, addr: nat, n: nat): (r: seq<Byte>)
  {
    if n == 0 || addr + n > |image| then [] else image[addr..addr + n]
  }

  // ----- what is known of a transfer determines it

  /** n bytes passed and h more are in the FIFO: either nothing more could be had, or the destination
      took no more and the FIFO holds the rest of its burst. */
  lemma Numbers(a: nat, p: nat, cap: nat, n: nat, h: nat, lim: nat)
    requires p <= a && p <= BURST && n <= cap && n + h <= a
    requires (lim < BURST && h == lim && n + h == a && WholeBursts(n - p))
             || (lim == BURST && 0 < h <= BURST && n == cap && WholeBursts(n + h - p))
    requires p > 0 ==> n > 0 || lim == BURST
    ensures n == Passed(a, p, cap) && n + h == Held(a, p, cap) && lim == if n == Whole(a, p) then a - n else BURST
    ensures lim == BURST ==> n < Whole(a, p)
  {
    if lim < BURST {
      UsedUp(a, p, n);
    } else {
      BoundaryIs(p, n, n + h);
      Below(a, p, n, n + h);
    }
  }

  lemma UsedUp(a: nat, p: nat, n: nat)
    requires p <= a && p <= BURST && n <= a < n + BURST && WholeBursts(n - p) && (p > 0 ==> n > 0)
    ensures n == Whole(a, p)
  {
    WholeIs(a, p, n);
  }

  lemma Below(a: nat, p: nat, n: nat, b: nat)
    requires p <= a && n < b <= a && b == Boundary(p, n)
    ensures n < Whole(a, p)
  {
    if n >= p {
      var q := (n - p) / BURST + 1;
      assert q * BURST <= a - p;
      assert q <= (a - p) / BURST;
    }
  }

  lemma Cut(s: seq<Byte>, f: seq<Byte>, d: seq<Byte>)
    ensures var a := s + f + d;
            a[..|s|] == s && a[|s|..|s| + |f|] == f && a[|s| + |f|..] == d && |a| == |s| + |f| + |d|
  {
  }

  /** Device to memory. */
  lemma InDetermined(w: World, exit: Exit, s: seq<Byte>, fifo: seq<Byte>, lim: nat, dev: seq<Byte>)
    requires Shaped(w) && w.regs.csr.enable && w.regs.next <= w.regs.limit
    requires s + fifo + dev == w.fifo + w.dev && |fifo| <= lim <= BURST && (lim == BURST ==> 0 < |fifo|)
             && (lim < BURST ==> |fifo| == lim)
    requires Aligned(|s|) && Aligned(w.regs.limit - w.regs.next) && w.regs.next + |s| <= w.regs.limit
    requires Open(|w.image|, w.faults, w.regs.next, |s|)
    requires match exit
             case Starved => dev == [] && lim < BURST && WholeBursts(|s| - Full(w))
             case Blocked => w.regs.next + |s| == w.regs.limit && lim == BURST && WholeBursts(|s| + |fifo| - Full(w))
             case Fault => w.regs.next + |s| < w.regs.limit && lim == BURST && WholeBursts(|s| + |fifo| - Full(w))
                           && !LongOk(|w.image|, w.faults, w.regs.next + |s|)
             case _ => false
    requires exit == Starved ==> Full(w) <= |s|
    ensures var (r, c) := MovedIn(w);
            && c == Chunk(w.regs.next, w.regs.limit, s) && r.fifo == fifo && r.lim == lim && r.dev == dev
            && r.image == Put(w.image, w.regs.next, s) && r.places == w.places && r.capacity == w.capacity
            && r.faults == w.faults
            && r.regs == var moved := w.regs.(next := w.regs.next + |s|);
            if exit == Fault then Broken(moved) else Settle(moved)
  {
    hide Whole, Boundary, OpenLength, WholeBursts, Aligned, Open, LongOk, Put, Settle, Broken;
    var g := w.regs;
    var room := g.limit - g.next;
    var cap := OpenLength(|w.image|, w.faults, g.next, room);
    Cut(s, fifo, dev);
    OpenAtLeast(|w.image|, w.faults, g.next, room, |s|);
    if exit != Starved {
      OpenExactly(|w.image|, w.faults, g.next, room, |s|);
    }
    Numbers(|w.fifo + w.dev|, Full(w), cap, |s|, |fifo|, lim);
  }

  /** Memory to device. */
  lemma OutDetermined(w: World, exit: Exit, f: seq<Byte>, d: seq<Byte>, fifo: seq<Byte>, lim: nat)
    requires Shaped(w) && |w.dev| + |d| <= w.places && w.regs.csr.enable && w.regs.next < w.regs.limit
    requires d + fifo == w.fifo + f && |fifo| <= lim <= BURST && (lim == BURST ==> 0 < |fifo|)
             && (lim < BURST ==> |fifo| == lim)
    requires Aligned(|f|) && Aligned(w.regs.limit - w.regs.next) && w.regs.next + |f| <= w.regs.limit
    requires Open(|w.image|, w.faults, w.regs.next, |f|) && Fetched(w.image, w.regs.next, f)
    requires match exit
             case Done => w.regs.next + |f| == w.regs.limit && lim < BURST
             case Starved => w.regs.next + |f| == w.regs.limit && lim < BURST
             case Blocked => |w.dev| + |d| == w.places && lim == BURST && WholeBursts(|d| + |fifo| - Full(w))
             case Fault => w.regs.next + |f| < w.regs.limit && lim < BURST
                           && !LongOk(|w.image|, w.faults, w.regs.next + |f|)
             case Off => false
    requires exit != Blocked ==> WholeBursts(|d| - Full(w)) && Full(w) <= |d|
    ensures var (r, c) := MovedOut(w);
            && c == Chunk(w.regs.next, w.regs.limit, f) && r.fifo == fifo && r.lim == lim && r.dev == w.dev + d
            && r.image == w.image && r.places == w.places && r.capacity == w.capacity && r.faults == w.faults
            && r.regs == var moved := w.regs.(next := w.regs.next + |f|);
            if exit == Fault then Broken(moved) else Settle(moved)
  {
    hide Whole, Boundary, OpenLength, WholeBursts, Aligned, Open, LongOk, Settle, Broken, Fetched, Passed, Held, Peek;
    var g := w.regs;
    var room := g.limit - g.next;
    var open := OpenLength(|w.image|, w.faults, g.next, room);
    var a := w.fifo + Peek(w.image, g.next, open);
    OpenAtLeast(|w.image|, w.faults, g.next, room, |f|);
    if exit != Blocked {
      OpenExactly(|w.image|, w.faults, g.next, room, |f|);
    }
    OpenInside(|w.image|, w.faults, g.next, room);
    Peeked(w.image, g.next, open, f);
    Parted(w.fifo, f, d, fifo, Peek(w.image, g.next, open));
    Numbers(|a|, Full(w), w.places - |w.dev|, |d|, |fifo|, lim);
  }

  lemma {:induction false} OpenInside(len: nat, faults: iset<nat>, lo: nat, n: nat)
    ensures var k := OpenLength(len, faults, lo, n); k > 0 ==> lo + k <= len
    decreases n
  {
    if n >= 4 && LongOk(len, faults, lo) {
      OpenInside(len, faults, lo + 4, n - 4);
    }
  }

  lemma Peeked(image: seq<Byte>, addr: nat, n: nat, f: seq<Byte>)
    requires Fetched(image, addr, f) && |f| <= n && (n > 0 ==> addr + n <= |image|)
    ensures |Peek(image, addr, n)| == n && f <= Peek(image, addr, n) && Peek(image, addr, |f|) == f
  {
  }

  lemma Parted(fifo0: seq<Byte>, f: seq<Byte>, d: seq<Byte>, fifo: seq<Byte>, p: seq<Byte>)
    requires d + fifo == fifo0 + f && f <= p
    ensures var a := fifo0 + p;
            a[..|d|] == d && |d| + |fifo| == |fifo0| + |f| <= |a| && a[|d|..|d| + |fifo|] == fifo
            && (|f| == |p| ==> f == p)
  {
    var a := fifo0 + p;
    assert a[..|fifo0| + |f|] == fifo0 + f;
    assert (d + fifo)[..|d|] == d && (d + fifo)[|d|..] == fifo;
  }
}
