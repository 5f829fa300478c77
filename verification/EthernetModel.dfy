/** Packet arbitration in ethernet.c as a function of what happens outside the chip, and what a whole
    run of it guarantees. */
module EthernetModel {
  import opened Bytes
  import opened Dma
  import opened DmaModel
  import opened DmaRuns

  const BUFFER_SIZE: nat := 65536
  const FRAME_MIN: nat := 64
  const BOP: nat := 0x40000000
  const EOP: nat := 0x80000000

  type Packet = seq<Byte>

  datatype Link = Disconnected | Loopback | ThinWire | TwistedPair
  datatype Receiver = Waiting | Receiving
  datatype Event = PacketOk | ShortPacket | Overflow | Received | Underflow | Collisions | Sent

  /** What happens outside the chip in one step: the link, the packets waiting in the host's queue,
      whether packets from the queue and the chip's own ones pass the address filter, whether short
      packets are accepted, and whether the transmitter is on. */
  datatype Input = Input(link: Link, arrivals: seq<Packet>, accept: bool, acceptOwn: bool, short: bool, transmit: bool)

  /** A step of a run: the chip's handler, or the processor writing the registers of a channel. */
  datatype Action =
    | Tick(input: Input)
    | Program(receive: bool, regs: Regs)

  /** The history of the frame last received: the packet, its frame, memory at that time, and the
      stores made for it since. */
  datatype Pending = Pending(packet: Packet, frame: seq<Byte>, before: seq<Byte>, chunks: seq<Chunk>)

  /** The chip, its two DMA channels and memory.  rest is the part of the frame not yet delivered; the
      network is busy exactly while there is any. */
  datatype Wire = Wire(
    turbo: bool, state: Receiver, chain: bool, buffer: seq<Byte>, rest: seq<Byte>, tx: seq<Byte>,
    rx: Regs, txr: Regs, image: seq<Byte>, faults: iset<nat>, pending: Pending)

  /** A report of a received packet, with memory at the time. */
  datatype Delivery = Delivery(pending: Pending, after: seq<Byte>)

  datatype Fate = Stored | Lost

  /** The outcome of a step or of a run; ok is false where the program would have stopped. */
  datatype Turn = Turn(
    wire: Wire, news: seq<Event>, accepted: seq<Packet>, deliveries: seq<Delivery>, fates: seq<(Packet, Fate)>,
        ok: bool)

  predicate Sized(w: Wire)
  {
    |w.buffer| == BUFFER_SIZE && |w.tx| <= BUFFER_SIZE
  }

  // ----- parts of a step

  /** ENADDR: an address without the packet marks. */
  function Address(x: nat): (r: nat)
  {
    x % BOP
  }

  /** A packet as it lies in the buffer: at least the minimal length, with room for a checksum. */
  function FrameLength(n: nat): (r: nat)
    ensures r >= FRAME_MIN && r >= n + 4
  {
    if n + 4 < FRAME_MIN then FRAME_MIN else n + 4
  }

  /** What goes out of the collected bytes: the older chip drops the last fifteen. */
  function Outgoing(turbo: bool, s: seq<Byte>): (r: seq<Byte>)
    ensures |r| <= |s|
  {
    if turbo || |s| <= 15 then s else s[..|s| - 15]
  }

  /** dma_enet_interrupt. */
  function EnetSettle(r: Regs): (t: Regs)
  {
    Signalled(if r.csr.supdate
              then r.(next := r.start, limit := r.stop, csr := r.csr.(complete := true, supdate := false))
              else r.(csr := r.csr.(complete := true, enable := false)))
  }

  lemma AlwaysRaised(r: Regs)
    ensures EnetSettle(r).line && EnetSettle(r) == EnetSettle(r.(line := true))
  {
  }

  /** The pointer after the last byte of a frame. */
  function Trimmed(next: nat, limit: nat, turbo: bool, supdate: bool, eop: bool): (r: nat)
  {
    var floor := next - next % BURST;
    var n := if !turbo || supdate then next else if floor < limit then floor + BURST else floor;
    if eop && n / BOP % 2 == 0 then n + BOP else n
  }

  /** Room between the pointers. */
  function Room(next: nat, limit: nat): (n: nat)
  {
    if next < limit then limit - next else 0
  }

  /** dma_enet_write_memory: the next part of the frame goes to memory. */
  function StoreF(w: Wire, eop: bool): (t: Wire)
    ensures |t.rest| <= |w.rest| && t.buffer == w.buffer && t.tx == w.tx && t.txr == w.txr && t.turbo == w.turbo
  {
    if !w.rx.csr.enable then w
    else
      var goal := Least(|w.rest|, Room(w.rx.next, w.rx.limit));
      var n := BytesBefore(|w.image|, w.faults, w.rx.next, goal);
      var moved := w.rx.(next := w.rx.next + n);
      var checked := if n < goal then Broken(moved) else moved;
      var trimmed := if n == |w.rest|
                     then checked.(next := Trimmed(checked.next, checked.limit, w.turbo, checked.csr.supdate, eop))
                     else checked;
      var c := Chunk(w.rx.next, w.rx.limit, w.rest[..n]);
      w.(rest := w.rest[n..], rx := EnetSettle(trimmed), image := Put(w.image, c.addr, c.w),
         pending := w.pending.(chunks := w.pending.chunks + [c]))
  }

  /** enet_receive for a packet that passes the filter. */
  function Accept(w: Wire, packet: Packet): (t: Wire)
    requires |w.buffer| == BUFFER_SIZE && FrameLength(|packet|) <= BUFFER_SIZE
    ensures |t.buffer| == BUFFER_SIZE && t.rest != [] && t.tx == w.tx && t.txr == w.txr && t.turbo == w.turbo
  {
    var buffer := packet + w.buffer[|packet|..];
    var frame := buffer[..FrameLength(|packet|)];
    w.(buffer := buffer, rest := frame, pending := Pending(packet, frame, w.image, []))
  }

  function Heard(w: Wire, packet: Packet): (t: Turn)
    requires |w.buffer| == BUFFER_SIZE && FrameLength(|packet|) <= BUFFER_SIZE
  {
    Turn(Accept(w, packet), [], [packet], [], [], true)
  }

  function Quiet(w: Wire): (t: Turn)
  {
    Turn(w, [], [], [], [], true)
  }

  /** The frame is given up. */
  function Drop(w: Wire, e: Event): (t: Turn)
  {
    Turn(w.(rest := [], chain := false, state := Waiting), [e], [], [], [(w.pending.packet, Lost)], true)
  }

  /** One round of the receiving state. */
  function DeliverF(w: Wire, link: Link): (t: Turn)
    ensures t.wire.buffer == w.buffer && t.wire.tx == w.tx && t.wire.txr == w.txr && t.wire.turbo == w.turbo && t.ok
  {
    var s := StoreF(w, w.chain && !w.turbo);
    if |s.rest| == |w.rest| then Drop(s, Overflow)
    else if s.rest != [] then Quiet(s.(chain := !w.turbo))
    else
      Turn(s.(chain := false, state := Waiting), if link == Loopback then [PacketOk, Received] else [PacketOk],
           [], [Delivery(s.pending, s.image)], [(s.pending.packet, Stored)], true)
  }

  predicate Fitting(packets: seq<Packet>)
  {
    forall p <- packets :: FrameLength(|p|) <= BUFFER_SIZE
  }

  /** The receiving half of the handler.  A misaligned channel stops the program. */
  function ReceiveF(w: Wire, i: Input): (t: Turn)
    requires Sized(w) && Fitting(i.arrivals)
    ensures Sized(t.wire) && t.wire.txr == w.txr && t.wire.turbo == w.turbo
  {
    if w.rest == [] then
      if w.state == Waiting && (i.link == ThinWire || i.link == TwistedPair) && i.arrivals != [] && i.accept then
        assert i.arrivals[0] in i.arrivals;
        Heard(w, i.arrivals[0])
      else Quiet(w)
    else if w.state == Waiting && |w.rest| < FRAME_MIN && !i.short then Drop(w, ShortPacket)
    else if w.rx.csr.enable && !(WholeBursts(w.rx.next) && WholeBursts(w.rx.limit)) then Quiet(w).(ok := false)
    else DeliverF(w.(state := Receiving, chain := w.chain && w.state == Receiving), i.link)
  }

  /** dma_enet_read_memory: one buffer is appended to the outgoing packet. */
  function FetchF(w: Wire): (t: Wire)
    requires Sized(w)
    ensures Sized(t) && t.turbo == w.turbo && t.rest == w.rest && t.pending == w.pending && t.image == w.image
            && t.buffer == w.buffer
  {
    if !w.txr.csr.enable then w
    else
      var goal := Least(Room(w.txr.next, Address(w.txr.limit)), BUFFER_SIZE - |w.tx|);
      var n := BytesBefore(|w.image|, w.faults, w.txr.next, goal);
      var moved := w.txr.(next := w.txr.next + n);
      w.(tx := w.tx + Peek(w.image, w.txr.next, n), txr := EnetSettle(if n < goal then Broken(moved) else moved))
  }

  /** The end-of-packet mark of the buffer that is fetched. */
  predicate LastBuffer(w: Wire)
  {
    w.txr.csr.enable && w.txr.limit / EOP % 2 == 1
  }

  /** enet_send: on a looped or thin wire the chip hears its own packet. */
  function SendF(w: Wire, packet: Packet, i: Input): (t: Turn)
    requires Sized(w)
    ensures Sized(t.wire) && t.deliveries == [] && t.fates == [] && t.news == []
  {
    if (i.link == Loopback || i.link == ThinWire) && i.acceptOwn then
      if FrameLength(|packet|) <= BUFFER_SIZE then Heard(w.(tx := []), packet) else Quiet(w).(ok := false)
    else Quiet(w.(tx := []))
  }

  /** The transmitting half: nothing happens while the network is busy. */
  function TransmitF(w: Wire, i: Input): (t: Turn)
    requires Sized(w)
    ensures Sized(t.wire) && t.deliveries == [] && t.fates == [] && PacketOk !in t.news
  {
    if !i.transmit || w.rest != [] then Quiet(w)
    else
      var f := FetchF(w);
      if w.turbo then
        if f.tx == [] then Quiet(f)
        else if i.link == Disconnected then Quiet(f.(tx := [])).(news := [Collisions, Sent])
        else
          var t := SendF(f, f.tx, i);
          t.(news := [Sent])
      else if f.tx != [] && |f.tx| == |w.tx| && !LastBuffer(w) then Quiet(f.(tx := [])).(news := [Underflow])
      else if f.tx != [] && i.link == Disconnected then Quiet(f.(tx := [])).(news := [Collisions])
      else if 0 < |f.tx| <= 15 then Quiet(if LastBuffer(w) then f.(tx := []) else f)
      else if LastBuffer(w) then SendF(f, Outgoing(false, f.tx), i)
      else Quiet(f.(tx := Outgoing(false, f.tx)))
  }

  /** One call of the handler. */
  function StepF(w: Wire, i: Input): (t: Turn)
    requires Sized(w) && Fitting(i.arrivals)
    ensures Sized(t.wire)
  {
    var r := ReceiveF(w, i);
    if !r.ok then r
    else
      var s := TransmitF(r.wire, i);
      Turn(s.wire, r.news + s.news, r.accepted + s.accepted, r.deliveries, r.fates, s.ok)
  }

  /** The packets waiting in the host's queue fit the buffer. */
  predicate Proper(script: seq<Action>)
  {
    forall a <- script :: a.Tick? ==> Fitting(a.input.arrivals)
  }

  /** A run, step by step. */
  function RunF(w: Wire, script: seq<Action>): (t: Turn)
    requires Sized(w) && Proper(script)
    ensures Sized(t.wire)
  {
    if script == [] then Quiet(w)
    else
      var r, a := RunF(w, script[..|script| - 1]), script[|script| - 1];
      if !r.ok then r
      else if a.Tick? then
        assert a in script;
        var t := StepF(r.wire, a.input);
        Turn(t.wire, r.news + t.news, r.accepted + t.accepted, r.deliveries + t.deliveries, r.fates + t.fates, t.ok)
      else r.(wire := if a.receive then r.wire.(rx := a.regs) else r.wire.(txr := a.regs))
  }

  // ----- what a run guarantees

  /** A chunk that was stored at the start of the buffer of the time and does not run past its end. */
  predicate InBuffer(c: Chunk)
  {
    c.w != [] ==> c.addr + |c.w| <= c.limit
  }

  /** What is known of a frame while it is delivered. */
  predicate Sound(p: Pending)
  {
    p.packet <= p.frame && |p.frame| == FrameLength(|p.packet|) && forall c <- p.chunks :: InBuffer(c)
  }

  predicate Underway(w: Wire)
  {
    w.rest != [] ==>
      Sound(w.pending) && Stream(w.pending.chunks) + w.rest == w.pending.frame
      && w.image == Replay(w.pending.before, w.pending.chunks)
  }

  /** The whole frame, which begins with the packet, is in memory and in order. */
  predicate Complete(d: Delivery)
  {
    Sound(d.pending) && Stream(d.pending.chunks) == d.pending.frame
    && d.after == Replay(d.pending.before, d.pending.chunks)
  }

  function Firsts(fates: seq<(Packet, Fate)>): (r: seq<Packet>)
  {
    if fates == [] then [] else Firsts(fates[..|fates| - 1]) + [fates[|fates| - 1].0]
  }

  /** The packets that were neither dropped nor overflowed. */
  function Kept(fates: seq<(Packet, Fate)>): (r: seq<Packet>)
  {
    if fates == [] then []
    else Kept(fates[..|fates| - 1]) + if fates[|fates| - 1].1 == Stored then [fates[|fates| - 1].0] else []
  }

  function Packets(deliveries: seq<Delivery>): (r: seq<Packet>)
  {
    if deliveries == [] then []
    else Packets(deliveries[..|deliveries| - 1]) + [deliveries[|deliveries| - 1].pending.packet]
  }

  /** The reports of received packets among the events. */
  function Oks(events: seq<Event>): (n: nat)
  {
    if events == [] then 0 else Oks(events[..|events| - 1]) + if events[|events| - 1] == PacketOk then 1 else 0
  }

  /** The packet that is still being delivered. */
  function Current(w: Wire): (r: seq<Packet>)
  {
    if w.rest == [] then [] else [w.pending.packet]
  }

  /** A turn that starts in w: its books balance. */
  predicate Booked(w: Wire, t: Turn)
  {
    && (forall d <- t.deliveries :: Complete(d))
    && Packets(t.deliveries) == Kept(t.fates)
    && Oks(t.news) == |t.deliveries|
    && Current(w) + t.accepted == Firsts(t.fates) + Current(t.wire)
    && Underway(t.wire)
  }

  lemma {:induction false} FirstsAppend(a: seq<(Packet, Fate)>, b: seq<(Packet, Fate)>)
    ensures Firsts(a + b) == Firsts(a) + Firsts(b)
    decreases |b|
  {
    if b == [] {
      assert a + b == a;
    } else {
      FirstsAppend(a, b[..|b| - 1]);
      assert (a + b)[..|a + b| - 1] == a + b[..|b| - 1];
    }
  }

  lemma {:induction false} KeptAppend(a: seq<(Packet, Fate)>, b: seq<(Packet, Fate)>)
    ensures Kept(a + b) == Kept(a) + Kept(b)
    decreases |b|
  {
    if b == [] {
      assert a + b == a;
    } else {
      KeptAppend(a, b[..|b| - 1]);
      assert (a + b)[..|a + b| - 1] == a + b[..|b| - 1];
    }
  }

  lemma {:induction false} PacketsAppend(a: seq<Delivery>, b: seq<Delivery>)
    ensures Packets(a + b) == Packets(a) + Packets(b)
    decreases |b|
  {
    if b == [] {
      assert a + b == a;
    } else {
      PacketsAppend(a, b[..|b| - 1]);
      assert (a + b)[..|a + b| - 1] == a + b[..|b| - 1];
    }
  }

  lemma {:induction false} OksAppend(a: seq<Event>, b: seq<Event>)
    ensures Oks(a + b) == Oks(a) + Oks(b)
    decreases |b|
  {
    if b == [] {
      assert a + b == a;
    } else {
      OksAppend(a, b[..|b| - 1]);
      assert (a + b)[..|a + b| - 1] == a + b[..|b| - 1];
    }
  }

  /** Two turns one after the other. */
  function Then(r: Turn, t: Turn): (u: Turn)
  {
    Turn(t.wire, r.news + t.news, r.accepted + t.accepted, r.deliveries + t.deliveries, r.fates + t.fates, t.ok)
  }

  lemma BookedThen(w: Wire, r: Turn, t: Turn)
    requires Booked(w, r) && Booked(r.wire, t)
    ensures Booked(w, Then(r, t))
  {
    hide Complete, Underway;
    FirstsAppend(r.fates, t.fates);
    KeptAppend(r.fates, t.fates);
    PacketsAppend(r.deliveries, t.deliveries);
    OksAppend(r.news, t.news);
    Chained(Current(w), r.accepted, Firsts(r.fates), Current(r.wire), t.accepted, Firsts(t.fates), Current(t.wire));
  }

  lemma Chained(c0: seq<Packet>, a: seq<Packet>, f: seq<Packet>, c1: seq<Packet>, b: seq<Packet>, g: seq<Packet>,
                c2: seq<Packet>)
    requires c0 + a == f + c1 && c1 + b == g + c2
    ensures c0 + (a + b) == (f + g) + c2
  {
    calc {
      c0 + (a + b);
      (c0 + a) + b;
      (f + c1) + b;
      f + (c1 + b);
      f + (g + c2);
    }
  }

  lemma QuietBooked(w: Wire, t: Turn)
    requires t.deliveries == [] && t.fates == [] && t.accepted == [] && PacketOk !in t.news
             && Current(t.wire) == Current(w) && Underway(t.wire)
    ensures Booked(w, t)
  {
    NoOks(t.news);
    assert Current(w) + [] == [] + Current(t.wire);
  }

  lemma {:induction false} NoOks(news: seq<Event>)
    requires PacketOk !in news
    ensures Oks(news) == 0
  {
    if news != [] {
      NoOks(news[..|news| - 1]);
    }
  }

  lemma AcceptUnderway(w: Wire, packet: Packet)
    requires |w.buffer| == BUFFER_SIZE && FrameLength(|packet|) <= BUFFER_SIZE
    ensures Underway(Accept(w, packet))
  {
    var t := Accept(w, packet);
    StartOfRun(w.image);
    assert packet == t.pending.frame[..|packet|];
    assert Stream([]) + t.rest == t.pending.frame;
  }

  /** A heard packet becomes the current one. */
  lemma HeardBooked(w: Wire, t: Turn, packet: Packet)
    requires w.rest == [] && t.wire.rest != [] && t.wire.pending.packet == packet && t.accepted == [packet]
             && Underway(t.wire)
    requires t.deliveries == [] && t.fates == [] && PacketOk !in t.news
    ensures Booked(w, t)
  {
    NoOks(t.news);
    assert Current(w) + [packet] == [packet] == Firsts([]) + Current(t.wire);
  }

  /** Storing the next part of a frame. */
  lemma StoreKeeps(w: Wire, eop: bool)
    requires Underway(w) && w.rest != []
    ensures var t := StoreF(w, eop);
            && Sound(t.pending) && t.pending.packet == w.pending.packet
            && Stream(t.pending.chunks) + t.rest == t.pending.frame
            && t.image == Replay(t.pending.before, t.pending.chunks)
  {
    hide BytesBefore, EnetSettle, Trimmed, Put, Stream, Replay, FrameLength;
    if w.rx.csr.enable {
      var n := BytesBefore(|w.image|, w.faults, w.rx.next, Least(|w.rest|, Room(w.rx.next, w.rx.limit)));
      var c := Chunk(w.rx.next, w.rx.limit, w.rest[..n]);
      Append(w.pending.chunks, c);
      SplitAt(Stream(w.pending.chunks), w.rest, n);
    }
  }

  lemma DropBooked(w: Wire, v: Wire, e: Event)
    requires w.rest != [] && v.pending.packet == w.pending.packet && e != PacketOk
    ensures Booked(w, Drop(v, e))
  {
    NoOks([e]);
    Fates(w.pending.packet, Lost);
    assert Current(w) + [] == [w.pending.packet] + [];
  }

  lemma Fates(p: Packet, f: Fate)
    ensures Firsts([(p, f)]) == [p] && Kept([(p, f)]) == if f == Stored then [p] else []
  {
    assert [(p, f)][..0] == [];
    assert Firsts([]) + [p] == [p];
  }

  lemma OneDelivery(d: Delivery)
    ensures Packets([d]) == [d.pending.packet]
  {
    assert [d][..0] == [];
    assert Packets([]) + [d.pending.packet] == [d.pending.packet];
  }

  lemma OneOk(link: Link)
    ensures Oks([PacketOk]) == 1 && Oks([PacketOk, Received]) == 1
  {
    assert [PacketOk][..0] == [] && [PacketOk, Received][..1] == [PacketOk];
  }

  lemma DeliverBooked(w: Wire, link: Link)
    requires w.rest != [] && Underway(w)
    ensures Booked(w, DeliverF(w, link))
  {
    hide StoreF, Stream, Replay, Sound;
    var s := StoreF(w, w.chain && !w.turbo);
    StoreKeeps(w, w.chain && !w.turbo);
    if |s.rest| == |w.rest| {
      DropBooked(w, s, Overflow);
    } else if s.rest != [] {
      QuietBooked(w, DeliverF(w, link));
    } else {
      NothingLeft(Stream(s.pending.chunks));
      Fates(s.pending.packet, Stored);
      OneDelivery(Delivery(s.pending, s.image));
      OneOk(link);
      assert Current(w) + [] == [w.pending.packet] + [];
    }
  }

  lemma ReceiveBooked(w: Wire, i: Input)
    requires Sized(w) && Fitting(i.arrivals) && Underway(w)
    ensures Booked(w, ReceiveF(w, i))
  {
    hide DeliverF, Drop, Underway, Booked, Accept, WholeBursts;
    var t := ReceiveF(w, i);
    if w.rest == [] {
      if t.accepted == [] {
        QuietBooked(w, t);
      } else {
        assert i.arrivals[0] in i.arrivals;
        AcceptUnderway(w, i.arrivals[0]);
        AcceptPacket(w, i.arrivals[0]);
        HeardBooked(w, t, i.arrivals[0]);
      }
    } else if w.state == Waiting && |w.rest| < FRAME_MIN && !i.short {
      DropBooked(w, w, ShortPacket);
    } else if !t.ok {
      QuietBooked(w, t);
    } else {
      var v := w.(state := Receiving, chain := w.chain && w.state == Receiving);
      SameUnderway(w, v, t);
      DeliverBooked(v, i.link);
    }
  }

  lemma AcceptPacket(w: Wire, packet: Packet)
    requires |w.buffer| == BUFFER_SIZE && FrameLength(|packet|) <= BUFFER_SIZE
    ensures Accept(w, packet).pending.packet == packet && Accept(w.(tx := []), packet) == Accept(w, packet).(tx := [])
  {
  }

  /** The state of the receiver does not matter for the books. */
  lemma SameUnderway(w: Wire, v: Wire, t: Turn)
    requires v.rest == w.rest && v.pending == w.pending && v.image == w.image
    ensures Underway(v) == Underway(w) && Current(v) == Current(w) && Booked(v, t) == Booked(w, t)
  {
  }

  lemma SendBooked(w: Wire, f: Wire, packet: Packet, i: Input, news: seq<Event>)
    requires Sized(f) && w.rest == f.rest == [] && PacketOk !in news
    ensures Booked(w, SendF(f, packet, i).(news := news))
  {
    hide Underway, Booked, Accept;
    var t := SendF(f, packet, i).(news := news);
    if t.accepted == [] {
      EmptyUnderway(t.wire);
      QuietBooked(w, t);
    } else {
      AcceptUnderway(f.(tx := []), packet);
      AcceptPacket(f.(tx := []), packet);
      HeardBooked(w, t, packet);
    }
  }

  lemma EmptyUnderway(w: Wire)
    requires w.rest == []
    ensures Underway(w) && Current(w) == []
  {
  }

  lemma TransmitBooked(w: Wire, i: Input)
    requires Sized(w) && Underway(w)
    ensures Booked(w, TransmitF(w, i))
  {
    hide Underway, Booked, SendF, FetchF, Outgoing, LastBuffer;
    var t, f := TransmitF(w, i), FetchF(w);
    if !i.transmit || w.rest != [] {
      QuietBooked(w, t);
    } else {
      EmptyUnderway(t.wire.(rest := []));
      SendBooked(w, f, f.tx, i, [Sent]);
      SendBooked(w, f, Outgoing(false, f.tx), i, []);
      if t.wire.rest == [] && t.accepted == [] {
        EmptyUnderway(t.wire);
        EmptyUnderway(w);
        QuietBooked(w, t);
      }
    }
  }

  lemma StepBooked(w: Wire, i: Input)
    requires Sized(w) && Fitting(i.arrivals) && Underway(w)
    ensures Booked(w, StepF(w, i))
  {
    hide Underway, ReceiveF, TransmitF, Packets, Kept, Oks, Firsts;
    var r := ReceiveF(w, i);
    ReceiveBooked(w, i);
    if r.ok {
      var s := TransmitF(r.wire, i);
      TransmitBooked(r.wire, i);
      BookedThen(w, r, s);
      assert r.deliveries + [] == r.deliveries && r.fates + [] == r.fates;
      assert StepF(w, i) == Then(r, s);
    }
  }

  /** The processor's register writes do not touch the books. */
  lemma ProgramBooked(w: Wire, r: Turn, v: Wire)
    requires Booked(w, r) && v.rest == r.wire.rest && v.pending == r.wire.pending && v.image == r.wire.image
    ensures Booked(w, r.(wire := v))
  {
  }

  /** Every run from a state without a pending frame.  The packets that were accepted are, in order,
      those with a known fate and the one under way; the reports of received packets are the
      deliveries; the k-th delivery carries the k-th accepted packet that was neither dropped nor
      overflowed, its frame begins with that packet, memory at the report is memory at acceptance
      with the stores of the frame, and these spell the frame inside the programmed buffers. */
  lemma {:induction false} RunBooked(w: Wire, script: seq<Action>)
    requires Sized(w) && Proper(script) && w.rest == []
    ensures Booked(w, RunF(w, script))
  {
    hide Underway, StepF, Packets, Kept, Oks, Firsts, Complete;
    if script == [] {
      EmptyUnderway(w);
      QuietBooked(w, Quiet(w));
    } else {
      var front, a := script[..|script| - 1], script[|script| - 1];
      RunBooked(w, front);
      var r := RunF(w, front);
      if r.ok && a.Tick? {
        assert a in script;
        StepBooked(r.wire, a.input);
        BookedThen(w, r, StepF(r.wire, a.input));
      } else if r.ok {
        ProgramBooked(w, r, RunF(w, script).wire);
      }
    }
  }
}
