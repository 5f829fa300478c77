/** The ethernet chip of ethernet.c carries out the abstract runs, with the DMA routines of both
    channels. */
module Ethernet {
  import opened Bytes
  import opened Dma
  import opened DmaModel
  import opened DmaRuns
  import opened DmaDriver
  import opened EthernetModel

  class Chip {
    const turbo: bool
    const rx: Device
    const tx: Device
    const rxChannel: Channel
    const txChannel: Channel
    const mem: Memory
    var state: Receiver
    var busy: bool
    var chain: bool
    var events: seq<EthernetModel.Event>
    /** The history of the frame last received. */
    ghost var pending: Pending

    constructor (turbo: bool, rxChannel: Channel, txChannel: Channel, mem: Memory)
      requires rxChannel != txChannel
      ensures Valid() && BusyExactly() && this.rxChannel == rxChannel && this.txChannel == txChannel && this.mem == mem
      ensures this.turbo == turbo && fresh(rx) && fresh(tx) && fresh(rx.data) && fresh(tx.data)
    {
      var a := new Device(BUFFER_SIZE);
      var b := new Device(BUFFER_SIZE);
      a.limit, b.limit := BUFFER_SIZE, BUFFER_SIZE;
      this.turbo, this.rxChannel, this.txChannel, this.mem := turbo, rxChannel, txChannel, mem;
      rx, tx := a, b;
      state, busy, chain, events := Waiting, false, false, [];
      pending := Pending([], [], [], []);
    }

    ghost predicate Valid()
      reads this, rx, tx
    {
      && rx != tx && rx.data != tx.data && rxChannel != txChannel
      && rx.data.Length == tx.data.Length == BUFFER_SIZE && rx.Valid() && tx.Valid() && tx.limit == BUFFER_SIZE
    }

    /** The network is busy exactly when a received frame has not been delivered. */
    ghost predicate BusyExactly()
      reads this, rx
    {
      busy == (rx.size > 0)
    }

    /** The abstract state. */
    ghost function Now(): (w: Wire)
      reads this, rx, tx, rx.data, tx.data, rxChannel, txChannel, mem
      requires Valid()
      ensures Sized(w) && |w.rest| == rx.size && w.tx == tx.Filled() && w.turbo == turbo && w.state == state
              && w.chain == chain
      ensures w.rx == RegsOf(rxChannel) && w.txr == RegsOf(txChannel)
    {
      Wire(turbo, state, chain, rx.data[..], rx.Rest(), tx.Filled(), RegsOf(rxChannel), RegsOf(txChannel), mem.bytes,
           mem.faults, pending)
    }

    /** Ethernet_Reset with hard set; the receiver state survives it. */
    method HardReset()
      requires Valid()
      modifies this`busy, rx`size, rx`limit, tx`size, tx`limit
      ensures Valid() && BusyExactly() && Now() == old(Now()).(rest := [], tx := [])
    {
      rx.size, tx.size := 0, 0;
      rx.limit, tx.limit := BUFFER_SIZE, BUFFER_SIZE;
      busy := false;
    }

    /** enet_receive for a packet that passes the filter.  It is only ever called when the last frame
        is gone. */
    method Receive(packet: Packet)
      requires Valid() && rx.size == 0 && FrameLength(|packet|) <= BUFFER_SIZE
      modifies this`busy, this`pending, rx`size, rx`limit, rx.data
      ensures Valid() && BusyExactly() && Now() == Accept(old(Now()), packet)
    {
      hide Device.Filled, Device.Rest;
      var n := FrameLength(|packet|);
      PutPacket(packet, n);
      busy := true;
      pending := Pending(packet, rx.Rest(), mem.bytes, []);
    }

    /** The packet goes to the front of the receive buffer, which becomes a frame of n bytes. */
    method PutPacket(packet: Packet, n: nat)
      requires Valid() && |packet| <= n <= BUFFER_SIZE
      modifies rx`size, rx`limit, rx.data
      ensures Valid() && rx.size == n && rx.data[..] == packet + old(rx.data[..])[|packet|..]
              && rx.Rest() == rx.data[..][..n]
    {
      forall i | 0 <= i < |packet| {
        rx.data[i] := packet[i];
      }
      rx.size, rx.limit := n, n;
      assert rx.data[..][..n] == rx.data[..n];
    }

    /** dma_enet_interrupt. */
    method EnetInterrupt(ch: Channel)
      modifies ch`csr, ch`next, ch`limit, ch`interrupt
      ensures RegsOf(ch) == EnetSettle(old(RegsOf(ch))) && ch.interrupt
    {
      ch.csr := ch.csr.(complete := true);
      if ch.csr.supdate {
        ch.next, ch.limit := ch.start, ch.stop;
        ch.csr := ch.csr.(supdate := false);
      } else {
        ch.csr := ch.csr.(enable := false);
      }
      ch.interrupt := true;
    }

    /** One byte of the frame goes to memory. */
    method StoreByte() returns (ok: bool)
      requires Valid() && rx.size > 0
      modifies rxChannel`next, rx`size, mem`bytes
      ensures Valid() && |mem.bytes| == |old(mem.bytes)| && ok == ByteOk(|mem.bytes|, mem.faults, old(rxChannel.next))
      ensures !ok ==> rx.size == old(rx.size) && rxChannel.next == old(rxChannel.next) && mem.bytes == old(mem.bytes)
      ensures ok ==>
                rx.size == old(rx.size) - 1 && rx.Rest() == old(rx.Rest())[1..]
                && rxChannel.next == old(rxChannel.next) + 1
      ensures ok ==> Dma.Stored(old(mem.bytes), mem.bytes, old(rxChannel.next), old(rx.Rest())[..1])
    {
      hide Overwrite, Dma.Stored;
      var v := rx.data[rx.limit - rx.size];
      assert rx.Rest()[..1] == [v];
      ok := mem.PutByte(rxChannel.next, v);
      if ok {
        rx.size := rx.size - 1;
        rxChannel.next := rxChannel.next + 1;
      }
    }

    /** The loop of dma_enet_write_memory: w is stored from next on. */
    method StoreFrame() returns (ok: bool, ghost w: seq<Byte>)
      requires Valid()
      modifies rxChannel`next, rx`size, mem`bytes
      ensures Valid() && |w| == old(rx.size) - rx.size && w + rx.Rest() == old(rx.Rest())
              && |mem.bytes| == |old(mem.bytes)|
      ensures Dma.Stored(old(mem.bytes), mem.bytes, old(rxChannel.next), w)
      ensures rxChannel.next == old(rxChannel.next) + |w| && (w != [] ==> rxChannel.next <= rxChannel.limit)
      ensures OpenBytes(|mem.bytes|, mem.faults, old(rxChannel.next), |w|)
      ensures if ok then rx.size == 0 || rxChannel.next >= rxChannel.limit
              else rx.size > 0 && rxChannel.next < rxChannel.limit && !ByteOk(|mem.bytes|, mem.faults, rxChannel.next)
    {
      hide Overwrite, Dma.Stored, Device.Rest, ByteOk;
      ghost var lo, before, rest := rxChannel.next, mem.bytes, rx.Rest();
      ok, w := true, [];
      StoredNothing(before, lo);
      Ends(rest);
      while ok && rxChannel.next < rxChannel.limit && rx.size > 0
        invariant Valid() && |w| == |rest| - rx.size && w + rx.Rest() == rest && |mem.bytes| == |before|
        invariant Dma.Stored(before, mem.bytes, lo, w) && OpenBytes(|before|, mem.faults, lo, |w|)
        invariant rxChannel.next == lo + |w| && (w != [] ==> rxChannel.next <= rxChannel.limit)
        invariant !ok ==>
                    rx.size > 0 && rxChannel.next < rxChannel.limit && !ByteOk(|before|, mem.faults, rxChannel.next)
      {
        ghost var mid, v := mem.bytes, rx.Rest()[..1];
        SplitAt(w, rx.Rest(), 1);
        ok := StoreByte();
        if ok {
          StoredNext(before, mid, mem.bytes, lo, w, v);
          w := w + v;
        }
      }
    }

    /** The end of dma_enet_write_memory: the pointers after the last byte, and dma_enet_interrupt. */
    method FinishStore(ok: bool, eop: bool)
      modifies rxChannel`next, rxChannel`limit, rxChannel`csr, rxChannel`interrupt
      ensures var g := if ok then old(RegsOf(rxChannel)) else Broken(old(RegsOf(rxChannel)));
              RegsOf(rxChannel) ==
                  EnetSettle(if rx.size == 0 then g.(next := Trimmed(g.next, g.limit, turbo, g.csr.supdate, eop))
                             else g)
    {
      hide EnetSettle;
      if !ok {
        rxChannel.csr := rxChannel.csr.(enable := false, complete := true, busexc := true);
      }
      if rx.size == 0 {
        if turbo && !rxChannel.csr.supdate {
          rxChannel.next := rxChannel.next - rxChannel.next % BURST;
          if rxChannel.next < rxChannel.limit {
            rxChannel.next := rxChannel.next + BURST;
          }
        }
        if eop && rxChannel.next / BOP % 2 == 0 {
          rxChannel.next := rxChannel.next + BOP;
        }
      }
      AlwaysRaised(RegsOf(rxChannel));
      EnetInterrupt(rxChannel);
    }

    /** dma_enet_write_memory; a misaligned channel aborts. */
    method WriteFrame(eop: bool)
      requires Valid() && rx.size > 0
      requires rxChannel.csr.enable ==> WholeBursts(rxChannel.next) && WholeBursts(rxChannel.limit)
      modifies rxChannel`next, rxChannel`limit, rxChannel`csr, rxChannel`interrupt, rx`size, mem`bytes, this`pending
      ensures Valid() && Now() == StoreF(old(Now()), eop)
    {
      hide Overwrite, Dma.Stored, WholeBursts, Device.Rest, Device.Filled, BytesBefore, EnetSettle, Trimmed, OpenBytes,
           ByteOk, Put;
      if !rxChannel.csr.enable {
        return;
      }
      ghost var w0 := Now();
      var ok; ghost var w;
      ok, w := StoreFrame();
      ghost var goal := Least(|w0.rest|, Room(w0.rx.next, w0.rx.limit));
      BytesExactly(|w0.image|, w0.faults, w0.rx.next, goal, |w|);
      FirstPart(w, rx.Rest(), w0.rest);
      StoredIsPut(w0.image, mem.bytes, w0.rx.next, w);
      pending := pending.(chunks := pending.chunks + [Chunk(w0.rx.next, w0.rx.limit, w)]);
      FinishStore(ok, eop);
    }

    /** The receiver changes its state. */
    method Enter(s: Receiver, c: bool, b: bool)
      requires Valid()
      modifies this`busy, this`chain, this`state
      ensures Valid() && busy == b && Now() == old(Now()).(chain := c, state := s)
    {
      hide Device.Rest, Device.Filled;
      busy, chain, state := b, c, s;
    }

    /** The rest of a frame is lost. */
    method GiveUp()
      requires Valid()
      modifies this`busy, this`chain, this`state, rx`size
      ensures Valid() && BusyExactly() && Now() == old(Now()).(rest := [], chain := false, state := Waiting)
    {
      rx.size := 0;
      Enter(Waiting, false, false);
    }

    /** One round of the receiving state. */
    method Deliver(link: Link) returns (news: seq<EthernetModel.Event>)
      requires Valid() && BusyExactly() && rx.size > 0
      requires rxChannel.csr.enable ==> WholeBursts(rxChannel.next) && WholeBursts(rxChannel.limit)
      modifies this`state, this`busy, this`chain, this`pending, rx`size, rxChannel`next, rxChannel`limit, rxChannel`csr,
               rxChannel`interrupt, mem`bytes
      ensures Valid() && BusyExactly() && Now() == DeliverF(old(Now()), link).wire
              && news == DeliverF(old(Now()), link).news
    {
      hide WholeBursts, Device.Rest, Device.Filled, StoreF, Now, Valid;
      var before := rx.size;
      WriteFrame(chain && !turbo);
      if rx.size == before {
        news := [Overflow];
        GiveUp();
      } else if rx.size > 0 {
        news := [];
        Enter(state, !turbo, busy);
      } else {
        news := if link == Loopback then [PacketOk, Received] else [PacketOk];
        Enter(Waiting, false, false);
      }
    }

    /** The receiving half of enet_io and new_enet_io. */
    method ReceiveStep(input: Input) returns (ok: bool, news: seq<EthernetModel.Event>)
      requires Valid() && BusyExactly() && Fitting(input.arrivals)
      modifies this`state, this`busy, this`chain, this`pending, rx`size, rx`limit, rx.data, rxChannel`next,
               rxChannel`limit, rxChannel`csr, rxChannel`interrupt, mem`bytes
      ensures Valid() && BusyExactly() && ok == ReceiveF(old(Now()), input).ok
      ensures ok ==> Now() == ReceiveF(old(Now()), input).wire && news == ReceiveF(old(Now()), input).news
    {
      hide WholeBursts, Device.Rest, Device.Filled, DeliverF, Accept, Now, Valid;
      ok, news := true, [];
      if state == Waiting {
        if rx.size == 0 {
          if (input.link == ThinWire || input.link == TwistedPair) && input.arrivals != [] && input.accept {
            assert input.arrivals[0] in input.arrivals;
            Receive(input.arrivals[0]);
          }
          return;
        }
        if rx.size < FRAME_MIN && !input.short {
          news := [ShortPacket];
          GiveUp();
          return;
        }
      }
      if rx.size > 0 {
        if rxChannel.csr.enable && !(WholeBursts(rxChannel.next) && WholeBursts(rxChannel.limit)) {
          return false, [];
        }
        Enter(Receiving, chain && state == Receiving, busy);
        news := Deliver(input.link);
      }
    }

    method FetchByte() returns (ok: bool, ghost v: seq<Byte>)
      requires Valid() && tx.size < tx.limit
      modifies txChannel`next, tx`size, tx.data
      ensures Valid() && |v| == (if ok then 1 else 0) && tx.Filled() == old(tx.Filled()) + v
      ensures Fetched(mem.bytes, old(txChannel.next), v) && txChannel.next == old(txChannel.next) + |v|
      ensures ok == ByteOk(|mem.bytes|, mem.faults, old(txChannel.next))
    {
      var b;
      v := [];
      ok, b := mem.GetByte(txChannel.next);
      if ok {
        tx.data[tx.size] := b;
        tx.size := tx.size + 1;
        txChannel.next := txChannel.next + 1;
        v := [b];
      }
    }

    /** The loop of dma_enet_read_memory. */
    method FetchBytes(top: nat) returns (ok: bool, ghost w: seq<Byte>)
      requires Valid()
      modifies txChannel`next, tx`size, tx.data
      ensures Valid() && tx.Filled() == old(tx.Filled()) + w && Fetched(mem.bytes, old(txChannel.next), w)
      ensures txChannel.next == old(txChannel.next) + |w| && (w != [] ==> txChannel.next <= top)
      ensures OpenBytes(|mem.bytes|, mem.faults, old(txChannel.next), |w|)
      ensures if ok then txChannel.next >= top || tx.size == tx.limit
              else txChannel.next < top && tx.size < tx.limit && !ByteOk(|mem.bytes|, mem.faults, txChannel.next)
    {
      hide Fetched, ByteOk, Device.Filled;
      ghost var lo := txChannel.next;
      ok, w := true, [];
      FetchedNothing(mem.bytes, lo);
      Ends(tx.Filled());
      while ok && txChannel.next < top && tx.size < tx.limit
        invariant Valid() && tx.Filled() == old(tx.Filled()) + w
        invariant Fetched(mem.bytes, lo, w) && txChannel.next == lo + |w| && (w != [] ==> txChannel.next <= top)
        invariant OpenBytes(|mem.bytes|, mem.faults, lo, |w|)
        invariant !ok ==> txChannel.next < top && tx.size < tx.limit && !ByteOk(|mem.bytes|, mem.faults, txChannel.next)
        decreases tx.limit - tx.size, ok
      {
        ghost var v;
        ghost var had := tx.size;
        ok, v := FetchByte();
        FetchedNext(mem.bytes, lo, w, v);
        Associate(old(tx.Filled()), w, v);
        w := w + v;
      }
    }

    /** dma_enet_read_memory. */
    method FetchPacket() returns (done: bool)
      requires Valid()
      modifies txChannel`next, txChannel`limit, txChannel`csr, txChannel`interrupt, tx`size, tx.data
      ensures Valid() && done == LastBuffer(old(Now())) && Now() == FetchF(old(Now()))
    {
      hide Fetched, ByteOk, OpenBytes, BytesBefore, EnetSettle, Device.Rest, Device.Filled, Address, Peek;
      if !txChannel.csr.enable {
        return false;
      }
      ghost var w0 := Now();
      done := txChannel.limit / EOP % 2 == 1;
      var ok; ghost var w;
      ok, w := FetchBytes(Address(txChannel.limit));
      ghost var goal := Least(Room(w0.txr.next, Address(w0.txr.limit)), BUFFER_SIZE - |w0.tx|);
      BytesExactly(|w0.image|, w0.faults, w0.txr.next, goal, |w|);
      FetchedIsPeek(w0.image, w0.txr.next, w);
      if !ok {
        txChannel.csr := txChannel.csr.(enable := false, complete := true, busexc := true);
      }
      AlwaysRaised(RegsOf(txChannel));
      EnetInterrupt(txChannel);
    }

    /** The outgoing packet gets shorter. */
    method Shorten(n: nat)
      requires Valid() && n <= tx.size
      modifies tx`size
      ensures Valid() && Now() == old(Now()).(tx := old(tx.Filled())[..n]) && tx.Filled() == old(tx.Filled())[..n]
    {
      hide Device.Rest;
      tx.size := n;
      assert tx.Filled() == old(tx.Filled())[..n];
    }

    /** enet_send and the clearing of the buffer: on a looped or thin wire the chip hears its own
        packet.  A frame that does not fit the buffer is outside the model and stops it. */
    method Send(input: Input) returns (ok: bool)
      requires Valid() && BusyExactly() && rx.size == 0
      modifies this`busy, this`pending, rx`size, rx`limit, rx.data, tx`size
      ensures Valid() && BusyExactly() && ok == SendF(old(Now()), old(tx.Filled()), input).ok
      ensures ok ==> Now() == SendF(old(Now()), old(tx.Filled()), input).wire
    {
      hide Now, Accept, Device.Rest, Device.Filled;
      ok := true;
      var packet := Outgoing();
      if (input.link == Loopback || input.link == ThinWire) && input.acceptOwn {
        if FrameLength(|packet|) > BUFFER_SIZE {
          return false;
        }
        Shorten(0);
        Receive(packet);
      } else {
        Shorten(0);
      }
    }

    /** The bytes collected for sending. */
    method Outgoing() returns (packet: Packet)
      requires Valid()
      ensures packet == tx.Filled()
    {
      packet := tx.data[..tx.size];
    }

    /** The transmitting half. */
    method TransmitStep(input: Input) returns (ok: bool, news: seq<EthernetModel.Event>)
      requires Valid() && BusyExactly()
      modifies this`busy, this`pending, rx`size, rx`limit, rx.data, txChannel`next, txChannel`limit, txChannel`csr,
               txChannel`interrupt, tx`size, tx.data
      ensures Valid() && BusyExactly() && ok == TransmitF(old(Now()), input).ok
      ensures ok ==> Now() == TransmitF(old(Now()), input).wire && news == TransmitF(old(Now()), input).news
    {
      hide Now, Valid, Accept, Device.Rest, Device.Filled, FetchF, LastBuffer, SendF;
      ok, news := true, [];
      if !input.transmit || busy {
        return;
      }
      var before := tx.size;
      var done := FetchPacket();
      if turbo {
        ok, news := SendTurbo(input);
      } else {
        ok, news := SendOld(input, done, before);
      }
    }

    /** The newer chip sends whatever was fetched. */
    method SendTurbo(input: Input) returns (ok: bool, news: seq<EthernetModel.Event>)
      requires Valid() && BusyExactly() && rx.size == 0
      modifies this`busy, this`pending, rx`size, rx`limit, rx.data, tx`size
      ensures Valid() && BusyExactly()
      ensures var w := old(Now());
              if w.tx == [] then ok && news == [] && Now() == w
              else if input.link == Disconnected then ok && news == [Collisions, Sent] && Now() == w.(tx := [])
              else news == [Sent] && ok == SendF(w, w.tx, input).ok && (ok ==> Now() == SendF(w, w.tx, input).wire)
    {
      hide Now, Valid, Device.Rest, SendF;
      ok, news := true, [];
      if tx.size > 0 {
        if input.link == Disconnected {
          news := [Collisions, Sent];
          Shorten(0);
        } else {
          ok := Send(input);
          news := [Sent];
        }
      }
    }

    /** The older chip waits for the end of the packet, and sends fifteen bytes less. */
    method SendOld(input: Input, done: bool, before: nat) returns (ok: bool, news: seq<EthernetModel.Event>)
      requires Valid() && BusyExactly() && rx.size == 0
      modifies this`busy, this`pending, rx`size, rx`limit, rx.data, tx`size
      ensures Valid() && BusyExactly()
      ensures var f := old(Now());
              if f.tx != [] && |f.tx| == before && !done then ok && news == [Underflow] && Now() == f.(tx := [])
              else if f.tx != [] && input.link == Disconnected then ok && news == [Collisions] && Now() == f.(tx := [])
              else if 0 < |f.tx| <= 15 then ok && news == [] && Now() == if done then f.(tx := []) else f
              else news == [] && if done
                then ok == SendF(f, EthernetModel.Outgoing(false, f.tx), input).ok
                     && (ok ==> Now() == SendF(f, EthernetModel.Outgoing(false, f.tx), input).wire)
                else ok && Now() == f.(tx := EthernetModel.Outgoing(false, f.tx))
    {
      hide Now, Valid, Device.Rest, Accept;
      ok, news := true, [];
      var send := done;
      if tx.size > 0 {
        if tx.size == before && !done {
          news := [Underflow];
          Shorten(0);
        } else if input.link == Disconnected {
          news := [Collisions];
          Shorten(0);
          send := false;
        } else if tx.size > 15 {
          Shorten(tx.size - 15);
        } else if done {
          Shorten(0);
          send := false;
        }
      }
      if send {
        ok := Send(input);
      }
    }

    /** One call of the periodic handler out of reset; it stops where the program would. */
    method Step(input: Input) returns (ok: bool)
      requires Valid() && BusyExactly() && Fitting(input.arrivals)
      modifies this, rx, tx, rx.data, tx.data, rxChannel, txChannel, mem`bytes
      ensures Valid() && BusyExactly() && ok == StepF(old(Now()), input).ok
      ensures ok ==> Now() == StepF(old(Now()), input).wire && events == old(events) + StepF(old(Now()), input).news
    {
      hide Now, Valid, ReceiveF, TransmitF;
      var news, sent;
      ok, news := ReceiveStep(input);
      if ok {
        ok, sent := TransmitStep(input);
        Record(news + sent);
      }
    }

    /** The processor writes the registers of a channel. */
    method Reprogram(receive: bool, regs: Regs)
      requires Valid()
      modifies rxChannel`next, rxChannel`limit, rxChannel`start, rxChannel`stop, rxChannel`csr, rxChannel`interrupt,
               txChannel`next, txChannel`limit, txChannel`start, txChannel`stop, txChannel`csr, txChannel`interrupt
      ensures Valid() && Now() == if receive then old(Now()).(rx := regs) else old(Now()).(txr := regs)
    {
      hide Device.Rest, Device.Filled;
      if receive {
        rxChannel.next, rxChannel.limit, rxChannel.start, rxChannel.stop := regs.next, regs.limit, regs.start,
            regs.stop;
        rxChannel.csr, rxChannel.interrupt := regs.csr, regs.line;
      } else {
        txChannel.next, txChannel.limit, txChannel.start, txChannel.stop := regs.next, regs.limit, regs.start,
            regs.stop;
        txChannel.csr, txChannel.interrupt := regs.csr, regs.line;
      }
    }

    /** Any run from a hard reset, with the processor programming the DMA channels in between, is the
        abstract run, whose books balance: every reported packet is in memory, whole and in order. */
    method Run(script: seq<Action>) returns (ok: bool)
      requires Valid() && Proper(script)
      modifies this, rx, tx, rx.data, tx.data, rxChannel, txChannel, mem`bytes
      ensures Valid() && BusyExactly() && Sized(old(Now()).(rest := [], tx := []))
      ensures var w := old(Now()).(rest := [], tx := []); Booked(w, RunF(w, script)) && ok == RunF(w, script).ok
      ensures var r := RunF(old(Now()).(rest := [], tx := []), script);
              ok ==> Now() == r.wire && events == old(events) + r.news
    {
      hide Now, Valid, StepF, Booked;
      ghost var w := Now().(rest := [], tx := []);
      HardReset();
      RunBooked(w, script);
      ok := true;
      var i := 0;
      NoNews(events);
      while i < |script|
        invariant 0 <= i <= |script| && Valid() && BusyExactly()
        invariant Proper(script[..i]) && ok == RunF(w, script[..i]).ok
        invariant ok ==> Now() == RunF(w, script[..i]).wire && events == old(events) + RunF(w, script[..i]).news
      {
        assert script[i] in script && script[..i + 1][..i] == script[..i];
        ghost var r := RunF(w, script[..i]);
        if ok {
          match script[i] {
            case Tick(input) =>
              ok := Step(input);
              MoreNews(old(events), r.news, StepF(r.wire, input).news);
            case Program(receive, regs) =>
              Reprogram(receive, regs);
          }
        }
        i := i + 1;
      }
      assert script[..i] == script;
    }

    method Record(news: seq<EthernetModel.Event>)
      requires Valid()
      modifies this`events
      ensures Valid() && events == old(events) + news && Now() == old(Now()) && BusyExactly() == old(BusyExactly())
    {
      hide Device.Rest, Device.Filled;
      events := events + news;
    }
  }

  lemma NoNews(events: seq<EthernetModel.Event>)
    ensures events + [] == events
  {
  }

  lemma MoreNews(a: seq<EthernetModel.Event>, b: seq<EthernetModel.Event>, c: seq<EthernetModel.Event>)
    ensures (a + b) + c == a + (b + c)
  {
  }

  lemma FetchedIsPeek(image: seq<Byte>, addr: nat, w: seq<Byte>)
    requires Fetched(image, addr, w)
    ensures w == Peek(image, addr, |w|)
  {
  }

  lemma FirstPart(w: seq<Byte>, rest: seq<Byte>, all: seq<Byte>)
    requires w + rest == all
    ensures all[..|w|] == w && all[|w|..] == rest && |all| == |w| + |rest|
  {
  }
}
