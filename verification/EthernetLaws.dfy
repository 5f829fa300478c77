/** What becomes of a packet at the ethernet chip: when a received frame is reported and when it is lost,
    and what a packet consists of that is sent. */
module EthernetLaws {
  import opened Bytes
  import opened Dma
  import opened DmaModel
  import opened DmaRuns
  import opened EthernetModel

  lemma {:induction false} AllBytes(len: nat, faults: iset<nat>, lo: nat, n: nat)
    requires n == 0 || lo + n <= len
    requires forall a :: lo <= a < lo + n ==> a !in faults
    ensures BytesBefore(len, faults, lo, n) == n
    decreases n
  {
    if n > 0 {
      assert lo !in faults;
      AllBytes(len, faults, lo + 1, n - 1);
    }
  }

  lemma SomeBytes(len: nat, faults: iset<nat>, lo: nat, n: nat)
    requires n > 0
    ensures BytesBefore(len, faults, lo, n) > 0 <==> lo < len && lo !in faults
  {
  }

  /** A packet is heard as a frame of its length and a checksum, but of 64 bytes at least. */
  lemma FrameHeard(w: Wire, packet: Packet)
    requires |w.buffer| == BUFFER_SIZE && (if |packet| + 4 < 64 then 64 else |packet| + 4) <= BUFFER_SIZE
    ensures FrameLength(|packet|) <= BUFFER_SIZE
    ensures var t := Accept(w, packet);
            |t.rest| == (if |packet| + 4 < 64 then 64 else |packet| + 4) && t.rest[..|packet|] == packet
  {
  }

  /** A frame is lost in a step exactly if it waits, has less than 64 bytes and short packets are off, or if
      not even one byte of it can be stored: the channel is disabled or at its limit, or the access faults. */
  lemma LostIff(w: Wire, i: Input)
    requires Sized(w) && Fitting(i.arrivals) && w.rest != []
    ensures var t := ReceiveF(w, i);
            t.ok ==>
              (t.fates == [(w.pending.packet, Lost)] <==>
               (w.state == Waiting && |w.rest| < 64 && !i.short)
               || !(w.rx.csr.enable && w.rx.next < w.rx.limit && w.rx.next < |w.image| && w.rx.next !in w.faults))
  {
    hide EnetSettle, Trimmed, Broken, Put, BytesBefore;
    if w.rx.next < w.rx.limit {
      SomeBytes(|w.image|, w.faults, w.rx.next, Least(|w.rest|, w.rx.limit - w.rx.next));
    }
  }

  /** dma_enet_interrupt always completes, and goes on with the chained buffer if there is one. */
  lemma ChainsOn(r: Regs)
    ensures var t := EnetSettle(r);
            && t.csr.complete && t.line && t.start == r.start && t.stop == r.stop && t.csr.busexc == r.csr.busexc
            && (r.csr.supdate ==>
                  t.next == r.start && t.limit == r.stop && t.csr.enable == r.csr.enable && !t.csr.supdate)
            && (!r.csr.supdate ==> t.next == r.next && t.limit == r.limit && !t.csr.enable && !t.csr.supdate)
  {
  }

  /** A buffer of memory that can be filled. */
  ghost predicate Roomy(w: Wire)
  {
    && w.rx.csr.enable && w.rx.next % 16 == 0 && w.rx.limit % 16 == 0 && w.rx.next < w.rx.limit <= |w.image|
    && forall a :: w.rx.next <= a < w.rx.limit ==> a !in w.faults
  }

  /** The frame goes into the buffer as far as it fits. */
  lemma Stores(w: Wire, eop: bool)
    requires Roomy(w) && w.rest != []
    ensures var s, room := StoreF(w, eop), w.rx.limit - w.rx.next;
            && s.rest == (if |w.rest| <= room then [] else w.rest[room..])
            && s.image == Put(w.image, w.rx.next, if |w.rest| <= room then w.rest else w.rest[..room])
            && s.state == w.state && s.faults == w.faults && s.pending.packet == w.pending.packet
            && s.rx.start == w.rx.start && s.rx.stop == w.rx.stop && s.rx.csr.complete && s.rx.line
            && (if w.rx.csr.supdate
                then s.rx.next == w.rx.start && s.rx.limit == w.rx.stop && s.rx.csr.enable && !s.rx.csr.supdate
                else !s.rx.csr.enable && s.rx.limit == w.rx.limit)
  {
    hide Trimmed, Broken, Put, BytesBefore, EnetSettle;
    var n := Least(|w.rest|, w.rx.limit - w.rx.next);
    AllBytes(|w.image|, w.faults, w.rx.next, n);
    var moved := w.rx.(next := w.rx.next + n);
    ChainsOn(moved);
    ChainsOn(moved.(next := Trimmed(moved.next, moved.limit, w.turbo, moved.csr.supdate, eop)));
    assert w.rest[|w.rest|..] == [] && w.rest[..|w.rest|] == w.rest;
  }

  /** With an enabled, aligned and faultless buffer the frame goes on: it is reported if what is left of it
      fits, and otherwise the buffer is filled; nothing is lost.  The channel completes, and goes on with
      the chained buffer if there is one. */
  lemma Received(w: Wire, i: Input)
    requires Sized(w) && Fitting(i.arrivals) && w.rest != [] && (w.state == Receiving || |w.rest| >= 64)
    requires w.rx.csr.enable && w.rx.next % 16 == 0 && w.rx.limit % 16 == 0 && w.rx.next < w.rx.limit <= |w.image|
    requires forall a :: w.rx.next <= a < w.rx.limit ==> a !in w.faults
    ensures var t, room := ReceiveF(w, i), w.rx.limit - w.rx.next;
            && t.ok && t.accepted == []
            && (|w.rest| <= room ==>
                  && t.fates == [(w.pending.packet, Stored)] && t.wire.rest == [] && PacketOk in t.news
                  && |t.deliveries| == 1 && t.deliveries[0].pending.packet == w.pending.packet)
            && (|w.rest| > room ==>
                  && t.fates == [] && t.deliveries == [] && t.news == [] && t.wire.rest == w.rest[room..]
                  && t.wire.state == Receiving && t.wire.pending.packet == w.pending.packet)
            && t.wire.image == Put(w.image, w.rx.next, if |w.rest| <= room then w.rest else w.rest[..room])
            && t.wire.faults == w.faults && t.wire.rx.csr.complete && t.wire.rx.line
            && (if w.rx.csr.supdate
                then t.wire.rx.next == w.rx.start && t.wire.rx.limit == w.rx.stop && t.wire.rx.csr.enable
                     && !t.wire.rx.csr.supdate
                else !t.wire.rx.csr.enable && t.wire.rx.limit == w.rx.limit)
  {
    hide StoreF, Put;
    var v := w.(state := Receiving, chain := w.chain && w.state == Receiving);
    Stores(v, v.chain && !v.turbo);
  }

  /** Where the pointer of an unchained channel stands after a frame: behind its last byte; marked if the
      frame ended in a further buffer of the older chip; and at a burst boundary on the newer one. */
  lemma Pointer(w: Wire, i: Input)
    requires Sized(w) && Fitting(i.arrivals) && w.rest != [] && (w.state == Receiving || |w.rest| >= 64)
    requires w.rx.csr.enable && !w.rx.csr.supdate && w.rx.next % 16 == 0 && w.rx.limit % 16 == 0
    requires w.rx.next + |w.rest| <= w.rx.limit <= |w.image| && w.rx.limit < 0x40000000
    requires forall a :: w.rx.next <= a < w.rx.limit ==> a !in w.faults
    ensures var next, end := ReceiveF(w, i).wire.rx.next, w.rx.next + |w.rest|;
            && (!w.turbo && !(w.state == Receiving && w.chain) ==> next == end)
            && (!w.turbo && w.state == Receiving && w.chain ==> next == end + 0x40000000)
            && (w.turbo ==> next == if end < w.rx.limit then end - end % 16 + 16 else end)
  {
    hide Put, BytesBefore, EnetSettle;
    var n := |w.rest|;
    AllBytes(|w.image|, w.faults, w.rx.next, n);
    var moved := w.rx.(next := w.rx.next + n);
    ChainsOn(moved);
    ChainsOn(moved.(next := Trimmed(moved.next, moved.limit, w.turbo, false, w.chain && w.state == Receiving
                                    && !w.turbo)));
    assert w.rest[|w.rest|..] == [];
  }

  // ----- over whole runs

  /** Memory offered to the receiver in the steps of a run. */
  function Offered(w: Wire, script: seq<Action>): (n: nat)
    requires Sized(w) && EthernetModel.Proper(script)
  {
    if script == [] then 0
    else
      var front, a := script[..|script| - 1], script[|script| - 1];
      var v := RunF(w, front).wire;
      Offered(w, front) + if a.Tick? && v.rx.next < v.rx.limit then v.rx.limit - v.rx.next else 0
  }

  /** Until a first packet has met its fate, every step finds a buffer of memory that can be filled. */
  ghost predicate Provided(w: Wire, script: seq<Action>)
    requires Sized(w) && EthernetModel.Proper(script)
  {
    forall j :: 0 <= j < |script| && script[j].Tick? && RunF(w, script[..j]).fates == [] ==>
      Roomy(RunF(w, script[..j]).wire)
  }

  /** A pending frame is reported as soon as its buffers, chained or programmed in between, have room for it,
      and in no step before. */
  lemma {:induction false} DeliveredInTime(w: Wire, script: seq<Action>)
    requires Sized(w) && EthernetModel.Proper(script) && w.rest != [] && (w.state == Receiving || |w.rest| >= 64)
    requires Provided(w, script)
    ensures var r := RunF(w, script);
            if Offered(w, script) < |w.rest|
            then r.ok && r.fates == [] && r.deliveries == [] && PacketOk !in r.news && r.accepted == []
                 && |r.wire.rest| == |w.rest| - Offered(w, script) && r.wire.pending.packet == w.pending.packet
                 && (r.wire.state == Receiving || |r.wire.rest| >= 64)
            else r.fates != [] && r.fates[0] == (w.pending.packet, Stored) && PacketOk in r.news
                 && r.deliveries != [] && r.deliveries[0].pending.packet == w.pending.packet
  {
    hide StepF, Roomy;
    if script != [] {
      var n := |script| - 1;
      var front, a := script[..n], script[n];
      FrontProvided(w, script);
      DeliveredInTime(w, front);
      var r := RunF(w, front);
      if Offered(w, front) < |w.rest| && a.Tick? {
        assert a in script;
        StepReceived(r.wire, a.input);
      }
    }
  }

  lemma FrontProvided(w: Wire, script: seq<Action>)
    requires Sized(w) && EthernetModel.Proper(script) && Provided(w, script) && script != []
    ensures EthernetModel.Proper(script[..|script| - 1]) && Provided(w, script[..|script| - 1])
  {
    hide RunF, Roomy;
    var front := script[..|script| - 1];
    forall j | 0 <= j < |front| && front[j].Tick? && RunF(w, front[..j]).fates == []
      ensures Roomy(RunF(w, front[..j]).wire)
    {
      assert front[..j] == script[..j] && front[j] == script[j];
    }
  }

  /** A step with such a buffer. */
  lemma StepReceived(w: Wire, i: Input)
    requires Sized(w) && Fitting(i.arrivals) && w.rest != [] && (w.state == Receiving || |w.rest| >= 64) && Roomy(w)
    ensures var t, room := StepF(w, i), w.rx.limit - w.rx.next;
            && room > 0
            && if |w.rest| <= room
               then t.fates == [(w.pending.packet, Stored)] && PacketOk in t.news
                    && |t.deliveries| == 1 && t.deliveries[0].pending.packet == w.pending.packet
               else t.ok && t.fates == [] && t.deliveries == [] && PacketOk !in t.news && t.accepted == []
                    && |t.wire.rest| == |w.rest| - room && t.wire.pending.packet == w.pending.packet
                    && t.wire.state == Receiving
  {
    hide ReceiveF, TransmitF, Roomy;
    IsRoomy(w);
    Received(w, i);
    WhileBusy(ReceiveF(w, i).wire, i);
  }

  lemma IsRoomy(w: Wire)
    requires Roomy(w)
    ensures w.rx.csr.enable && w.rx.next % 16 == 0 && w.rx.limit % 16 == 0 && w.rx.next < w.rx.limit <= |w.image|
    ensures forall a :: w.rx.next <= a < w.rx.limit ==> a !in w.faults
  {
  }

  lemma WhileBusy(w: Wire, i: Input)
    requires Sized(w)
    ensures w.rest != [] ==> TransmitF(w, i) == Quiet(w)
    ensures PacketOk !in TransmitF(w, i).news
  {
    hide FetchF;
  }

  // ----- what is lost

  /** A frame that waits has its full length. */
  predicate Fresh(w: Wire)
  {
    w.rest != [] && w.state == Waiting ==> |w.rest| >= 64
  }

  lemma ReceiveFresh(w: Wire, i: Input)
    requires Sized(w) && Fitting(i.arrivals) && Fresh(w)
    ensures Fresh(ReceiveF(w, i).wire) && ShortPacket !in ReceiveF(w, i).news
  {
    hide StoreF;
    if w.rest != [] {
      StateStays(w.(state := Receiving, chain := w.chain && w.state == Receiving));
    }
  }

  lemma StateStays(w: Wire)
    ensures StoreF(w, w.chain && !w.turbo).state == w.state
  {
  }

  lemma TransmitFresh(w: Wire, i: Input)
    requires Sized(w) && Fresh(w)
    ensures Fresh(TransmitF(w, i).wire) && ShortPacket !in TransmitF(w, i).news
  {
    hide FetchF, Outgoing;
  }

  lemma StepFresh(w: Wire, i: Input)
    requires Sized(w) && Fitting(i.arrivals) && Fresh(w)
    ensures Fresh(StepF(w, i).wire) && ShortPacket !in StepF(w, i).news
  {
    hide ReceiveF, TransmitF, Fresh;
    ReceiveFresh(w, i);
    TransmitFresh(ReceiveF(w, i).wire, i);
  }

  /** Packets are never dropped as short: their frames have 64 bytes at least. */
  lemma {:induction false} NeverShort(w: Wire, script: seq<Action>)
    requires Sized(w) && EthernetModel.Proper(script) && (w.rest == [] || w.state == Receiving || |w.rest| >= 64)
    ensures Fresh(RunF(w, script).wire) && ShortPacket !in RunF(w, script).news
  {
    hide StepF;
    if script != [] {
      var r, a := RunF(w, script[..|script| - 1]), script[|script| - 1];
      NeverShort(w, script[..|script| - 1]);
      if r.ok && a.Tick? {
        assert a in script;
        StepFresh(r.wire, a.input);
      }
    }
  }

  /** The next byte of a pending frame can be stored. */
  predicate Storable(w: Wire)
  {
    w.rest != [] ==> w.rx.csr.enable && w.rx.next < w.rx.limit && w.rx.next < |w.image| && w.rx.next !in w.faults
  }

  lemma StepKeeps(w: Wire, i: Input)
    requires Sized(w) && Fitting(i.arrivals) && Fresh(w) && Storable(w)
    ensures (forall f <- StepF(w, i).fates :: f.1 == Stored) && Overflow !in StepF(w, i).news
  {
    hide ReceiveF, TransmitF, Storable, Fresh;
    ReceiveKeeps(w, i);
    NoOverflow(ReceiveF(w, i).wire, i);
  }

  lemma ReceiveKeeps(w: Wire, i: Input)
    requires Sized(w) && Fitting(i.arrivals) && Fresh(w) && Storable(w)
    ensures (forall f <- ReceiveF(w, i).fates :: f.1 == Stored) && Overflow !in ReceiveF(w, i).news
  {
    hide EnetSettle, Trimmed, Broken, Put, BytesBefore;
    if w.rest != [] {
      SomeBytes(|w.image|, w.faults, w.rx.next, Least(|w.rest|, Room(w.rx.next, w.rx.limit)));
    }
  }

  lemma NoOverflow(w: Wire, i: Input)
    requires Sized(w)
    ensures Overflow !in TransmitF(w, i).news
  {
    hide FetchF, Outgoing;
  }

  /** If in every step the next byte of the frame can be stored, no packet is lost. */
  lemma {:induction false} NothingLost(w: Wire, script: seq<Action>)
    requires Sized(w) && EthernetModel.Proper(script) && (w.rest == [] || w.state == Receiving || |w.rest| >= 64)
    requires forall j :: 0 <= j < |script| && script[j].Tick? ==> Storable(RunF(w, script[..j]).wire)
    ensures (forall f <- RunF(w, script).fates :: f.1 == Stored) && Overflow !in RunF(w, script).news
  {
    hide StepF, Storable;
    if script != [] {
      var n := |script| - 1;
      var r, a := RunF(w, script[..n]), script[n];
      assert forall j :: 0 <= j < n ==> script[..n][..j] == script[..j] && script[..n][j] == script[j];
      NothingLost(w, script[..n]);
      NeverShort(w, script[..n]);
      if r.ok && a.Tick? {
        assert a in script;
        StepKeeps(r.wire, a.input);
      }
    }
  }

  // ----- what is heard

  /** An idle, waiting chip takes the first packet of the queue that passes the filter, on a network. */
  lemma Arrival(w: Wire, i: Input)
    requires Sized(w) && Fitting(i.arrivals) && w.rest == []
    ensures ReceiveF(w, i).accepted ==
            if w.state == Waiting && (i.link == ThinWire || i.link == TwistedPair) && i.arrivals != [] && i.accept
            then [i.arrivals[0]] else []
  {
  }

  lemma StepDeaf(w: Wire, i: Input)
    requires Sized(w) && Fitting(i.arrivals) && w.rest == [] && w.state == Receiving && !i.acceptOwn
    ensures StepF(w, i).accepted == [] && StepF(w, i).wire.rest == [] && StepF(w, i).wire.state == Receiving
  {
  }

  /** A hard reset in the middle of a frame leaves the receiver in the receiving state without a frame; from
      then on no packet of the network is taken, until the chip hears one of its own. */
  lemma {:induction false} Deaf(w: Wire, script: seq<Action>)
    requires Sized(w) && EthernetModel.Proper(script) && w.rest == [] && w.state == Receiving
    requires forall a <- script :: a.Tick? ==> !a.input.acceptOwn
    ensures var r := RunF(w, script); r.accepted == [] && r.wire.rest == [] && r.wire.state == Receiving
  {
    hide StepF;
    if script != [] {
      var r, a := RunF(w, script[..|script| - 1]), script[|script| - 1];
      assert a in script;
      Deaf(w, script[..|script| - 1]);
      if r.ok && a.Tick? {
        StepDeaf(r.wire, a.input);
      }
    }
  }

  // ----- what is sent

  /** The bytes collected so far and those of a buffer from next up to the address in limit. */
  lemma Collected(w: Wire)
    requires Sized(w) && w.txr.csr.enable && w.txr.next <= w.txr.limit % 0x40000000 <= |w.image|
    requires |w.tx| + (w.txr.limit % 0x40000000 - w.txr.next) <= BUFFER_SIZE
    requires forall a :: w.txr.next <= a < w.txr.limit % 0x40000000 ==> a !in w.faults
    ensures FetchF(w).tx == w.tx + w.image[w.txr.next..w.txr.limit % 0x40000000]
    ensures if w.txr.csr.supdate
            then FetchF(w).txr.next == w.txr.start && FetchF(w).txr.limit == w.txr.stop && FetchF(w).txr.csr.enable
            else !FetchF(w).txr.csr.enable
  {
    hide EnetSettle, Broken, BytesBefore;
    var n := w.txr.limit % 0x40000000 - w.txr.next;
    AllBytes(|w.image|, w.faults, w.txr.next, n);
    ChainsOn(w.txr.(next := w.txr.next + n));
  }

  /** What the chip sends and hears of itself: the newer one the bytes of one buffer; the older one, with the
      buffer that carries the end mark, the collected bytes without the last fifteen. */
  lemma HeardOwn(w: Wire, i: Input)
    requires Sized(w) && w.rest == [] && i.transmit && i.acceptOwn && (i.link == Loopback || i.link == ThinWire)
    requires w.txr.csr.enable && w.txr.next <= w.txr.limit % 0x40000000 <= |w.image|
    requires |w.tx| + (w.txr.limit % 0x40000000 - w.txr.next) <= 65532
    requires forall a :: w.txr.next <= a < w.txr.limit % 0x40000000 ==> a !in w.faults
    ensures var t, s := TransmitF(w, i), w.tx + w.image[w.txr.next..w.txr.limit % 0x40000000];
            && t.ok
            && (w.turbo ==> t.accepted == if s == [] then [] else [s])
            && (!w.turbo ==>
                  t.accepted == if w.txr.limit / 0x80000000 % 2 == 1 && (|s| > 15 || s == [])
                                then [if s == [] then [] else s[..|s| - 15]] else [])
  {
    hide FetchF;
    Collected(w);
  }

  /** Nothing is sent while a frame is pending or the transmitter is off. */
  lemma Silent(w: Wire, i: Input)
    requires Sized(w) && (w.rest != [] || !i.transmit)
    ensures TransmitF(w, i) == Turn(w, [], [], [], [], true)
  {
  }
}
