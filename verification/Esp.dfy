/** The transfer counter and the FIFO of the SCSI controller in esp.c, on top of the target. */
module Esp {
  import opened Bytes
  import opened Scsi

  const FIFO_SIZE: nat := 16

  datatype IoState = Transferring | Flushing | Inactive

  class Controller {
    const target: Target
    const fifo: array<Byte>
    var flags: nat
    var counter: nat
    /** Transfers go through the DMA channel rather than through the FIFO register. */
    var dma: bool
    var io: IoState
    var transferCount: bool
    var grossError: bool
    /** The count the current command started with, and the bytes exchanged with the target since. */
    ghost var loaded: nat
    ghost var exchanged: nat
    /** The WRITE in progress, the bytes given to the target since it began, and the blocks they
        make. */
    ghost var op: WriteOp
    ghost var given: seq<Byte>
    ghost var blocks: seq<Block>

    constructor (target: Target)
      requires target.Valid()
      ensures Valid() && Balanced() && this.target == target && flags == 0 && fresh(fifo)
    {
      this.target := target;
      fifo := new Byte[FIFO_SIZE](i => ZERO);
      flags, counter, dma, io, transferCount, grossError := 0, 0, false, Inactive, false, false;
      loaded, exchanged, op, given, blocks := 0, 0, WriteOp([], NoTable, 0, 0), [], [];
    }

    ghost predicate Valid()
      reads this, target
    {
      fifo.Length == FIFO_SIZE && flags <= FIFO_SIZE && fifo != target.data && target.Valid()
    }

    /** The loaded count is what is left plus what was exchanged. */
    ghost predicate Balanced()
      reads this
    {
      loaded == counter + exchanged
    }

    /** The target has taken the bytes given to it: complete blocks are on the disk, the rest is in
        its buffer. */
    ghost predicate InWrite()
      reads this, target, target.data
    {
      target.Taking(op, given, blocks)
    }

    ghost function Contents(): (s: seq<Byte>)
      reads this, fifo
      requires fifo.Length == FIFO_SIZE && flags <= FIFO_SIZE
      ensures |s| == flags
    {
      fifo[..flags]
    }

    /** The counter is loaded on every DMA command; zero means the maximum. */
    method LoadCounter(low: nat, high: nat)
      requires low < 256 && high < 256
      modifies this`counter, this`transferCount, this`loaded, this`exchanged
      ensures Balanced() && exchanged == 0 && 1 <= loaded <= 65536 && loaded % 65536 == high * 256 + low
              && !transferCount
    {
      counter := high * 256 + low;
      if counter == 0 {
        counter := 0x10000;
      }
      transferCount := false;
      loaded, exchanged := counter, 0;
    }

    /** The first branch of esp_fifo_read: the bytes move down by one. */
    method FifoRead() returns (v: Byte)
      requires fifo.Length == FIFO_SIZE && 0 < flags <= FIFO_SIZE
      modifies this`flags, fifo
      ensures flags == old(flags) - 1 && [v] + Contents() == old(Contents())
    {
      v := fifo[0];
      var i := 0;
      while i < FIFO_SIZE - 1
        invariant 0 <= i <= FIFO_SIZE - 1 && flags == old(flags)
        invariant forall k :: 0 <= k < FIFO_SIZE ==> fifo[k] == if k < i then old(fifo[k + 1]) else old(fifo[k])
      {
        fifo[i] := fifo[i + 1];
        i := i + 1;
      }
      fifo[FIFO_SIZE - 1] := ZERO;
      flags := flags - 1;
      assert forall k :: 0 <= k < flags ==> fifo[k] == old(fifo[k + 1]);
      assert [v] + Contents() == old(Contents());
    }

    /** esp_fifo_read: from the FIFO; or, if that is empty in the middle of a transfer without DMA,
        straight from the target; or nothing. */
    method ReadFifo() returns (v: Byte)
      requires Valid() && Balanced()
      modifies this`flags, this`counter, this`exchanged, this`transferCount, this`io, fifo, target`phase, target`size,
               target`limit, target`lba, target`counter, target`status, target`sense, target.data
      ensures Valid() && Balanced() && loaded == old(loaded)
      ensures old(flags) > 0 ==> [v] + Contents() == old(Contents()) && counter == old(counter) && io == old(io)
      ensures old(flags == 0 && Direct()) ==>
                flags == 0 && counter == old(counter) - 1 && exchanged == old(exchanged) + 1
                && io == (if counter == 0 || target.phase != DataIn then Inactive else Transferring)
                && [v] + target.Due() == old(target.Due())
      ensures old(flags == 0 && !Direct()) ==> v == ZERO && flags == 0 && counter == old(counter) && io == old(io)
    {
      hide Target.Due;
      v := ZERO;
      if flags > 0 {
        v := FifoRead();
      } else if io == Transferring && !dma && counter > 0 && target.phase == DataIn {
        v := TakeFromTarget();
        var done := TransferDone(true);
        if done {
          io := Inactive;
        }
      }
    }

    /** A byte can be taken directly from the target. */
    predicate Direct()
      reads this, target
    {
      io == Transferring && !dma && counter > 0 && target.phase == DataIn
    }

    /** esp_fifo_write: a full FIFO loses its top byte and reports a gross error. */
    method FifoWrite(v: Byte)
      requires fifo.Length == FIFO_SIZE && flags <= FIFO_SIZE
      modifies this`flags, this`grossError, fifo
      ensures flags == if old(flags) < FIFO_SIZE then old(flags) + 1 else FIFO_SIZE
      ensures old(flags) < FIFO_SIZE ==> Contents() == old(Contents()) + [v] && grossError == old(grossError)
      ensures old(flags) == FIFO_SIZE ==> Contents() == old(Contents())[..FIFO_SIZE - 1] + [v] && grossError
    {
      if flags == FIFO_SIZE {
        fifo[flags - 1] := v;
        grossError := true;
      } else {
        flags := flags + 1;
        fifo[flags - 1] := v;
      }
    }

    /** One byte from the target, counted. */
    method TakeFromTarget() returns (v: Byte)
      requires Valid() && Balanced() && counter > 0 && target.phase == DataIn
      modifies this`counter, this`exchanged, target`phase, target`size, target`limit, target`lba, target`counter,
               target`status, target`sense, target.data
      ensures Valid() && Balanced() && counter == old(counter) - 1 && exchanged == old(exchanged) + 1
      ensures target.phase == DataIn || target.phase == StatusPhase
      ensures [v] + target.Due() == old(target.Due()) && (target.Due() == [] <==> target.phase == StatusPhase)
    {
      v := target.SendData();
      counter := counter - 1;
      exchanged := exchanged + 1;
    }

    /** The target is given a WRITE. */
    method StartWrite(cdb: seq<nat>)
      requires Valid() && IsCdb(cdb)
      modifies this`op, this`given, this`blocks, target`phase, target`size, target`limit, target`lba, target`lastLba,
               target`counter, target`status, target`sense, target`disk
      ensures Valid() && given == [] && op == WriteOp(old(target.View()), old(target.shadow), Offset(cdb), Count(cdb))
      ensures !target.readonly ==> InWrite() && target.phase == if Count(cdb) > 0 then DataOut else StatusPhase
    {
      hide Offset, Count, Overlay, Uniform, Landed;
      op, given, blocks := WriteOp(target.View(), target.shadow, Offset(cdb), Count(cdb)), [], [];
      LandedNothing(op.view, op.l, op.table, target.protect);
      target.WriteSector(cdb);
      assert target.data[..0] == [] && Flat([]) + [] == [];
    }

    /** ESP_Receive_Data: one byte to the target, counted. */
    method GiveToTarget(v: Byte)
      requires Valid() && Balanced() && counter > 0 && target.phase == DataOut && InWrite()
      modifies this`counter, this`exchanged, this`given, this`blocks, target`image, target`shadow, target`phase,
               target`size, target`limit, target`lba, target`counter, target`status, target`sense, target.data
      ensures Valid() && Balanced() && counter == old(counter) - 1 && exchanged == old(exchanged) + 1
      ensures target.phase == DataOut || target.phase == StatusPhase
      ensures InWrite() && given == old(given) + [v] && (target.protect ==> target.image == old(target.image))
    {
      hide Overlay, Uniform, Landed, Flat;
      counter := counter - 1;
      blocks := target.Take(v, op, given, blocks);
      exchanged := exchanged + 1;
      given := given + [v];
    }

    predicate SendReady()
      reads this, target
    {
      (counter > 0 && target.phase == DataIn) || flags > 0
    }

    /** ESP_Send_Data: the FIFO first, then directly from the target. */
    method SendData() returns (v: Byte)
      requires Valid() && Balanced() && SendReady()
      modifies this`flags, this`counter, this`exchanged, fifo, target`phase, target`size, target`limit, target`lba,
               target`counter, target`status, target`sense, target.data
      ensures Valid() && Balanced() && counter <= old(counter)
      ensures old(flags) > 0 ==>
                [v] + Contents() == old(Contents()) && flags == old(flags) - 1 && counter == old(counter)
      ensures old(flags) > 0 ==> target.phase == old(target.phase) && target.Due() == old(target.Due())
      ensures old(flags) == 0 ==>
                flags == 0 && counter == old(counter) - 1 && (target.phase == DataIn || target.phase == StatusPhase)
      ensures old(flags) == 0 ==>
                [v] + target.Due() == old(target.Due()) && (target.Due() == [] <==> target.phase == StatusPhase)
    {
      if flags > 0 {
        v := FifoRead();
      } else {
        v := TakeFromTarget();
      }
    }

    /** esp_dma_write_memory without DMA: the FIFO is filled from the target. */
    method FillFifo()
      requires Valid() && Balanced() && target.phase == DataIn
      modifies this`flags, this`counter, this`exchanged, this`grossError, fifo, target`phase, target`size, target`limit,
               target`lba, target`counter, target`status, target`sense, target.data
      ensures Valid() && Balanced() && loaded == old(loaded) && grossError == old(grossError)
      ensures flags == FIFO_SIZE || counter == 0 || target.phase == StatusPhase
      ensures Contents() + target.Due() == old(Contents() + target.Due())
      ensures old(counter) - counter == flags - old(flags) == exchanged - old(exchanged) ==
                  |old(target.Due())| - |target.Due()| >= 0
    {
      hide Target.Due, Target.Shape;
      while flags < FIFO_SIZE && counter > 0 && target.phase == DataIn
        invariant Valid() && Balanced() && loaded == old(loaded) && grossError == old(grossError)
        invariant Contents() + target.Due() == old(Contents() + target.Due())
        invariant old(counter) - counter == flags - old(flags) == exchanged - old(exchanged) >= 0
        invariant target.phase == DataIn || target.phase == StatusPhase
      {
        ghost var had := Contents();
        var v := TakeFromTarget();
        Associate(had, [v], target.Due());
        FifoWrite(v);
      }
    }

    /** The first loop of esp_dma_read_memory: the FIFO is emptied into the target. */
    method EmptyFifo()
      requires Valid() && Balanced() && target.phase == DataOut && InWrite()
      modifies this`flags, this`counter, this`exchanged, this`given, this`blocks, fifo, target`image, target`shadow,
               target`phase, target`size, target`limit, target`lba, target`counter, target`status, target`sense,
               target.data
      ensures Valid() && Balanced() && loaded == old(loaded) && InWrite() && op == old(op)
      ensures old(counter) - counter == old(flags) - flags == |given| - |old(given)| == exchanged - old(exchanged) >= 0
      ensures flags == 0 || counter == 0 || target.phase == StatusPhase
      ensures given + Contents() == old(given + Contents())
    {
      hide Target.Taking, Target.Shape, Target.View;
      while flags > 0 && counter > 0 && target.phase == DataOut
        invariant Valid() && Balanced() && loaded == old(loaded) && InWrite()
        invariant old(counter) - counter == old(flags) - flags == |given| - |old(given)| ==
                      exchanged - old(exchanged) >= 0
        invariant target.phase == DataOut || target.phase == StatusPhase
        invariant given + Contents() == old(given + Contents())
      {
        var v := FifoRead();
        Associate(given, [v], Contents());
        GiveToTarget(v);
      }
    }

    predicate ReceiveReady()
      reads this, target
    {
      dma && counter > 0 && target.phase == DataOut
    }

    /** esp_transfer_done. */
    method TransferDone(write: bool) returns (done: bool)
      modifies this`transferCount
      ensures done == (counter == 0 || target.phase != (if write then DataIn else DataOut))
      ensures transferCount == (old(transferCount) || counter == 0)
    {
      if counter == 0 {
        transferCount := true;
        return true;
      }
      done := target.phase != if write then DataIn else DataOut;
    }

    /** esp_transfer_pad: bytes are thrown away or made up until the counter or the phase runs out. */
    method TransferPad() returns (done: bool)
      requires Valid() && Balanced() && (target.phase == DataIn || (target.phase == DataOut && InWrite()))
      modifies this`counter, this`exchanged, this`given, this`blocks, this`transferCount, target`image, target`shadow,
               target`phase, target`size, target`limit, target`lba, target`counter, target`status, target`sense,
               target.data
      ensures Valid() && Balanced() && done && loaded == old(loaded) && op == old(op)
      ensures counter == 0 || target.phase == StatusPhase
      ensures counter == 0 ==> transferCount
      ensures old(counter) - counter == exchanged - old(exchanged) >= 0
      ensures old(target.phase) == DataIn ==>
                target.Due() == After(old(target.Due()), old(counter)) && given == old(given)
                && exchanged - old(exchanged) == |old(target.Due())| - |target.Due()|
      ensures old(target.phase) == DataOut ==> InWrite() && given == old(given) + Zeros(exchanged - old(exchanged))
    {
      hide Target.Taking, Target.View, Target.Shape, Target.Due, Zeros, After, InWrite;
      if target.phase == DataIn {
        done := PadIn();
      } else {
        done := PadOut();
      }
    }

    method PadIn() returns (done: bool)
      requires Valid() && Balanced() && target.phase == DataIn
      modifies this`counter, this`exchanged, this`transferCount, target`phase, target`size, target`limit, target`lba,
               target`counter, target`status, target`sense, target.data
      ensures Valid() && Balanced() && done && loaded == old(loaded) && (counter == 0 || target.phase == StatusPhase)
              && (counter == 0 ==> transferCount)
      ensures old(counter) - counter == exchanged - old(exchanged) >= 0
      ensures target.Due() == After(old(target.Due()), old(counter))
              && exchanged - old(exchanged) == |old(target.Due())| - |target.Due()|
    {
      hide Target.Due, First, After, Target.View, Target.Shape;
      ghost var left := After(target.Due(), counter);
      while target.phase == DataIn && counter > 0
        invariant Valid() && Balanced() && loaded == old(loaded)
                  && old(counter) - counter == exchanged - old(exchanged) >= 0
        invariant target.phase == DataIn || target.phase == StatusPhase
        invariant After(target.Due(), counter) == left && (target.phase == StatusPhase ==> target.Due() == [])
        invariant exchanged - old(exchanged) == |old(target.Due())| - |target.Due()|
      {
        var v := TakeFromTarget();
        TakeFirst(v, target.Due(), counter);
      }
      AfterAll(target.Due(), counter);
      done := TransferDone(true);
    }

    method PadOut() returns (done: bool)
      requires Valid() && Balanced() && target.phase == DataOut && InWrite()
      modifies this`counter, this`exchanged, this`given, this`blocks, this`transferCount, target`image, target`shadow,
               target`phase, target`size, target`limit, target`lba, target`counter, target`status, target`sense,
               target.data
      ensures Valid() && Balanced() && done && loaded == old(loaded) && (counter == 0 || target.phase == StatusPhase)
              && (counter == 0 ==> transferCount)
      ensures old(counter) - counter == exchanged - old(exchanged) >= 0
      ensures InWrite() && op == old(op) && given == old(given) + Zeros(exchanged - old(exchanged))
    {
      hide Target.Taking, Target.View, Target.Shape, Zeros;
      NoZeros(given);
      while target.phase == DataOut && counter > 0
        invariant Valid() && Balanced() && loaded == old(loaded)
                  && old(counter) - counter == exchanged - old(exchanged) >= 0 && InWrite()
        invariant target.phase == DataOut || target.phase == StatusPhase
        invariant given == old(given) + Zeros(exchanged - old(exchanged))
      {
        OneZero(old(given), exchanged - old(exchanged));
        GiveToTarget(ZERO);
      }
      done := TransferDone(false);
    }

    /** The bytes on their way: those in the FIFO, then those due from the target, as many as the
        counter allows. */
    ghost function Pending(): (s: seq<Byte>)
      reads this, fifo, target, target.data
      requires Valid()
    {
      Contents() + First(target.Due(), counter)
    }

    /** What is due beyond the count. */
    ghost function Beyond(): (s: seq<Byte>)
      reads this, target, target.data
      requires Valid()
    {
      After(target.Due(), counter)
    }

    /** In the middle of a READ or of a reply: the target sends for as long as anything is due. */
    ghost predicate Live()
      reads this, target, target.data
      requires Valid()
    {
      (target.phase == DataIn || target.phase == StatusPhase)
      && (target.phase == StatusPhase ==> target.Due() == [])
    }

    /** ESP_Send_Data in the middle of a READ hands over the first pending byte. */
    method SendPending() returns (v: Byte)
      requires Valid() && Balanced() && Live() && SendReady()
      modifies this`flags, this`counter, this`exchanged, fifo, target`phase, target`size, target`limit, target`lba,
               target`counter, target`status, target`sense, target.data
      ensures Valid() && Balanced() && Live() && loaded == old(loaded) && [v] + Pending() == old(Pending())
      ensures counter + flags < old(counter + flags) && Beyond() == old(Beyond())
    {
      hide Target.Due, First, After, Contents;
      ghost var had, due, c := Contents(), target.Due(), counter;
      v := SendData();
      Onward([], v, had, due, c, Contents(), target.Due(), counter);
      assert [] + [v] == [v] && [] + (had + First(due, c)) == had + First(due, c);
    }

    lemma PendingGone()
      requires Valid() && Live() && !SendReady()
      ensures Pending() == []
    {
      hide Target.Due;
      Finished([], Contents(), target.Due(), counter);
    }

    /** When nothing is pending and nothing lies beyond the count, the target has sent everything. */
    lemma AllSent()
      requires Valid() && Live() && Pending() == [] && Beyond() == []
      ensures flags == 0 && target.phase == StatusPhase
    {
      assert |Contents()| == 0;
      Parts(target.Due(), counter);
    }

    /** The DMA channel takes bytes for as long as there are any: it gets exactly what was pending,
        in order.  Any transfer of a READ thus continues where the one before stopped. */
    method TransferIn() returns (bytes: seq<Byte>)
      requires Valid() && Balanced() && target.phase == DataIn
      modifies this`flags, this`counter, this`exchanged, fifo, target`phase, target`size, target`limit, target`lba,
               target`counter, target`status, target`sense, target.data
      ensures Valid() && Balanced() && flags == 0 && loaded == old(loaded)
      ensures bytes == old(Contents()) + First(old(target.Due()), old(counter))
      ensures target.Due() == After(old(target.Due()), old(counter))
      ensures counter == old(counter) - |First(old(target.Due()), old(counter))|
      ensures old(counter) - counter == exchanged - old(exchanged) == |old(target.Due())| - |target.Due()|
      ensures counter == 0 || target.phase == StatusPhase
      ensures (target.phase == DataIn || target.phase == StatusPhase)
              && (target.phase == StatusPhase ==> target.Due() == [])
    {
      hide Target.Due, First, After, Contents;
      bytes := [];
      ghost var all, left, n := Pending(), After(target.Due(), counter), counter - |First(target.Due(), counter)|;
      while SendReady()
        invariant Valid() && Balanced() && loaded == old(loaded)
                  && (target.phase == DataIn || target.phase == StatusPhase)
        invariant target.phase == StatusPhase ==> target.Due() == []
        invariant bytes + Pending() == all && After(target.Due(), counter) == left
                  && counter - |First(target.Due(), counter)| == n
        decreases counter + flags
      {
        ghost var had, due, c := Contents(), target.Due(), counter;
        var v := SendData();
        Onward(bytes, v, had, due, c, Contents(), target.Due(), counter);
        bytes := bytes + [v];
      }
      Finished(bytes, Contents(), target.Due(), counter);
      Parts(old(target.Due()), old(counter));
    }

    /** A READ fetched by any series of DMA transfer commands, each with its own count: together they
        bring the blocks in order, and all of them once the target is in the status phase. */
    method ReadByTransfers(cdb: seq<nat>, counts: seq<(nat, nat)>) returns (bytes: seq<Byte>)
      requires Valid() && flags == 0 && IsCdb(cdb) && forall c <- counts :: c.0 < 256 && c.1 < 256
      modifies this`flags, this`counter, this`exchanged, this`loaded, this`transferCount, fifo, target`phase,
               target`size, target`limit, target`lba, target`lastLba, target`counter, target`status, target`sense,
               target`disk, target.data
      ensures Valid() && flags == 0
      ensures bytes + target.Due() == Stream(target.View(), Offset(cdb), Count(cdb))
      ensures target.phase == StatusPhase ==> bytes == Stream(target.View(), Offset(cdb), Count(cdb))
    {
      hide Target.Due, Overlay, Stream, Offset, Count, First, After, Target.Shape;
      target.ReadSector(cdb);
      ghost var all := target.Due();
      bytes := [];
      NoBytes(all);
      var i := 0;
      while i < |counts|
        invariant 0 <= i <= |counts| && Valid() && flags == 0 && target.disk && bytes + target.Due() == all
        invariant target.phase == DataIn || target.phase == StatusPhase
        invariant target.phase == StatusPhase ==> target.Due() == []
      {
        if target.phase == DataIn {
          ghost var due := target.Due();
          LoadCounter(counts[i].0, counts[i].1);
          Parts(due, counter);
          var more := TransferIn();
          NoBytes(more);
          Associate(bytes, more, target.Due());
          bytes := bytes + more;
        }
        i := i + 1;
      }
      NoBytes(bytes);
    }
  }

  lemma Parts(s: seq<Byte>, n: nat)
    ensures First(s, n) + After(s, n) == s && [] + First(s, n) == First(s, n)
  {
  }

  lemma NoBytes(s: seq<Byte>)
    ensures [] + s == s == s + []
  {
  }

  /** Taking v from the FIFO or, when that is empty, from what is due. */
  lemma Onward(bytes: seq<Byte>, v: Byte, had: seq<Byte>, due: seq<Byte>, c: nat, has: seq<Byte>, due': seq<Byte>,
               c': nat)
    requires if had != [] then [v] + has == had && due' == due && c' == c
             else has == [] && [v] + due' == due && c' == c - 1
    ensures (bytes + [v]) + (has + First(due', c')) == bytes + (had + First(due, c))
    ensures After(due', c') == After(due, c) && c' - |First(due', c')| == c - |First(due, c)|
  {
    if had == [] {
      TakeFirst(v, due', c');
      assert had + First(due, c) == First(due, c) && has + First(due', c') == First(due', c');
      Associate(bytes, [v], First(due', c'));
    } else {
      Associate(bytes, [v], has + First(due, c));
      Associate([v], has, First(due, c));
    }
  }

  lemma TakeFirst(v: Byte, s: seq<Byte>, n: nat)
    ensures First([v] + s, n + 1) == [v] + First(s, n) && After([v] + s, n + 1) == After(s, n)
  {
  }

  lemma Finished(bytes: seq<Byte>, has: seq<Byte>, due: seq<Byte>, c: nat)
    requires has == [] && (c == 0 || due == [])
    ensures bytes + (has + First(due, c)) == bytes && After(due, c) == due && First(due, c) == []
  {
  }

  /** The first n bytes, or all there are. */
  function First(s: seq<Byte>, n: nat): (r: seq<Byte>)
  {
    if n <= |s| then s[..n] else s
  }

  function After(s: seq<Byte>, n: nat): (r: seq<Byte>)
  {
    if n <= |s| then s[n..] else []
  }

  function Zeros(n: nat): (s: seq<Byte>)
  {
    seq(n, i => ZERO)
  }

  lemma NoZeros(s: seq<Byte>)
    ensures s + Zeros(0) == s
  {
  }

  lemma OneZero(s: seq<Byte>, n: nat)
    ensures s + Zeros(n) + [ZERO] == s + Zeros(n + 1)
  {
    assert Zeros(n) + [ZERO] == Zeros(n + 1);
  }

  lemma AfterAll(s: seq<Byte>, n: nat)
    ensures n == 0 || s == [] ==> After(s, n) == s
  {
  }
}
