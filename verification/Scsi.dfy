/** The block device of scsi.c: READ and WRITE, one byte at a time over the bus, with an in-memory
    overlay for write-protected images. */
module Scsi {
  import opened Bytes

  const MAX_BLOCK: nat := 2048

  type Block = seq<Byte>

  datatype Phase = DataOut | DataIn | Command | StatusPhase | MessageOut | MessageIn
  datatype Status = Good | CheckCondition
  datatype SenseKey = NoSense | IllegalRequest | DataProtect
  datatype SenseCode = NoCode | InvalidLba | WriteProtect
  datatype Sense = Sense(key: SenseKey, code: SenseCode, valid: bool, info: nat)

  /** The overlay: absent, or the blocks stored in it so far. */
  datatype Shadow = NoTable | Table(blocks: map<nat, Block>)

  // ----- command descriptor blocks

  /** The ten bytes of a command that are looked at. */
  predicate IsCdb(cdb: seq<nat>)
  {
    |cdb| == 10 && forall b <- cdb :: b < 256
  }

  /** SCSI_GetOffset: 21 bits in class 0, 32 bits in class 1. */
  function Offset(cdb: seq<nat>): (lba: nat)
    requires IsCdb(cdb)
  {
    if cdb[0] < 0x20 then cdb[1] % 32 * 65536 + cdb[2] * 256 + cdb[3]
    else cdb[2] * 16777216 + cdb[3] * 65536 + cdb[4] * 256 + cdb[5]
  }

  /** SCSI_GetCount: a class 0 count of zero means 256 blocks. */
  function Count(cdb: seq<nat>): (n: nat)
    requires IsCdb(cdb)
  {
    if cdb[0] < 0x20 then (if cdb[4] == 0 then 256 else cdb[4]) else cdb[7] * 256 + cdb[8]
  }

  /** The address and the number of blocks are what the initiator put into a class 0 command, highest
      byte first, 256 blocks being sent as zero; the logical unit above the address does not matter. */
  lemma ClassZero(cdb: seq<nat>, unit: nat, l: nat, n: nat)
    requires IsCdb(cdb) && cdb[0] < 0x20 && l < 0x200000 && 1 <= n <= 256
    requires cdb[1] == unit * 32 + l / 65536 && cdb[2] == l / 256 % 256 && cdb[3] == l % 256 && cdb[4] == n % 256
    ensures Offset(cdb) == l && Count(cdb) == n
  {
    Digits(l);
    LowDigit(unit, l / 65536);
  }

  /** A number and its last two bytes. */
  lemma Digits(l: nat)
    ensures l == l / 65536 * 65536 + l / 256 % 256 * 256 + l % 256
  {
    var q := l / 256;
    assert q / 256 == l / 65536 by {
      assert q == q / 256 * 256 + q % 256;
    }
  }

  lemma LowDigit(unit: nat, high: nat)
    requires high < 32
    ensures (unit * 32 + high) % 32 == high
  {
  }

  lemma HighDigits(l: nat)
    ensures l / 65536 == l / 0x1000000 * 256 + l / 65536 % 256
  {
    var q := l / 65536;
    assert q / 256 == l / 0x1000000 by {
      assert q == q / 256 * 256 + q % 256;
    }
  }

  /** And what it put into a class 1 command. */
  lemma ClassOne(cdb: seq<nat>, l: nat, n: nat)
    requires IsCdb(cdb) && cdb[0] >= 0x20 && l < 0x1_0000_0000 && n < 65536
    requires cdb[2] == l / 0x1000000 && cdb[3] == l / 65536 % 256 && cdb[4] == l / 256 % 256 && cdb[5] == l % 256
    requires cdb[7] == n / 256 && cdb[8] == n % 256
    ensures Offset(cdb) == l && Count(cdb) == n
  {
    Digits(l);
    HighDigits(l);
  }

  // ----- what a range of blocks holds

  /** The bytes of the blocks from l on, n of them or as many as there are. */
  function Stream(view: seq<Block>, l: nat, n: nat): (r: seq<Byte>)
    decreases n
  {
    if n == 0 || l >= |view| then [] else view[l] + Stream(view, l + 1, n - 1)
  }

  function Flat(blocks: seq<Block>): (r: seq<Byte>)
  {
    if blocks == [] then [] else blocks[0] + Flat(blocks[1..])
  }

  /** Blocks of one size are equal if their bytes are. */
  lemma {:induction false} StreamIsFlat(view: seq<Block>, l: nat, blocks: seq<Block>, bs: nat)
    requires l + |blocks| <= |view| && (forall b <- view :: |b| == bs) && forall b <- blocks :: |b| == bs
    ensures Stream(view, l, |blocks|) == Flat(blocks) <==> forall i :: 0 <= i < |blocks| ==> view[l + i] == blocks[i]
    decreases |blocks|
  {
    if blocks != [] {
      var rest := blocks[1..];
      StreamIsFlat(view, l + 1, rest, bs);
      assert view[l] in view && blocks[0] in blocks;
      Prefixes(view[l], Stream(view, l + 1, |rest|), blocks[0], Flat(rest));
      assert forall i :: 0 <= i < |rest| ==> view[l + 1 + i] == view[l + (i + 1)] && rest[i] == blocks[i + 1];
    }
  }

  /** Block k of a stream, byte by byte: streams are the blocks one after the other. */
  lemma {:induction false} StreamAt(view: seq<Block>, l: nat, n: nat, bs: nat, k: nat)
    requires l + n <= |view| && k < n && forall b <- view :: |b| == bs
    ensures k * bs + bs <= |Stream(view, l, n)| && Stream(view, l, n)[k * bs..k * bs + bs] == view[l + k]
    decreases n
  {
    hide Stream;
    StreamStep(view, l, n);
    var rest := Stream(view, l + 1, n - 1);
    assert view[l] in view && view[l + k] in view;
    if k == 0 {
      assert (view[l] + rest)[0..bs] == view[l];
    } else {
      StreamAt(view, l + 1, n - 1, bs, k - 1);
      OneMoreTime(k - 1, bs);
      var i := (k - 1) * bs;
      Behind(view[l], rest, i, bs);
    }
  }

  lemma Behind(a: seq<Byte>, b: seq<Byte>, i: nat, n: nat)
    requires i + n <= |b|
    ensures (a + b)[|a| + i..|a| + i + n] == b[i..i + n]
  {
  }

  lemma {:induction false} StreamEnds(view: seq<Block>, l: nat, n: nat, bs: nat)
    requires l <= |view| && forall b <- view :: |b| == bs
    ensures |Stream(view, l, n)| == (if l + n <= |view| then n else |view| - l) * bs
    decreases n
  {
    if n > 0 && l < |view| {
      assert |view[l]| == bs;
      StreamEnds(view, l + 1, n - 1, bs);
      OneMoreTime((if l + n <= |view| then n else |view| - l) - 1, bs);
    }
  }

  lemma Prefixes(a: seq<Byte>, b: seq<Byte>, c: seq<Byte>, d: seq<Byte>)
    requires |a| == |c|
    ensures a + b == c + d <==> a == c && b == d
  {
    if a + b == c + d {
      assert a == (a + b)[..|a|] && c == (c + d)[..|c|];
      assert b == (a + b)[|a|..] && d == (c + d)[|c|..];
    }
  }

  /** The image under its overlay. */
  function Overlay(image: seq<Block>, shadow: Shadow): (v: seq<Block>)
    ensures |v| == |image|
  {
    seq(|image|, k requires 0 <= k < |image| =>
      if shadow.Table? && k in shadow.blocks then shadow.blocks[k] else image[k])
  }

  /** All blocks have the same size, and the overlay is no larger than the image. */
  predicate Uniform(image: seq<Block>, shadow: Shadow, bs: nat)
  {
    && (forall b <- image :: |b| == bs)
    && (shadow.Table? ==> forall k <- shadow.blocks :: k < |image| && |shadow.blocks[k]| == bs)
  }

  lemma OverlayAt(image: seq<Block>, shadow: Shadow, bs: nat, k: nat)
    requires Uniform(image, shadow, bs) && k < |image|
    ensures |Overlay(image, shadow)[k]| == bs
    ensures Overlay(image, shadow)[k] == if shadow.Table? && k in shadow.blocks then shadow.blocks[k] else image[k]
  {
  }

  lemma SameSize(image: seq<Block>, shadow: Shadow, bs: nat)
    requires Uniform(image, shadow, bs)
    ensures forall b <- Overlay(image, shadow) :: |b| == bs
  {
  }

  lemma StreamStep(view: seq<Block>, l: nat, n: nat)
    ensures n == 0 || l >= |view| ==> Stream(view, l, n) == []
    ensures n > 0 && l < |view| ==> Stream(view, l, n) == view[l] + Stream(view, l + 1, n - 1)
  {
  }

  lemma TakeOne(rest: seq<Byte>, more: seq<Byte>)
    requires rest != []
    ensures [rest[0]] + (rest[1..] + more) == rest + more
  {
  }

  /** Whether a block written at k is seen by later reads.  With write protection on, the write that
      creates the table is not stored in it; with write protection off, a block that is in the table
      hides the image. */
  predicate Takes(shadow: Shadow, protect: bool, k: nat)
  {
    if protect then shadow.Table? else !(shadow.Table? && k in shadow.blocks)
  }

  function StoredImage(image: seq<Block>, protect: bool, k: nat, block: Block): (r: seq<Block>)
    requires k < |image|
  {
    if protect then image else image[k := block]
  }

  function StoredShadow(shadow: Shadow, protect: bool, k: nat, block: Block): (r: Shadow)
  {
    if !protect then shadow else if shadow.Table? then Table(shadow.blocks[k := block]) else Table(map[])
  }

  lemma StoreView(image: seq<Block>, shadow: Shadow, bs: nat, protect: bool, k: nat, block: Block)
    requires Uniform(image, shadow, bs) && k < |image| && |block| == bs
    ensures var i, s := StoredImage(image, protect, k, block), StoredShadow(shadow, protect, k, block);
            && Uniform(i, s, bs)
            && Overlay(i, s) ==
                   if Takes(shadow, protect, k) then Overlay(image, shadow)[k := block] else Overlay(image, shadow)
  {
  }

  /** What writing the blocks at l makes of a view: those that are taken replace the old ones. */
  ghost predicate Landed(before: seq<Block>, after: seq<Block>, l: nat, blocks: seq<Block>, shadow: Shadow,
                         protect: bool)
  {
    && |after| == |before|
    && forall k :: 0 <= k < |before| ==>
         after[k] == if l <= k < l + |blocks| && TakenLater(shadow, protect, l, k) then blocks[k - l] else before[k]
  }

  /** Whether block k of a WRITE that starts at l is taken: the first one creates the table. */
  predicate TakenLater(shadow: Shadow, protect: bool, l: nat, k: nat)
  {
    if protect then shadow.Table? || k > l else !(shadow.Table? && k in shadow.blocks)
  }

  lemma LandedNothing(view: seq<Block>, l: nat, shadow: Shadow, protect: bool)
    ensures Landed(view, view, l, [], shadow, protect)
  {
  }

  lemma LandedNext(before: seq<Block>, mid: seq<Block>, after: seq<Block>, l: nat, blocks: seq<Block>, j: nat,
                   shadow: Shadow, now: Shadow, protect: bool)
    requires j < |blocks| && l + j < |before| && Landed(before, mid, l, blocks[..j], shadow, protect)
    requires if protect then now.Table? == (shadow.Table? || j > 0) else now == shadow
    requires after == if Takes(now, protect, l + j) then mid[l + j := blocks[j]] else mid
    ensures Landed(before, after, l, blocks[..j + 1], shadow, protect)
  {
  }

  lemma LandedAll(before: seq<Block>, after: seq<Block>, l: nat, blocks: seq<Block>, j: nat, shadow: Shadow,
                  protect: bool)
    requires j <= |blocks| && Landed(before, after, l, blocks[..j], shadow, protect)
    requires j == |blocks| || l + j >= |before|
    ensures Landed(before, after, l, blocks, shadow, protect)
  {
  }

  lemma ReadBack(before: seq<Block>, after: seq<Block>, l: nat, blocks: seq<Block>, bs: nat, shadow: Shadow,
                 protect: bool)
    requires Landed(before, after, l, blocks, shadow, protect) && l + |blocks| <= |before|
    requires (forall b <- after :: |b| == bs) && forall b <- blocks :: |b| == bs
    ensures Stream(after, l, |blocks|) == Flat(blocks) <==>
            forall i :: 0 <= i < |blocks| ==> TakenLater(shadow, protect, l, l + i) || before[l + i] == blocks[i]
  {
    hide Stream, Flat, TakenLater;
    StreamIsFlat(after, l, blocks, bs);
    assert forall i :: 0 <= i < |blocks| ==>
             after[l + i] == if TakenLater(shadow, protect, l, l + i) then blocks[i] else before[l + i];
  }

  /** Under write protection the write that creates the table is lost, whatever the disk and the
      block. */
  lemma FirstWriteLost(image: seq<Block>, bs: nat, k: nat, block: Block)
    requires Uniform(image, NoTable, bs) && k < |image| && |block| == bs && block != image[k]
    ensures var after := Overlay(StoredImage(image, true, k, block), StoredShadow(NoTable, true, k, block));
            after == image && after[k] != block
  {
    StoreView(image, NoTable, bs, true, k, block);
    assert Overlay(image, NoTable) == image;
  }

  /** With the protection switched off later, a block in the table hides what is written. */
  lemma WriteHidden(image: seq<Block>, table: Shadow, bs: nat, k: nat, block: Block)
    requires Uniform(image, table, bs) && k < |image| && table.Table? && k in table.blocks && |block| == bs
             && block != table.blocks[k]
    ensures var after := Overlay(StoredImage(image, false, k, block), StoredShadow(table, false, k, block));
            after == Overlay(image, table) && after[k] == table.blocks[k] != block
  {
    StoreView(image, table, bs, false, k, block);
    OverlayAt(image, table, bs, k);
  }

  // ----- a WRITE byte by byte

  /** A WRITE of n blocks at l: what was seen on the disk when it began, and the overlay. */
  datatype WriteOp = WriteOp(view: seq<Block>, table: Shadow, l: nat, n: nat)

  /** How many blocks a WRITE takes: all of them, or those that exist and one more. */
  function Demand(op: WriteOp): (n: nat)
    ensures n <= op.n
  {
    var here := if op.l < |op.view| then |op.view| - op.l else 0;
    if op.n <= here then op.n else here + 1
  }

  lemma {:induction false} FlatAppend(blocks: seq<Block>, b: Block)
    ensures Flat(blocks + [b]) == Flat(blocks) + b
  {
    if blocks == [] {
      assert [] + [b] == [b] && [b][1..] == [];
      assert Flat([b]) == b + [];
    } else {
      assert (blocks + [b])[1..] == blocks[1..] + [b];
      FlatAppend(blocks[1..], b);
    }
  }

  lemma {:induction false} FlatLength(blocks: seq<Block>, bs: nat)
    requires forall b <- blocks :: |b| == bs
    ensures |Flat(blocks)| == |blocks| * bs
  {
    if blocks != [] {
      var rest := blocks[1..];
      FlatLength(rest, bs);
      assert blocks[0] in blocks;
      OneMoreTime(|rest|, bs);
      assert |blocks| == |rest| + 1 && |Flat(blocks)| == bs + |Flat(rest)|;
    }
  }

  lemma OneMoreTime(n: nat, bs: nat)
    ensures (n + 1) * bs == n * bs + bs
  {
  }

  lemma GroupTail(a: seq<Byte>, b: seq<Byte>, v: Byte)
    ensures (a + b) + [v] == a + (b + [v])
  {
  }

  lemma LandedMore(op: WriteOp, mid: seq<Block>, after: seq<Block>, blocks: seq<Block>, b: Block, now: Shadow,
                   protect: bool)
    requires op.l + |blocks| < |op.view| && Landed(op.view, mid, op.l, blocks, op.table, protect)
    requires if protect then now.Table? == (op.table.Table? || |blocks| > 0) else now == op.table
    requires after == if Takes(now, protect, op.l + |blocks|) then mid[op.l + |blocks| := b] else mid
    ensures Landed(op.view, after, op.l, blocks + [b], op.table, protect)
  {
    assert (blocks + [b])[..|blocks|] == blocks && (blocks + [b])[..|blocks| + 1] == blocks + [b];
    LandedNext(op.view, mid, after, op.l, blocks + [b], |blocks|, op.table, now, protect);
  }

  lemma LandedBeyond(op: WriteOp, after: seq<Block>, blocks: seq<Block>, b: Block, protect: bool)
    requires op.l + |blocks| >= |op.view| && Landed(op.view, after, op.l, blocks, op.table, protect)
    ensures Landed(op.view, after, op.l, blocks + [b], op.table, protect)
  {
  }

  // ----- a plain block store, which the target implements

  /** What is seen on the disk, and whether the overlay exists. */
  datatype Store = Store(view: seq<Block>, table: bool)

  /** What stays fixed in a run: a read-only disk, the write protection, and, when that is off, the
      blocks that an overlay of earlier times hides. */
  datatype Setting = Setting(readonly: bool, protect: bool, hidden: set<nat>)

  datatype Request = ReadBlocks(cdb: seq<nat>) | WriteBlocks(cdb: seq<nat>, blocks: seq<Block>)

  datatype Reply = Reply(bytes: seq<Byte>, status: Status)

  /** Commands are well formed, and a WRITE comes with as many blocks as it announces. */
  predicate Proper(script: seq<Request>, bs: nat)
  {
    forall r <- script ::
      IsCdb(r.cdb) && (r.WriteBlocks? ==> |r.blocks| == Count(r.cdb) && forall b <- r.blocks :: |b| == bs)
  }

  /** The blocks from l on replaced by the given ones, except the hidden ones. */
  function Patched(view: seq<Block>, l: nat, blocks: seq<Block>, hidden: set<nat>): (r: seq<Block>)
    ensures |r| == |view|
    decreases |blocks|
  {
    if blocks == [] || l >= |view| then view
    else Patched(if l in hidden then view else view[l := blocks[0]], l + 1, blocks[1..], hidden)
  }

  lemma {:induction false} PatchedAt(view: seq<Block>, l: nat, blocks: seq<Block>, hidden: set<nat>, k: nat)
    requires k < |view|
    ensures Patched(view, l, blocks, hidden)[k] ==
                if l <= k < l + |blocks| && k !in hidden then blocks[k - l] else view[k]
    decreases |blocks|
  {
    if blocks != [] && l < |view| {
      PatchedAt(if l in hidden then view else view[l := blocks[0]], l + 1, blocks[1..], hidden, k);
    }
  }

  /** A write replaces blocks; under write protection the first block of the first write is lost. */
  function Serve(c: Setting, st: Store, r: Request): (next: Store)
    requires IsCdb(r.cdb)
  {
    if c.readonly || r.ReadBlocks? || r.blocks == [] || Offset(r.cdb) >= |st.view| then st
    else if !c.protect then st.(view := Patched(st.view, Offset(r.cdb), r.blocks, c.hidden))
    else if st.table then st.(view := Patched(st.view, Offset(r.cdb), r.blocks, {}))
    else Store(Patched(st.view, Offset(r.cdb) + 1, r.blocks[1..], {}), true)
  }

  function Answer(c: Setting, st: Store, r: Request): (a: Reply)
    requires IsCdb(r.cdb)
  {
    if c.readonly && r.WriteBlocks? then Reply([], CheckCondition)
    else
      Reply(if r.ReadBlocks? then Stream(st.view, Offset(r.cdb), Count(r.cdb)) else [],
            if Count(r.cdb) == 0 || Offset(r.cdb) + Count(r.cdb) <= |st.view| then Good else CheckCondition)
  }

  predicate Cdbs(script: seq<Request>)
  {
    forall r <- script :: IsCdb(r.cdb)
  }

  /** The answers of the plain store to a whole script. */
  function Answers(c: Setting, st: Store, script: seq<Request>): (a: seq<Reply>)
    requires Cdbs(script)
    decreases |script|
  {
    if script == [] then [] else [Answer(c, st, script[0])] + Answers(c, Serve(c, st, script[0]), script[1..])
  }

  lemma AnswersNext(c: Setting, st: Store, script: seq<Request>, i: nat)
    requires Cdbs(script) && i < |script|
    ensures script[i] in script && IsCdb(script[i].cdb) && Cdbs(script[i..]) && Cdbs(script[i + 1..])
    ensures Answers(c, st, script[i..]) ==
            [Answer(c, st, script[i])] + Answers(c, Serve(c, st, script[i]), script[i + 1..])
  {
    assert script[i] in script && script[i..][0] == script[i] && script[i..][1..] == script[i + 1..];
  }

  lemma AnswersEnd(c: Setting, st: Store, script: seq<Request>)
    requires Cdbs(script)
    ensures script[|script|..] == [] && script[0..] == script && Answers(c, st, []) == []
  {
  }

  lemma AnswersTogether(a: seq<Reply>, b: Reply, c: seq<Reply>)
    ensures (a + [b]) + c == a + ([b] + c) && [] + c == c && a + [] == a
  {
  }

  function Hidden(shadow: Shadow, protect: bool): (s: set<nat>)
  {
    if protect || shadow.NoTable? then {} else shadow.blocks.Keys
  }

  lemma LandedIsServed(before: seq<Block>, after: seq<Block>, r: Request, shadow: Shadow, protect: bool)
    requires r.WriteBlocks? && IsCdb(r.cdb)
    requires Landed(before, after, Offset(r.cdb), r.blocks, shadow, protect)
    ensures after == Serve(Setting(false, protect, Hidden(shadow, protect)), Store(before, shadow.Table?), r).view
  {
    var l, hidden := Offset(r.cdb), Hidden(shadow, protect);
    var next := Serve(Setting(false, protect, hidden), Store(before, shadow.Table?), r).view;
    forall k | 0 <= k < |before|
      ensures after[k] == next[k]
    {
      PatchedAt(before, l, r.blocks, hidden, k);
      if r.blocks != [] {
        PatchedAt(before, l + 1, r.blocks[1..], {}, k);
      }
    }
  }

  class Target {
    const blockSize: nat
    const data: array<Byte>
    var image: seq<Block>
    var shadow: Shadow
    var readonly: bool
    /** The configured write protection of the image file. */
    var protect: bool
    var lba: nat
    var lastLba: nat
    var counter: nat
    var status: Status
    var sense: Sense
    var phase: Phase
    var size: nat
    var limit: nat
    var disk: bool

    constructor (blockSize: nat, image: seq<Block>, readonly: bool, protect: bool)
      requires 0 < blockSize <= MAX_BLOCK && forall b <- image :: |b| == blockSize
      ensures Valid() && this.blockSize == blockSize && this.image == image && shadow == NoTable && fresh(data)
      ensures this.readonly == readonly && this.protect == protect && phase == StatusPhase
    {
      this.blockSize, this.image, this.readonly, this.protect := blockSize, image, readonly, protect;
      data := new Byte[MAX_BLOCK](i => ZERO);
      shadow, status, phase, sense := NoTable, Good, StatusPhase, Sense(NoSense, NoCode, false, 0);
      lba, lastLba, counter, size, limit, disk := 0, 0, 0, 0, 0, false;
    }

    ghost predicate Shape()
      reads this
    {
      0 < blockSize <= MAX_BLOCK == data.Length && Uniform(image, shadow, blockSize) && size <= limit <= MAX_BLOCK
    }

    /** In the data phases the buffer is never empty or full, respectively. */
    ghost predicate Valid()
      reads this
    {
      && Shape()
      && (phase == DataIn ==> 0 < size)
      && (phase == DataOut ==> size < limit && (disk ==> 0 < counter && limit == blockSize))
    }

    /** What the initiator sees on the disk. */
    ghost function View(): (v: seq<Block>)
      reads this
      ensures |v| == |image|
    {
      Overlay(image, shadow)
    }

    /** Everything the target still has to send: of a READ, or of a reply that is in the buffer. */
    ghost function Due(): (d: seq<Byte>)
      reads this, data
      requires Shape()
    {
      data[limit - size..limit] + if disk then Stream(View(), lba, counter) else []
    }

    /** The state in which scsi_read_sector and scsi_write_sector report a missing block. */
    ghost predicate Missing()
      reads this
    {
      status == CheckCondition && sense == Sense(IllegalRequest, InvalidLba, true, lba) && phase == StatusPhase
    }

    method Fail()
      modifies this`status, this`sense, this`phase
      ensures Missing()
    {
      status := CheckCondition;
      sense := Sense(IllegalRequest, InvalidLba, true, lba);
      phase := StatusPhase;
    }

    /** A whole block goes into the buffer. */
    method CopyIn(block: Block)
      requires Shape() && |block| == blockSize
      modifies data, this`size, this`limit
      ensures Shape() && size > 0 && data[limit - size..limit] == block
    {
      forall i | 0 <= i < |block| {
        data[i] := block[i];
      }
      size, limit := blockSize, blockSize;
    }

    /** The block at lba goes into the buffer, from the overlay if it is there. */
    method NextBlock()
      requires Shape() && size == 0 && disk && counter > 0 && lba < |image|
      modifies this`size, this`limit, this`lba, this`counter, data
      ensures Shape() && Due() == old(Due()) && size > 0 && lba == old(lba) + 1 && counter == old(counter) - 1
    {
      hide Stream, Overlay, Uniform;
      StreamStep(View(), lba, counter);
      assert data[limit - size..limit] == [] && [] + Stream(View(), lba, counter) == Stream(View(), lba, counter);
      var block := if shadow.Table? && lba in shadow.blocks then shadow.blocks[lba] else image[lba];
      OverlayAt(image, shadow, blockSize, lba);
      CopyIn(block);
      lba := lba + 1;
      counter := counter - 1;
    }

    /** scsi_read_sector, with an empty buffer. */
    method LoadBlock()
      requires Shape() && size == 0 && disk
      modifies this`phase, this`size, this`limit, this`lba, this`counter, this`status, this`sense, data
      ensures Shape() && Due() == old(Due()) && lba + counter == old(lba + counter)
      ensures old(counter > 0 && lba < |image|) ==>
                lba == old(lba) + 1 && size > 0 && phase == old(phase) && status == old(status) && sense == old(sense)
      ensures old(counter > 0 && lba >= |image|) ==> lba == old(lba) && size == 0 && Missing()
      ensures old(counter == 0) ==>
                lba == old(lba) && size == 0 && phase == StatusPhase && status == old(status) && sense == old(sense)
    {
      hide Stream, Overlay, Uniform;
      if counter == 0 {
        phase := StatusPhase;
      } else if lba < |image| {
        NextBlock();
      } else {
        Fail();
      }
    }

    /** SCSIdisk_Send_Data: the next byte of what is due, and status phase after the last. */
    method SendData() returns (v: Byte)
      requires Valid() && phase == DataIn
      modifies this`phase, this`size, this`limit, this`lba, this`counter, this`status, this`sense, data
      ensures Valid() && (phase == DataIn || phase == StatusPhase)
      ensures [v] + Due() == old(Due()) && lba + counter == old(lba + counter)
      ensures Due() == [] <==> phase == StatusPhase
      ensures !disk ==>
                v == old(data[limit - size]) && size == old(size) - 1
                && phase == if size == 0 then StatusPhase else DataIn
      ensures !disk || phase == DataIn ==> status == old(status) && sense == old(sense)
      ensures disk && phase == StatusPhase ==>
                if counter == 0 then status == old(status) && sense == old(sense) else Missing() && lba >= |image|
      ensures old(lba) <= lba && (lba == old(lba) || lba <= |image|)
    {
      hide Stream, Overlay, Uniform;
      v := data[limit - size];
      TakeOne(data[limit - size..limit], if disk then Stream(View(), lba, counter) else []);
      size := size - 1;
      assert data[limit - size..limit] == old(data[limit - size..limit])[1..];
      if size == 0 {
        if disk {
          LoadBlock();
          StreamStep(View(), lba, counter);
        } else {
          phase := StatusPhase;
        }
      }
    }

    /** The registers SCSI_ReadSector sets before the first block is loaded. */
    method BeginRead(l: nat, n: nat)
      requires Shape()
      modifies this`phase, this`size, this`limit, this`lba, this`lastLba, this`counter, this`status, this`sense,
               this`disk
      ensures Shape() && disk && lba == l && counter == n && size == 0 && status == Good && sense.key == NoSense
      ensures Due() == Stream(View(), l, n) && phase == if n > 0 then DataIn else StatusPhase
    {
      hide Stream, Overlay, Uniform;
      lastLba := lba;
      lba := l;
      counter := n;
      size, limit := 0, 0;
      disk := true;
      status := Good;
      sense := sense.(key := NoSense, code := NoCode, valid := false);
      phase := if counter > 0 then DataIn else StatusPhase;
      assert data[0..0] == [] && [] + Stream(View(), lba, counter) == Stream(View(), lba, counter);
    }

    /** SCSI_ReadSector. */
    method ReadSector(cdb: seq<nat>)
      requires Shape() && IsCdb(cdb)
      modifies this`phase, this`size, this`limit, this`lba, this`lastLba, this`counter, this`status, this`sense,
               this`disk, data
      ensures Valid() && disk && Due() == Stream(View(), Offset(cdb), Count(cdb))
              && lba + counter == Offset(cdb) + Count(cdb)
      ensures phase == if Count(cdb) > 0 && Offset(cdb) < |image| then DataIn else StatusPhase
      ensures phase == StatusPhase ==> Due() == []
      ensures Count(cdb) > 0 && Offset(cdb) >= |image| ==> Missing() && lba == Offset(cdb)
      ensures !(Count(cdb) > 0 && Offset(cdb) >= |image|) ==> status == Good && sense.key == NoSense
      ensures Offset(cdb) <= lba && (lba == Offset(cdb) || lba <= |image|)
    {
      hide Stream, Overlay, Uniform, Offset, Count;
      BeginRead(Offset(cdb), Count(cdb));
      StreamStep(View(), lba, counter);
      LoadBlock();
    }

    /** A whole READ: the initiator takes bytes for as long as the target is in the data-in phase.
        It gets the blocks that exist, in order, and the status tells whether there were enough. */
    method Read(cdb: seq<nat>) returns (bytes: seq<Byte>)
      requires Valid() && IsCdb(cdb)
      modifies this`phase, this`size, this`limit, this`lba, this`lastLba, this`counter, this`status, this`sense,
               this`disk, data
      ensures Valid() && phase == StatusPhase && bytes == Stream(View(), Offset(cdb), Count(cdb))
      ensures var l, n := Offset(cdb), Count(cdb);
              if n == 0 || l + n <= |image| then status == Good && sense.key == NoSense
              else status == CheckCondition
                   && sense == Sense(IllegalRequest, InvalidLba, true, if l < |image| then |image| else l)
    {
      hide Stream, Overlay, Uniform, Offset, Count;
      ReadSector(cdb);
      ghost var all := Due();
      bytes := [];
      assert bytes + Due() == all;
      while phase == DataIn
        invariant Valid() && disk && bytes + Due() == all && lba + counter == Offset(cdb) + Count(cdb)
        invariant phase == DataIn ==> status == Good && sense.key == NoSense
        invariant phase == StatusPhase ==>
                    Due() == []
                    && if counter == 0 then status == Good && sense.key == NoSense else Missing() && lba >= |image|
        invariant phase == DataIn || phase == StatusPhase
        invariant Offset(cdb) <= lba && (lba == Offset(cdb) || lba <= |image|)
        decreases |Due()|
      {
        ghost var due := Due();
        var v := SendData();
        Associate(bytes, [v], Due());
        bytes := bytes + [v];
      }
    }

    /** scsi_write_sector, with a full buffer. */
    method StoreBlock()
      requires Shape() && limit == blockSize && counter > 0
      modifies this`image, this`shadow, this`phase, this`size, this`limit, this`lba, this`counter, this`status,
               this`sense
      ensures Shape() && (protect ==> image == old(image)) && (!protect ==> shadow == old(shadow))
              && |image| == |old(image)|
      ensures old(lba >= |image|) ==>
                Missing() && lba == old(lba) && counter == old(counter) && image == old(image) && shadow == old(shadow)
      ensures old(lba < |image|) ==>
                && lba == old(lba) + 1 && counter == old(counter) - 1 && size == 0 && limit == blockSize
                && phase == (if counter == 0 then StatusPhase else old(phase)) && status == old(status)
                && sense == old(sense)
                && (protect ==> shadow.Table?)
                && View() ==
                       if old(Takes(shadow, protect, lba)) then old(View())[old(lba) := data[..blockSize]]
                       else old(View())
    {
      hide Overlay, Uniform;
      if lba < |image| {
        StoreView(image, shadow, blockSize, protect, lba, data[..blockSize]);
        image, shadow := StoredImage(image, protect, lba, data[..blockSize]),
            StoredShadow(shadow, protect, lba, data[..blockSize]);
        size, limit := 0, blockSize;
        lba := lba + 1;
        counter := counter - 1;
        if counter == 0 {
          phase := StatusPhase;
        }
      } else {
        Fail();
      }
    }

    /** SCSIdisk_Receive_Data. */
    method ReceiveData(v: Byte)
      requires Valid() && phase == DataOut
      modifies this`image, this`shadow, this`phase, this`size, this`limit, this`lba, this`counter, this`status,
               this`sense, data
      ensures Valid() && (phase == DataOut || phase == StatusPhase) && |image| == |old(image)|
      ensures (protect ==> image == old(image)) && (!protect ==> shadow == old(shadow))
      ensures old(size + 1 < limit) ==>
                && size == old(size) + 1 && limit == old(limit) && phase == DataOut && image == old(image)
                && shadow == old(shadow)
                && lba == old(lba) && counter == old(counter) && status == old(status) && sense == old(sense)
                && data[..size] == old(data[..size]) + [v]
      ensures old(size + 1 == limit && disk && lba >= |image|) ==>
                Missing() && lba == old(lba) && counter == old(counter) && image == old(image) && shadow == old(shadow)
      ensures old(size + 1 == limit && disk && lba < |image|) ==>
                && lba == old(lba) + 1 && counter == old(counter) - 1 && size == 0 && limit == blockSize
                && phase == (if counter == 0 then StatusPhase else DataOut) && status == old(status)
                && sense == old(sense)
                && (protect ==> shadow.Table?)
                && View() ==
                       if old(Takes(shadow, protect, lba)) then old(View())[old(lba) := old(data[..size]) + [v]]
                       else old(View())
      ensures old(size + 1 == limit && !disk) ==> phase == StatusPhase && image == old(image) && shadow == old(shadow)
    {
      hide Overlay, Uniform;
      data[size] := v;
      size := size + 1;
      assert data[..size] == old(data[..size]) + [v];
      if size == limit {
        if disk {
          StoreBlock();
        } else {
          phase := StatusPhase;
        }
      }
    }

    /** SCSI_WriteSector. */
    method WriteSector(cdb: seq<nat>)
      requires Shape() && IsCdb(cdb)
      modifies this`phase, this`size, this`limit, this`lba, this`lastLba, this`counter, this`status, this`sense,
               this`disk
      ensures Valid() && lba == Offset(cdb) && counter == Count(cdb)
      ensures readonly ==>
                phase == StatusPhase && status == CheckCondition && sense.key == DataProtect
                && sense.code == WriteProtect
      ensures !readonly ==>
                disk && size == 0 && limit == blockSize && status == Good && sense.key == NoSense
                && phase == if Count(cdb) > 0 then DataOut else StatusPhase
    {
      hide Uniform, Offset, Count;
      lastLba := lba;
      lba := Offset(cdb);
      counter := Count(cdb);
      if readonly {
        status := CheckCondition;
        sense := sense.(key := DataProtect, code := WriteProtect, valid := false);
        phase := StatusPhase;
        return;
      }
      size, limit, disk := 0, blockSize, true;
      status := Good;
      sense := sense.(key := NoSense, code := NoCode, valid := false);
      phase := if counter > 0 then DataOut else StatusPhase;
    }

    /** The initiator sends one block. */
    method ReceiveBlock(block: Block)
      requires Valid() && phase == DataOut && disk && size == 0 && |block| == blockSize
      modifies this`image, this`shadow, this`phase, this`size, this`limit, this`lba, this`counter, this`status,
               this`sense, data
      ensures Valid() && |image| == |old(image)| && (protect ==> image == old(image))
              && (!protect ==> shadow == old(shadow))
      ensures old(lba >= |image|) ==>
                Missing() && lba == old(lba) && counter == old(counter) && image == old(image) && shadow == old(shadow)
      ensures old(lba < |image|) ==>
                && lba == old(lba) + 1 && counter == old(counter) - 1 && size == 0
                && phase == (if counter == 0 then StatusPhase else DataOut) && status == old(status)
                && sense == old(sense)
                && (protect ==> shadow.Table?)
                && View() == if old(Takes(shadow, protect, lba)) then old(View())[old(lba) := block] else old(View())
    {
      hide Uniform, Overlay, Takes;
      var i := 0;
      while i < blockSize - 1
        invariant i <= blockSize - 1 && Valid() && phase == DataOut && size == i && limit == blockSize
        invariant data[..i] == block[..i]
        invariant image == old(image) && shadow == old(shadow) && lba == old(lba) && counter == old(counter)
        invariant status == old(status) && sense == old(sense)
      {
        ReceiveData(block[i]);
        i := i + 1;
      }
      assert block[..i] + [block[i]] == block;
      ReceiveData(block[i]);
    }

    /** A WRITE of the given blocks at l is under way and j of them are on the disk. */
    ghost predicate Writing(view: seq<Block>, table: Shadow, l: nat, blocks: seq<Block>, j: nat)
      reads this
    {
      && Valid() && disk && (phase == DataOut || phase == StatusPhase)
      && j <= |blocks| && lba == l + j && counter == |blocks| - j && |image| == |view| && (j > 0 ==> lba <= |image|)
      && Landed(view, View(), l, blocks[..j], table, protect)
      && (if protect then shadow.Table? == (table.Table? || j > 0) else shadow == table)
      && (phase == DataOut ==> size == 0)
      && (phase == DataOut || counter == 0 ==> status == Good && sense.key == NoSense)
      && (phase == StatusPhase && counter > 0 ==> Missing() && lba >= |image|)
    }

    /** The next block of a WRITE. */
    method WriteNext(ghost view: seq<Block>, ghost table: Shadow, ghost l: nat, blocks: seq<Block>, j: nat)
      returns (next: nat)
      requires Writing(view, table, l, blocks, j) && phase == DataOut && forall b <- blocks :: |b| == blockSize
      modifies this`image, this`shadow, this`phase, this`size, this`limit, this`lba, this`counter, this`status,
               this`sense, data
      ensures Writing(view, table, l, blocks, next) && (protect ==> image == old(image))
      ensures next == j + 1 || (next == j && phase == StatusPhase)
    {
      hide Uniform, Overlay, Landed, Takes;
      assert blocks[j] in blocks;
      ghost var before, had := View(), shadow;
      next := if lba < |image| then j + 1 else j;
      ReceiveBlock(blocks[j]);
      if next == j + 1 {
        LandedNext(view, before, View(), l, blocks, j, table, had, protect);
      }
    }

    /** A whole WRITE of the given blocks: exactly the blocks that exist and are taken are seen
        afterwards; the status tells whether all of them exist. */
    method Write(cdb: seq<nat>, blocks: seq<Block>)
      requires Valid() && IsCdb(cdb)
      requires |blocks| == Count(cdb) && forall b <- blocks :: |b| == blockSize
      modifies this`image, this`shadow, this`phase, this`size, this`limit, this`lba, this`lastLba, this`counter,
               this`status, this`sense, this`disk, data
      ensures Valid() && phase == StatusPhase && |image| == |old(image)| && (protect ==> image == old(image))
      ensures readonly ==>
                image == old(image) && shadow == old(shadow) && status == CheckCondition && sense.key == DataProtect
      ensures !readonly ==> Landed(old(View()), View(), Offset(cdb), blocks, old(shadow), protect)
      ensures if protect && !readonly
              then shadow.Table? == (old(shadow.Table?) || (Count(cdb) > 0 && Offset(cdb) < |image|))
              else shadow == old(shadow)
      ensures !readonly ==>
                var l, n := Offset(cdb), Count(cdb);
                if n == 0 || l + n <= |image| then status == Good && sense.key == NoSense
                else status == CheckCondition
                     && sense == Sense(IllegalRequest, InvalidLba, true, if l < |image| then |image| else l)
    {
      hide Uniform, Overlay, Offset, Count, Landed, Takes;
      WriteSector(cdb);
      if readonly {
        return;
      }
      ghost var view, table, l := View(), shadow, Offset(cdb);
      LandedNothing(view, l, table, protect);
      var j: nat := 0;
      assert blocks[..j] == [];
      while phase == DataOut
        invariant Writing(view, table, l, blocks, j) && (protect ==> image == old(image))
        decreases if phase == DataOut then |blocks| - j + 1 else 0
      {
        j := WriteNext(view, table, l, blocks, j);
      }
      LandedAll(view, View(), l, blocks, j, table, protect);
    }

    /** The exact condition under which a READ returns what a WRITE to existing blocks was given. */
    method WriteThenRead(write: seq<nat>, read: seq<nat>, blocks: seq<Block>) returns (bytes: seq<Byte>)
      requires Valid() && IsCdb(write) && IsCdb(read)
      requires Offset(read) == Offset(write) && Count(read) == Count(write) == |blocks|
      requires !readonly && Offset(write) + |blocks| <= |image| && forall b <- blocks :: |b| == blockSize
      modifies this`image, this`shadow, this`phase, this`size, this`limit, this`lba, this`lastLba, this`counter,
               this`status, this`sense, this`disk, data
      ensures bytes == Flat(blocks) <==>
              forall i :: 0 <= i < |blocks| ==>
                old(TakenLater(shadow, protect, Offset(write), Offset(write) + i))
                || old(View())[Offset(write) + i] == blocks[i]
    {
      hide Uniform, Overlay, Offset, Count, Stream, Flat, Landed, TakenLater;
      ghost var view, table := View(), shadow;
      Write(write, blocks);
      bytes := Read(read);
      SameSize(image, shadow, blockSize);
      ReadBack(view, View(), Offset(write), blocks, blockSize, table, protect);
    }

    /** A READ of n blocks from block l on, as a class 0 or a class 1 command. */
    method ReadAt(long: bool, unit: nat, l: nat, n: nat) returns (bytes: seq<Byte>)
      requires Valid() && unit < 8 && if long then l < 0x1_0000_0000 && n < 65536 else l < 0x200000 && 1 <= n <= 256
      modifies this`phase, this`size, this`limit, this`lba, this`lastLba, this`counter, this`status, this`sense,
               this`disk, data
      ensures Valid() && phase == StatusPhase && bytes == Stream(View(), l, n)
      ensures if n == 0 || l + n <= |image| then status == Good && sense.key == NoSense
              else status == CheckCondition
                   && sense == Sense(IllegalRequest, InvalidLba, true, if l < |image| then |image| else l)
    {
      hide Stream, Overlay, Uniform, Offset, Count;
      var cdb := CommandFor(if long then 0x28 else 0x08, unit, l, n);
      bytes := Read(cdb);
    }

    /** A WRITE of blocks from block l on. */
    method WriteAt(long: bool, unit: nat, l: nat, blocks: seq<Block>)
      requires Valid() && unit < 8 && forall b <- blocks :: |b| == blockSize
      requires if long then l < 0x1_0000_0000 && |blocks| < 65536 else l < 0x200000 && 1 <= |blocks| <= 256
      modifies this`image, this`shadow, this`phase, this`size, this`limit, this`lba, this`lastLba, this`counter,
               this`status, this`sense, this`disk, data
      ensures Valid() && phase == StatusPhase && |image| == |old(image)| && (protect ==> image == old(image))
      ensures readonly ==> image == old(image) && shadow == old(shadow) && status == CheckCondition
      ensures !readonly ==> Landed(old(View()), View(), l, blocks, old(shadow), protect)
      ensures !readonly ==> status == if blocks == [] || l + |blocks| <= |image| then Good else CheckCondition
    {
      hide Overlay, Uniform, Offset, Count, Landed;
      var cdb := CommandFor(if long then 0x2A else 0x0A, unit, l, |blocks|);
      Write(cdb, blocks);
    }

    /** The bytes of a command, as the initiator builds it. */
    method CommandFor(op: nat, unit: nat, l: nat, n: nat) returns (cdb: seq<nat>)
      requires op < 256 && unit < 8
      requires if op < 0x20 then l < 0x200000 && 1 <= n <= 256 else l < 0x1_0000_0000 && n < 65536
      ensures IsCdb(cdb) && Offset(cdb) == l && Count(cdb) == n
    {
      hide Offset, Count;
      if op < 0x20 {
        cdb := [op, unit * 32 + l / 65536, l / 256 % 256, l % 256, n % 256, 0, 0, 0, 0, 0];
        ClassZero(cdb, unit, l, n);
      } else {
        cdb := [op, unit * 32, l / 0x1000000, l / 65536 % 256, l / 256 % 256, l % 256, 0, n / 256, n % 256, 0];
        ClassOne(cdb, l, n);
      }
    }

    /** What was written to existing blocks with a command of either class is read with a command of either
        class, if and only if each block is taken or was there before. */
    method WriteAtThenReadAt(longWrite: bool, longRead: bool, unit: nat, l: nat, blocks: seq<Block>)
      returns (bytes: seq<Byte>)
      requires Valid() && unit < 8 && !readonly && forall b <- blocks :: |b| == blockSize
      requires l + |blocks| <= |image| && blocks != []
      requires if longWrite && longRead then l < 0x1_0000_0000 && |blocks| < 65536 else l < 0x200000 && |blocks| <= 256
      modifies this`image, this`shadow, this`phase, this`size, this`limit, this`lba, this`lastLba, this`counter,
               this`status, this`sense, this`disk, data
      ensures bytes == Flat(blocks) <==>
              forall i :: 0 <= i < |blocks| ==>
                (if protect then old(shadow.Table?) || i > 0 else !(old(shadow.Table?) && l + i in old(shadow.blocks)))
                || old(View())[l + i] == blocks[i]
    {
      hide Uniform, Overlay, Stream, Flat, Landed;
      ghost var view, table := View(), shadow;
      WriteAt(longWrite, unit, l, blocks);
      bytes := ReadAt(longRead, unit, l, |blocks|);
      SameSize(image, shadow, blockSize);
      ReadBack(view, View(), l, blocks, blockSize, table, protect);
    }

    /** What stays fixed in a run. */
    ghost function Fixed(): (c: Setting)
      reads this
    {
      Setting(readonly, protect, Hidden(shadow, protect))
    }

    /** One command of a run. */
    method Execute(r: Request) returns (a: Reply)
      requires Valid() && IsCdb(r.cdb)
      requires r.WriteBlocks? ==> |r.blocks| == Count(r.cdb) && forall b <- r.blocks :: |b| == blockSize
      modifies this`image, this`shadow, this`phase, this`size, this`limit, this`lba, this`lastLba, this`counter,
               this`status, this`sense, this`disk, data
      ensures Valid() && Fixed() == old(Fixed()) && (protect || readonly ==> image == old(image))
      ensures a == Answer(Fixed(), old(Seen()), r) && Seen() == Serve(Fixed(), old(Seen()), r)
    {
      hide Uniform, Overlay, Offset, Count, Stream, Patched, Landed;
      ghost var view, table := View(), shadow;
      if r.ReadBlocks? {
        var bytes := Read(r.cdb);
        a := Reply(bytes, status);
      } else {
        Write(r.cdb, r.blocks);
        a := Reply([], status);
        if !readonly {
          LandedIsServed(view, View(), r, table, protect);
        }
      }
    }

    ghost function Seen(): (st: Store)
      reads this
    {
      Store(View(), shadow.Table?)
    }

    /** Every run of READ and WRITE commands, on any disk, answers as the plain block store does; with
        write protection on, or on a read-only disk, it leaves the image alone. */
    method Run(script: seq<Request>) returns (answers: seq<Reply>)
      requires Valid() && Proper(script, blockSize)
      modifies this`image, this`shadow, this`phase, this`size, this`limit, this`lba, this`lastLba, this`counter,
               this`status, this`sense, this`disk, data
      ensures Valid() && (protect || readonly ==> image == old(image))
      ensures answers == Answers(old(Fixed()), old(Seen()), script)
    {
      hide Uniform, Overlay, Offset, Count, Stream, Patched, Landed, Serve, Answer, Answers, IsCdb, Hidden;
      answers := [];
      var i := 0;
      ghost var c, all := Fixed(), Answers(Fixed(), Seen(), script);
      AnswersEnd(c, Seen(), script);
      while i < |script|
        invariant 0 <= i <= |script| && Valid() && Fixed() == c && (protect || readonly ==> image == old(image))
        invariant Cdbs(script[i..]) && answers + Answers(c, Seen(), script[i..]) == all
      {
        AnswersNext(c, Seen(), script, i);
        var a := Execute(script[i]);
        AnswersTogether(answers, a, Answers(c, Seen(), script[i + 1..]));
        answers := answers + [a];
        i := i + 1;
      }
      AnswersEnd(c, Seen(), script);
    }

    /** A WRITE is under way and has been given some bytes: the complete blocks among them are those
        that landed on the disk, in order, and the buffer holds the rest.  Once the target is in the
        status phase it has taken all its blocks, or the first that does not exist. */
    ghost predicate Taking(op: WriteOp, given: seq<Byte>, blocks: seq<Block>)
      reads this, data
    {
      && Valid() && disk && |image| == |op.view| && (forall b <- blocks :: |b| == blockSize)
      && Landed(op.view, View(), op.l, blocks, op.table, protect)
      && (phase == DataOut ==>
            && |blocks| < op.n && lba == op.l + |blocks| && counter == op.n - |blocks|
            && (|blocks| > 0 ==> lba <= |image|)
            && given == Flat(blocks) + data[..size] && status == Good
            && if protect then shadow.Table? == (op.table.Table? || |blocks| > 0) else shadow == op.table)
      && (phase != DataOut ==>
            && phase == StatusPhase && given == Flat(blocks)
            && if counter == 0 then |blocks| == op.n && status == Good && (op.n > 0 ==> op.l + op.n <= |image|)
               else 0 < |blocks| <= op.n && lba == op.l + |blocks| - 1 >= |image| && (|blocks| > 1 ==> lba == |image|)
                    && Missing())
    }

    /** SCSIdisk_Receive_Data keeps the account of a WRITE. */
    method Take(v: Byte, ghost op: WriteOp, ghost given: seq<Byte>, ghost blocks: seq<Block>)
      returns (ghost after: seq<Block>)
      requires Taking(op, given, blocks) && phase == DataOut
      modifies this`image, this`shadow, this`phase, this`size, this`limit, this`lba, this`counter, this`status,
               this`sense, data
      ensures Taking(op, given + [v], after) && (protect ==> image == old(image))
    {
      hide Uniform, Overlay, Landed, Takes, Flat;
      ghost var before, had, tail := View(), shadow, data[..size];
      ghost var full, present := size + 1 == limit, lba < |image|;
      ReceiveData(v);
      GroupTail(Flat(blocks), tail, v);
      after := blocks;
      if full {
        after := blocks + [tail + [v]];
        FlatAppend(blocks, tail + [v]);
        if present {
          LandedMore(op, before, View(), blocks, tail + [v], had, protect);
        } else {
          LandedBeyond(op, View(), blocks, tail + [v], protect);
        }
        GroupTail(Flat(after), [], v);
        assert data[..0] == [] && Flat(after) + [] == Flat(after);
      }
    }
  }
}
