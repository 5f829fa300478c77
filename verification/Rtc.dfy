/** The bit-serial interface of rtcnvram.c to the battery-backed RAM of both clock chips. */
module Rtc {

  // ----- bits of a byte

  /** v shifted right by n. */
  function Shr(v: nat, n: nat): (r: nat)
    decreases n
  {
    if n == 0 then v else Shr(v / 2, n - 1)
  }

  lemma {:induction false} ShrNext(v: nat, n: nat)
    ensures Shr(v, n + 1) == Shr(v, n) / 2
    decreases n
  {
    if n > 0 {
      ShrNext(v / 2, n - 1);
    }
  }

  lemma ShrByte(v: nat)
    requires v < 256
    ensures Shr(v, 8) == 0
  {
    assert Shr(v, 8) == v / 2 / 2 / 2 / 2 / 2 / 2 / 2 / 2;
  }

  /** An eight-bit register after one bit was shifted in from the right. */
  function Shifted(reg: nat, bit: nat): (r: nat)
  {
    (reg * 2 + bit) % 256
  }

  /** A register after the first k bits of v, highest first. */
  function After(reg: nat, v: nat, k: nat): (r: nat)
    requires k <= 8
  {
    if k == 0 then reg else Shifted(After(reg, v, k - 1), Shr(v, 8 - k) % 2)
  }

  /** The register without the truncation to eight bits. */
  function Wide(reg: nat, v: nat, k: nat): (r: nat)
    requires k <= 8
  {
    if k == 0 then reg else Wide(reg, v, k - 1) * 2 + Shr(v, 8 - k) % 2
  }

  lemma Doubled(x: nat, bit: nat)
    ensures Shifted(x % 256, bit) == (x * 2 + bit) % 256 == Shifted(x, bit)
  {
  }

  lemma {:induction false} AfterIsWide(reg: nat, v: nat, k: nat)
    requires k <= 8
    ensures After(reg, v, k) % 256 == Wide(reg, v, k) % 256 && (k > 0 ==> After(reg, v, k) < 256)
  {
    hide Shr, Shifted;
    if k > 0 {
      AfterIsWide(reg, v, k - 1);
      var bit := Shr(v, 8 - k) % 2;
      Doubled(After(reg, v, k - 1), bit);
      Doubled(Wide(reg, v, k - 1), bit);
      ShiftedSmall(After(reg, v, k - 1), bit);
    }
  }

  lemma ShiftedSmall(reg: nat, bit: nat)
    ensures Shifted(reg, bit) < 256
  {
  }

  /** One more bit: the register is p times the old one and the top bits of v. */
  lemma WideStep(reg: nat, v: nat, k: nat, p: nat)
    requires 1 <= k <= 8 && Wide(reg, v, k - 1) == p * reg + Shr(v, 9 - k)
    ensures Wide(reg, v, k) == 2 * (p * reg) + Shr(v, 8 - k)
  {
    hide Shr;
    ShrNext(v, 8 - k);
  }

  /** Eight bits replace the whole register. */
  lemma EightBits(reg: nat, v: nat)
    requires v < 256
    ensures After(reg, v, 8) == v
  {
    hide Shr, After, Wide;
    WideEight(reg, v);
    AfterIsWide(reg, v, 8);
    LowByte(reg, v);
  }

  lemma WideEight(reg: nat, v: nat)
    requires v < 256
    ensures Wide(reg, v, 8) == 256 * reg + v
  {
    hide Shr, Wide;
    ShrByte(v);
    WideStart(reg, v);
    WideStep(reg, v, 1, 1); WideStep(reg, v, 2, 2); WideStep(reg, v, 3, 4); WideStep(reg, v, 4, 8);
    WideStep(reg, v, 5, 16); WideStep(reg, v, 6, 32); WideStep(reg, v, 7, 64); WideStep(reg, v, 8, 128);
    ShrNone(v);
  }

  lemma LowByte(reg: nat, v: nat)
    requires v < 256
    ensures (256 * reg + v) % 256 == v
  {
  }

  lemma WideStart(reg: nat, v: nat)
    requires Shr(v, 8) == 0
    ensures Wide(reg, v, 0) == 1 * reg + Shr(v, 8)
  {
  }

  lemma ShrNone(v: nat)
    ensures Shr(v, 0) == v
  {
  }

  // ----- addresses

  predicate IsWrite(a: nat) { a / 128 % 2 == 1 }

  predicate IsClock(a: nat) { a / 32 % 2 == 1 }

  predicate IsNewRam(a: nat) { a / 64 % 2 == 1 }

  /** Where an access that is not to a clock register goes: the MC68HC68T1 uses seven address bits
      for its 32 cells, the MCCS1850 five in each of two banks (cells 32 to 63 are the second). */
  function Cell(mccs1850: bool, a: nat): (i: nat)
  {
    if !mccs1850 then a % 128 else if IsNewRam(a) then 32 + a % 32 else a % 32
  }

  function CellCount(mccs1850: bool): (n: nat)
  {
    if mccs1850 then 64 else 32
  }

  /** An access to RAM that stays inside it. */
  predicate InRam(mccs1850: bool, a: nat)
  {
    !IsClock(a) && Cell(mccs1850, a) < CellCount(mccs1850)
  }

  /** An access to RAM that does not. */
  predicate Outside(mccs1850: bool, a: nat)
  {
    !IsClock(a) && Cell(mccs1850, a) >= CellCount(mccs1850)
  }

  /** The address of the next byte of a burst. */
  function Next(mccs1850: bool, a: nat): (r: nat)
    requires a < 256
    ensures r < 256
  {
    if mccs1850 then (if a == 0x7F then 0x00 else if a == 0xFF then 0x80 else a + 1)
    else if a == 0x1F || a == 0x9F then 0x00
    else if a == 0x32 || a == 0xB2 then 0x20
    else (a + 1) % 256
  }

  /** The address of byte k of a burst. */
  function Nth(mccs1850: bool, a: nat, k: nat): (r: nat)
    requires a < 256
    ensures r < 256
  {
    if k == 0 then a else Next(mccs1850, Nth(mccs1850, a, k - 1))
  }

  /** The addresses of a burst go up one by one, except behind the last address of a bank. */
  lemma {:induction false} GoesUp(mccs1850: bool, a: nat, k: nat)
    requires a + k < 256
    requires mccs1850 ==> !(a <= 0x7F < a + k)
    requires !mccs1850 ==> !(a <= 0x1F < a + k) && !(a <= 0x32 < a + k) && !(a <= 0x9F < a + k) && !(a <= 0xB2 < a + k)
    ensures Nth(mccs1850, a, k) == a + k
  {
    if k > 0 {
      GoesUp(mccs1850, a, k - 1);
    }
  }

  /** There the MCCS1850 turns to the first address, of reading or of writing; and the MC68HC68T1 to the first
      address of its RAM or its registers for reading, even in the middle of writing. */
  lemma TurnsRound(a: nat)
    ensures a < 128 ==> Nth(true, a, 128 - a) == 0 && Nth(true, 128 + a, 128 - a) == 128
    ensures a < 32 ==> Nth(false, a, 32 - a) == Nth(false, 128 + a, 32 - a) == 0
    ensures a < 19 ==> Nth(false, 32 + a, 19 - a) == Nth(false, 160 + a, 19 - a) == 32
  {
    if a < 128 {
      GoesUp(true, a, 127 - a);
      GoesUp(true, 128 + a, 127 - a);
    }
    if a < 32 {
      GoesUp(false, a, 31 - a);
      GoesUp(false, 128 + a, 31 - a);
    }
    if a < 19 {
      GoesUp(false, 32 + a, 18 - a);
      GoesUp(false, 160 + a, 18 - a);
    }
  }

  // ----- which bursts stay inside the RAM

  /** The MCCS1850 never leaves its RAM. */
  lemma NewChipInside(a: nat)
    ensures !Outside(true, a)
  {
  }

  /** Addresses from which a burst on the MC68HC68T1 stays inside for ever: RAM and clock registers
      each form a cycle, and the upper registers lead into RAM. */
  predicate Settled(a: nat)
  {
    a % 128 < 0x33 || a % 128 >= 0x60
  }

  lemma SettledStays(a: nat)
    requires a < 256 && Settled(a)
    ensures Settled(Next(false, a)) && !Outside(false, a)
  {
    SettledNext(a % 128, a / 128);
  }

  lemma SettledNext(low: nat, high: nat)
    requires low < 128 && high < 2 && (low < 0x33 || low >= 0x60)
    ensures Settled(Next(false, 128 * high + low)) && !Outside(false, 128 * high + low)
  {
    assert high == 0 || high == 1;
  }

  lemma {:induction false} SettledForEver(a: nat, k: nat)
    requires a < 256 && Settled(a)
    ensures Settled(Nth(false, a, k)) && !Outside(false, Nth(false, a, k))
  {
    if k > 0 {
      SettledForEver(a, k - 1);
      SettledStays(Nth(false, a, k - 1));
    }
    SettledStays(Nth(false, a, k));
  }

  /** From 0x33 to 0x3F a burst counts up to 0x40, the first address outside. */
  lemma {:induction false} RunsUp(a: nat, k: nat)
    requires a < 256 && 0x33 <= a % 128 < 0x40 && a % 128 + k <= 0x40
    ensures Nth(false, a, k) == a + k && (Outside(false, a + k) <==> a % 128 + k == 0x40)
  {
    hide Outside, Next;
    UpperEdge(a, k);
    if k > 0 {
      RunsUp(a, k - 1);
      UpperEdge(a, k - 1);
      Bounded(a, k - 1);
      CountsUp(a + k - 1);
    }
  }

  lemma Bounded(a: nat, k: nat)
    requires a < 256 && 0x33 <= a % 128 < 0x40 && a % 128 + k < 0x40
    ensures a + k < 256
  {
  }

  lemma CountsUp(a: nat)
    requires a < 256 && 0x33 <= a % 128 < 0x40
    ensures Next(false, a) == a + 1 && (a + 1) % 128 == a % 128 + 1
  {
  }

  lemma UpperEdge(a: nat, k: nat)
    requires a < 256 && 0x33 <= a % 128 < 0x40 && a % 128 + k <= 0x40
    ensures (a + k) % 128 == a % 128 + k && (Outside(false, a + k) <==> a % 128 + k == 0x40)
  {
    var low, high := a % 128, a / 128;
    assert a == 128 * high + low && high < 2;
    EdgeAt(high, low + k);
  }

  lemma EdgeAt(high: nat, low: nat)
    requires high < 2 && 0x33 <= low <= 0x40
    ensures (128 * high + low) % 128 == low && (Outside(false, 128 * high + low) <==> low == 0x40)
  {
    assert high == 0 || high == 1;
  }

  /** Exactly the bursts of n bytes from address a on the MC68HC68T1 that stay inside. */
  predicate StaysInside(a: nat, n: nat)
  {
    Settled(a) || n == 0 || (0x33 <= a % 128 < 0x40 && a % 128 + n <= 0x40)
  }

  lemma InsideIff(a: nat, n: nat)
    requires a < 256
    ensures StaysInside(a, n) <==> forall k :: 0 <= k < n ==> !Outside(false, Nth(false, a, k))
  {
    hide Outside, Nth;
    if StaysInside(a, n) {
      forall k | 0 <= k < n
        ensures !Outside(false, Nth(false, a, k))
      {
        InsideAt(a, n, k);
      }
    } else {
      var k := FoundOutside(a, n);
    }
  }

  lemma InsideAt(a: nat, n: nat, k: nat)
    requires a < 256 && k < n && StaysInside(a, n)
    ensures !Outside(false, Nth(false, a, k))
  {
    hide Outside, Nth;
    if Settled(a) {
      SettledForEver(a, k);
    } else {
      RunsUp(a, k);
    }
  }

  lemma FoundOutside(a: nat, n: nat) returns (k: nat)
    requires a < 256 && !StaysInside(a, n)
    ensures k < n && Outside(false, Nth(false, a, k))
  {
    hide Outside, Nth;
    if a % 128 < 0x40 {
      k := 0x40 - a % 128;
      RunsUp(a, k);
    } else {
      k := 0;
      FirstOutside(a, k);
    }
  }

  lemma FirstOutside(a: nat, k: nat)
    requires a < 256 && 0x40 <= a % 128 < 0x60 && k == 0
    ensures Outside(false, Nth(false, a, k))
  {
  }

  // ----- bursts

  /** The bits of a byte, highest first. */
  function Bits(v: nat): (b: seq<nat>)
    ensures |b| == 8 && forall j :: 0 <= j < 8 ==> b[j] == Shr(v, 7 - j) % 2
  {
    seq(8, j requires 0 <= j < 8 => Shr(v, 7 - j) % 2)
  }

  /** The chip in use, what its clock registers read as, and what lies outside its RAM. */
  datatype Chip = Chip(mccs1850: bool, clock: nat -> nat, beyond: nat -> nat)

  /** The cells, and whether an access has left them. */
  datatype Ram = Ram(cells: seq<nat>, strayed: bool)

  predicate Fits(m: Ram)
  {
    |m.cells| == 64
  }

  /** What a read access finds. */
  function Loaded(c: Chip, m: Ram, a: nat): (v: nat)
    requires Fits(m)
  {
    if IsClock(a) then c.clock(a) else if InRam(c.mccs1850, a) then m.cells[Cell(c.mccs1850, a)] else c.beyond(a)
  }

  /** One byte exchanged at an address: v is clocked in, and the bits of the result come out. */
  function Exchanged(c: Chip, m: Ram, a: nat, v: nat): (r: (Ram, seq<nat>))
    requires Fits(m)
    ensures Fits(r.0)
  {
    var strayed := m.strayed || Outside(c.mccs1850, a);
    if IsWrite(a)
    then (Ram(if InRam(c.mccs1850, a) then m.cells[Cell(c.mccs1850, a) := v] else m.cells, strayed), Bits(v))
    else (m.(strayed := strayed), Bits(Loaded(c, m, a)))
  }

  /** A burst that starts at address a. */
  function Burst(c: Chip, m: Ram, a: nat, bytes: seq<nat>): (r: (Ram, seq<seq<nat>>))
    requires Fits(m) && a < 256
    ensures Fits(r.0) && |r.1| == |bytes|
  {
    if bytes == [] then (m, [])
    else
      var n := |bytes| - 1;
      var (before, out) := Burst(c, m, a, bytes[..n]);
      var (after, bits) := Exchanged(c, before, Nth(c.mccs1850, a, n), bytes[n]);
      (after, out + [bits])
  }

  /** An access to a clock register reads what the clock shows, and neither reading nor writing one changes a
      cell. */
  lemma ClockByte(c: Chip, m: Ram, a: nat, v: nat)
    requires Fits(m) && a < 128 && a / 32 % 2 == 1
    ensures Burst(c, m, a, [v]) == (m, [Bits(c.clock(a))])
    ensures Burst(c, m, a + 128, [v]).0 == m
  {
    hide Bits, IsClock, IsWrite, Cell, Burst;
    OneByte(c, m, a, v);
    OneByte(c, m, a + 128, v);
    WriteBit(a);
  }

  lemma WriteBit(a: nat)
    requires a < 128 && a / 32 % 2 == 1
    ensures IsClock(a) && IsClock(a + 128) && !IsWrite(a) && IsWrite(a + 128)
  {
    assert a / 32 == 1 || a / 32 == 3;
    assert (a + 128) / 32 == a / 32 + 4;
  }

  /** A burst strays exactly if one of its addresses lies outside. */
  lemma {:induction false} StraysIff(c: Chip, m: Ram, a: nat, bytes: seq<nat>)
    requires Fits(m) && a < 256
    ensures Burst(c, m, a, bytes).0.strayed <==>
              m.strayed || exists k :: 0 <= k < |bytes| && Outside(c.mccs1850, Nth(c.mccs1850, a, k))
  {
    hide Outside, Nth;
    if bytes != [] {
      var n := |bytes| - 1;
      StraysIff(c, m, a, bytes[..n]);
      var r := Burst(c, m, a, bytes).0;
      assert r.strayed == (Burst(c, m, a, bytes[..n]).0.strayed || Outside(c.mccs1850, Nth(c.mccs1850, a, n)));
      if exists k :: 0 <= k < |bytes| && Outside(c.mccs1850, Nth(c.mccs1850, a, k)) {
        var k :| 0 <= k < |bytes| && Outside(c.mccs1850, Nth(c.mccs1850, a, k));
        assert k == n || k < |bytes[..n]|;
      }
    }
  }

  /** Exactly which bursts stay inside the RAM: all of those on the MCCS1850; on the MC68HC68T1 those
      from 0x00 to 0x32 and from 0x60 on (with or without the write bit), and those from 0x33 to 0x3F
      that end before 0x40. */
  lemma BurstInsideIff(c: Chip, m: Ram, a: nat, bytes: seq<nat>)
    requires Fits(m) && a < 256 && !m.strayed
    ensures !Burst(c, m, a, bytes).0.strayed <==> c.mccs1850 || StaysInside(a, |bytes|)
  {
    hide Outside, Nth, Burst, StaysInside;
    StraysIff(c, m, a, bytes);
    if c.mccs1850 {
      forall k | 0 <= k < |bytes|
        ensures !Outside(c.mccs1850, Nth(c.mccs1850, a, k))
      {
        NewChipInside(Nth(c.mccs1850, a, k));
      }
    } else {
      InsideIff(a, |bytes|);
      assert c.mccs1850 == false;
    }
  }

  /** Address 0x40, written or read, is outside the RAM of the MC68HC68T1. */
  lemma FortyStrays(c: Chip, m: Ram, v: nat)
    requires Fits(m) && !c.mccs1850
    ensures Burst(c, m, 0x40, [v]).0.strayed && Burst(c, m, 0xC0, [v]).0.strayed
  {
    hide Nth, Outside, Bits, Loaded, InRam;
    OneByte(c, m, 0x40, v);
    OneByte(c, m, 0xC0, v);
    FirstOutside(0x40, 0);
    FirstOutside(0xC0, 0);
  }

  lemma OneByte(c: Chip, m: Ram, a: nat, v: nat)
    requires Fits(m) && a < 256
    ensures var (after, bits) := Exchanged(c, m, Nth(c.mccs1850, a, 0), v); Burst(c, m, a, [v]) == (after, [bits])
  {
    hide Exchanged, Nth;
    assert [v][..0] == [] && Burst(c, m, a, []) == (m, []);
    var bits := Exchanged(c, m, Nth(c.mccs1850, a, 0), v).1;
    assert [] + [bits] == [bits];
  }

  /** Inside a bank the address counts up. */
  lemma {:induction false} InBank(mccs1850: bool, a: nat, k: nat)
    requires a < 128 && InRam(mccs1850, a) && a % 32 + k < 32
    ensures Nth(mccs1850, a, k) == a + k < 128 && Nth(mccs1850, a + 128, k) == a + 128 + k
    ensures InRam(mccs1850, a + k) && InRam(mccs1850, a + 128 + k) && !IsWrite(a + k) && IsWrite(a + 128 + k)
    ensures Cell(mccs1850, a + k) == Cell(mccs1850, a + 128 + k) == Cell(mccs1850, a) + k < 64
  {
    hide Next;
    BankStep(mccs1850, a, k);
    if k > 0 {
      InBank(mccs1850, a, k - 1);
      BankNext(mccs1850, a, k - 1);
    }
  }

  lemma BankStep(mccs1850: bool, a: nat, k: nat)
    requires a < 128 && InRam(mccs1850, a) && a % 32 + k < 32
    ensures a + k < 128 && InRam(mccs1850, a + k) && InRam(mccs1850, a + 128 + k) && !IsWrite(a + k)
            && IsWrite(a + 128 + k)
    ensures Cell(mccs1850, a + k) == Cell(mccs1850, a + 128 + k) == Cell(mccs1850, a) + k < 64
  {
  }

  lemma BankNext(mccs1850: bool, a: nat, k: nat)
    requires a < 128 && InRam(mccs1850, a) && a % 32 + k < 31
    ensures Next(mccs1850, a + k) == a + k + 1 && Next(mccs1850, a + 128 + k) == a + 128 + k + 1
  {
  }

  /** A burst written inside a bank stores exactly its bytes. */
  lemma {:induction false} WriteInBank(c: Chip, m: Ram, a: nat, bytes: seq<nat>)
    requires Fits(m) && a < 128 && InRam(c.mccs1850, a) && a % 32 + |bytes| <= 32
    ensures var i, r := Cell(c.mccs1850, a), Burst(c, m, a + 128, bytes).0;
            i + |bytes| <= 64 && r.strayed == m.strayed && r.cells == m.cells[..i] + bytes + m.cells[i + |bytes|..]
  {
    hide InRam, Cell, Nth, IsWrite, Outside, Bits, Exchanged;
    var i := Cell(c.mccs1850, a);
    CellBound(c.mccs1850, a);
    if bytes == [] {
      assert m.cells[..i] + [] + m.cells[i..] == m.cells;
    } else {
      var n := |bytes| - 1;
      WriteInBank(c, m, a, bytes[..n]);
      InBank(c.mccs1850, a, n);
      StoreStep(c, Burst(c, m, a + 128, bytes[..n]).0, a + 128 + n, bytes[n]);
      Replace(m.cells, bytes, i, n);
      assert bytes[..n + 1] == bytes && bytes[..n][..n] == bytes[..n];
    }
  }

  lemma StoreStep(c: Chip, m: Ram, a: nat, v: nat)
    requires Fits(m) && IsWrite(a) && InRam(c.mccs1850, a)
    ensures Cell(c.mccs1850, a) < 64 && Exchanged(c, m, a, v).0 == m.(cells := m.cells[Cell(c.mccs1850, a) := v])
  {
  }

  lemma LoadStep(c: Chip, m: Ram, a: nat, v: nat)
    requires Fits(m) && !IsWrite(a) && InRam(c.mccs1850, a)
    ensures Cell(c.mccs1850, a) < 64 && Exchanged(c, m, a, v) == (m, Bits(m.cells[Cell(c.mccs1850, a)]))
  {
  }

  lemma CellBound(mccs1850: bool, a: nat)
    requires InRam(mccs1850, a)
    ensures Cell(mccs1850, a) < 64
  {
  }

  lemma Replace(was: seq<nat>, bytes: seq<nat>, i: nat, n: nat)
    requires n < |bytes| && i + n < |was|
    ensures (was[..i] + bytes[..n] + was[i + n..])[i + n := bytes[n]] == was[..i] + bytes[..n + 1] + was[i + n + 1..]
  {
  }

  /** A burst read inside a bank gives the bits of its cells. */
  lemma {:induction false} ReadInBank(c: Chip, m: Ram, a: nat, bytes: seq<nat>)
    requires Fits(m) && a < 128 && InRam(c.mccs1850, a) && a % 32 + |bytes| <= 32
    ensures var i, r := Cell(c.mccs1850, a), Burst(c, m, a, bytes);
            i + |bytes| <= 64 && r.0 == m && forall k :: 0 <= k < |bytes| ==> r.1[k] == Bits(m.cells[i + k])
  {
    hide InRam, Cell, Nth, IsWrite, Outside, Bits, Exchanged;
    CellBound(c.mccs1850, a);
    if bytes != [] {
      var n := |bytes| - 1;
      ReadInBank(c, m, a, bytes[..n]);
      InBank(c.mccs1850, a, n);
      LoadStep(c, m, a + n, bytes[n]);
    }
  }

  // ----- addresses are places of their own

  /** The addresses of RAM below the write bit. */
  lemma RamAddresses(mccs1850: bool, a: nat)
    requires a < 128
    ensures InRam(mccs1850, a) <==> a < 32 || (mccs1850 && 64 <= a < 96)
  {
  }

  lemma CellIs(mccs1850: bool, a: nat)
    requires a < 32 || (mccs1850 && 64 <= a < 96)
    ensures Cell(mccs1850, a) == (if a < 32 then a else a - 32) && a % 32 == if a < 32 then a else a - 64
  {
  }

  lemma CellsApart(mccs1850: bool, a: nat, b: nat, n: nat)
    requires a < 32 || (mccs1850 && 64 <= a < 96)
    requires b < 32 || (mccs1850 && 64 <= b < 96)
    requires b % 32 + n <= 32
    ensures Cell(mccs1850, a) < 64 && Cell(mccs1850, b) + n <= 64
    ensures Cell(mccs1850, b) <= Cell(mccs1850, a) < Cell(mccs1850, b) + n <==> b <= a < b + n
    ensures b <= a < b + n ==> Cell(mccs1850, a) - Cell(mccs1850, b) == a - b
  {
    hide Cell;
    CellIs(mccs1850, a);
    CellIs(mccs1850, b);
  }

  /** A burst written at b changes what is read at a exactly if it has a byte for a: then that byte is
      read, and otherwise what was there before. */
  lemma ReadsLast(c: Chip, m: Ram, a: nat, b: nat, bytes: seq<nat>)
    requires Fits(m) && (a < 32 || (c.mccs1850 && 64 <= a < 96)) && (b < 32 || (c.mccs1850 && 64 <= b < 96))
    requires b % 32 + |bytes| <= 32
    ensures var after := Burst(c, m, b + 128, bytes).0;
            Burst(c, after, a, [0]).1 == if b <= a < b + |bytes| then [Bits(bytes[a - b])] else Burst(c, m, a, [0]).1
  {
    hide InRam, Cell, Burst, Bits;
    var i, j, after := Cell(c.mccs1850, a), Cell(c.mccs1850, b), Burst(c, m, b + 128, bytes).0;
    RamAddresses(c.mccs1850, a);
    RamAddresses(c.mccs1850, b);
    CellsApart(c.mccs1850, a, b, |bytes|);
    WriteInBank(c, m, b, bytes);
    ReadInBank(c, m, a, [0]);
    ReadInBank(c, after, a, [0]);
    assert after.cells[i] == if j <= i < j + |bytes| then bytes[i - j] else m.cells[i];
  }

  /** Two bursts without a common address can be written in either order. */
  lemma EitherOrder(c: Chip, m: Ram, a: nat, x: seq<nat>, b: nat, y: seq<nat>)
    requires Fits(m) && (a < 32 || (c.mccs1850 && 64 <= a < 96)) && (b < 32 || (c.mccs1850 && 64 <= b < 96))
    requires a % 32 + |x| <= 32 && b % 32 + |y| <= 32 && (a + |x| <= b || b + |y| <= a)
    ensures Burst(c, Burst(c, m, a + 128, x).0, b + 128, y).0 == Burst(c, Burst(c, m, b + 128, y).0, a + 128, x).0
  {
    hide InRam, Cell, Burst;
    var i, j := Cell(c.mccs1850, a), Cell(c.mccs1850, b);
    RamAddresses(c.mccs1850, a);
    RamAddresses(c.mccs1850, b);
    BanksApart(c.mccs1850, a, |x|, b, |y|);
    WriteInBank(c, m, a, x);
    WriteInBank(c, m, b, y);
    WriteInBank(c, Burst(c, m, a + 128, x).0, b, y);
    WriteInBank(c, Burst(c, m, b + 128, y).0, a, x);
    if i + |x| <= j {
      SplicesCommute(m.cells, i, x, j, y);
    } else {
      SplicesCommute(m.cells, j, y, i, x);
    }
  }

  lemma SplicesCommute(s: seq<nat>, i: nat, x: seq<nat>, j: nat, y: seq<nat>)
    requires i + |x| <= j && j + |y| <= |s|
    ensures var p, q := s[..i] + x + s[i + |x|..], s[..j] + y + s[j + |y|..];
            |p| == |q| == |s| && p[..j] + y + p[j + |y|..] == q[..i] + x + q[i + |x|..]
  {
    var p, q := s[..i] + x + s[i + |x|..], s[..j] + y + s[j + |y|..];
    var both := s[..i] + x + s[i + |x|..j] + y + s[j + |y|..];
    assert p[..j] == s[..i] + x + s[i + |x|..j] && p[j + |y|..] == s[j + |y|..];
    assert q[..i] == s[..i] && q[i + |x|..] == s[i + |x|..j] + y + s[j + |y|..];
    assert p[..j] + y + p[j + |y|..] == both;
    assert q[..i] + x + q[i + |x|..] == both;
  }

  lemma BanksApart(mccs1850: bool, a: nat, n: nat, b: nat, k: nat)
    requires (a < 32 || (mccs1850 && 64 <= a < 96)) && (b < 32 || (mccs1850 && 64 <= b < 96))
    requires a % 32 + n <= 32 && b % 32 + k <= 32 && (a + n <= b || b + k <= a)
    ensures Cell(mccs1850, a) + n <= Cell(mccs1850, b) || Cell(mccs1850, b) + k <= Cell(mccs1850, a)
  {
    hide Cell;
    CellIs(mccs1850, a);
    CellIs(mccs1850, b);
  }

  // ----- reading back

  function Zeros(n: nat): (s: seq<nat>)
    ensures |s| == n && forall k :: 0 <= k < n ==> s[k] == 0
  {
    seq(n, k => 0)
  }

  /** A burst written from address a is read back, bit for bit, by a burst from the same address. */
  predicate ReadBack(c: Chip, m: Ram, a: nat, bytes: seq<nat>)
    requires Fits(m) && a < 128
  {
    var out := Burst(c, Burst(c, m, a + 128, bytes).0, a, Zeros(|bytes|)).1;
    forall k :: 0 <= k < |bytes| ==> out[k] == Bits(bytes[k])
  }

  lemma ReadBackInBank(c: Chip, m: Ram, a: nat, bytes: seq<nat>)
    requires Fits(m) && a < 128 && InRam(c.mccs1850, a) && a % 32 + |bytes| <= 32
    ensures ReadBack(c, m, a, bytes)
  {
    hide Burst, Bits;
    WriteInBank(c, m, a, bytes);
    ReadInBank(c, Burst(c, m, a + 128, bytes).0, a, Zeros(|bytes|));
  }

  /** The first byte of a burst that runs past its bank. */
  function Past(a: nat): (k: nat)
    ensures 1 <= k <= 32
  {
    32 - a % 32
  }

  /** A burst that reads zeros only, or nothing at all, leaves zeros as they are. */
  lemma {:induction false} ZerosStay(c: Chip, a: nat, bytes: seq<nat>)
    requires a < 256
    requires forall k :: 0 <= k < |bytes| ==>
               bytes[k] == 0 || !(IsWrite(Nth(c.mccs1850, a, k)) && InRam(c.mccs1850, Nth(c.mccs1850, a, k)))
    ensures Burst(c, Ram(Zeros(64), false), a, bytes).0.cells == Zeros(64)
  {
    hide InRam, IsWrite, Nth, Bits, Outside, Loaded;
    if bytes != [] {
      var n := |bytes| - 1;
      ZerosStay(c, a, bytes[..n]);
      assert Zeros(64)[Small(Cell(c.mccs1850, Nth(c.mccs1850, a, n))) := 0] == Zeros(64);
    }
  }

  function Small(i: nat): (r: nat)
    ensures r < 64 && (i < 64 ==> r == i)
  {
    if i < 64 then i else 0
  }

  /** Just past its bank a burst is reading on the MC68HC68T1, and at a clock register on the MCCS1850. */
  lemma PastBank(mccs1850: bool, a: nat)
    requires a < 128 && InRam(mccs1850, a)
    ensures var w, r := Nth(mccs1850, a + 128, Past(a)), Nth(mccs1850, a, Past(a));
            && !(IsWrite(w) && InRam(mccs1850, w)) && !IsWrite(r) && (IsClock(r) || r == 0)
  {
    hide InRam, IsWrite, IsClock, Next;
    InBank(mccs1850, a, Past(a) - 1);
    LastOfBank(a);
    Edge(mccs1850, a + Past(a) - 1);
  }

  lemma LastOfBank(a: nat)
    ensures (a + Past(a) - 1) % 32 == 31
  {
  }

  lemma Edge(mccs1850: bool, e: nat)
    requires e < 128 && InRam(mccs1850, e) && e % 32 == 31
    ensures var w, r := Next(mccs1850, e + 128), Next(mccs1850, e);
            && !(IsWrite(w) && InRam(mccs1850, w)) && !IsWrite(r) && (IsClock(r) || r == 0)
  {
  }

  /** One nonzero byte, just past the bank. */
  function Probe(a: nat, n: nat): (s: seq<nat>)
    ensures |s| == n && forall k :: 0 <= k < n ==> s[k] == if k == Past(a) then 1 else 0
  {
    seq(n, k => if k == Past(a) then 1 else 0)
  }

  lemma {:induction false} BurstAt(c: Chip, m: Ram, a: nat, bytes: seq<nat>, k: nat)
    requires Fits(m) && a < 256 && k < |bytes|
    ensures Burst(c, m, a, bytes).1[k] == Exchanged(c, Burst(c, m, a, bytes[..k]).0, Nth(c.mccs1850, a, k), bytes[k]).1
    decreases |bytes|
  {
    hide Exchanged, Nth;
    var n := |bytes| - 1;
    if k < n {
      BurstAt(c, m, a, bytes[..n], k);
      assert bytes[..n][..k] == bytes[..k];
    }
  }

  /** A burst that runs past its bank need not be read back. */
  lemma NotReadBack(mccs1850: bool, a: nat, n: nat)
    requires a < 128 && InRam(mccs1850, a) && a % 32 + n > 32
    ensures !ReadBack(Chip(mccs1850, x => 0, x => 0), Ram(Zeros(64), false), a, Probe(a, n))
  {
    hide Burst, Bits, InRam, IsWrite, Nth, Outside;
    var c, m, p := Chip(mccs1850, x => 0, x => 0), Ram(Zeros(64), false), Past(a);
    PastBank(mccs1850, a);
    ZerosStay(c, a + 128, Probe(a, n));
    var w := Burst(c, m, a + 128, Probe(a, n)).0;
    BurstAt(c, w, a, Zeros(n), p);
    ReadsZero(c, w, a, n, p);
    BitsDiffer();
    assert Probe(a, n)[p] == 1;
  }

  /** Reading with all cells and registers zero gives zero. */
  lemma ReadsZero(c: Chip, w: Ram, a: nat, n: nat, p: nat)
    requires w.cells == Zeros(64) && a < 128 && p < n && (forall x :: c.clock(x) == 0)
    requires var r := Nth(c.mccs1850, a, p); !IsWrite(r) && (IsClock(r) || r == 0)
    ensures var before := Burst(c, w, a, Zeros(n)[..p]).0; Exchanged(c, before, Nth(c.mccs1850, a, p), 0).1 == Bits(0)
  {
    hide Burst, Bits, Nth;
    assert Zeros(n)[..p] == Zeros(p);
    ReadingKeeps(c, w, a, p);
  }

  /** Zeros clocked in never change zeros. */
  lemma {:induction false} ReadingKeeps(c: Chip, w: Ram, a: nat, p: nat)
    requires w.cells == Zeros(64) && a < 256
    ensures Burst(c, w, a, Zeros(p)).0.cells == Zeros(64)
  {
    hide InRam, IsWrite, Nth, Bits, Outside, Loaded;
    if p > 0 {
      assert Zeros(p)[..p - 1] == Zeros(p - 1);
      ReadingKeeps(c, w, a, p - 1);
      assert Zeros(64)[Small(Cell(c.mccs1850, Nth(c.mccs1850, a, p - 1))) := 0] == Zeros(64);
    }
  }

  lemma BitsDiffer()
    ensures Bits(0) != Bits(1)
  {
    assert Bits(0)[7] == Shr(0, 0) % 2 == 0;
    assert Bits(1)[7] == Shr(1, 0) % 2 == 1;
  }

  /** Whatever the cells, the clock and the data: a burst of n bytes from address a is read back. */
  ghost predicate AlwaysReadBack(mccs1850: bool, a: nat, n: nat)
    requires a < 128
  {
    forall c: Chip, m, bytes :: c.mccs1850 == mccs1850 && Fits(m) && |bytes| == n ==> ReadBack(c, m, a, bytes)
  }

  /** A burst is read back for sure exactly if it ends in its bank. */
  lemma ReadBackIff(mccs1850: bool, a: nat, n: nat)
    requires a < 128 && InRam(mccs1850, a)
    ensures AlwaysReadBack(mccs1850, a, n) <==> a % 32 + n <= 32
  {
    hide ReadBack, InRam;
    if a % 32 + n <= 32 {
      forall c: Chip, m, bytes | c.mccs1850 == mccs1850 && Fits(m) && |bytes| == n
        ensures ReadBack(c, m, a, bytes)
      {
        ReadBackInBank(c, m, a, bytes);
      }
    } else {
      NotReadBack(mccs1850, a, n);
      assert !ReadBack(Chip(mccs1850, x => 0, x => 0), Ram(Zeros(64), false), a, Probe(a, n));
    }
  }

  // ----- the serial interface

  class Interface {
    const mccs1850: bool
    const cells: array<nat>
    /** What the clock registers read as, and what lies outside the RAM. */
    var clock: nat -> nat
    var beyond: nat -> nat
    var phase: nat
    var addr: nat
    var val: nat
    var data: nat
    /** An access has left the RAM. */
    var strayed: bool

    constructor (mccs1850: bool)
      ensures Valid() && this.mccs1850 == mccs1850 && phase == 0 && !strayed && fresh(cells)
    {
      this.mccs1850 := mccs1850;
      cells := new nat[64](i => 0);
      clock, beyond := a => 0, a => 0;
      phase, addr, val, data, strayed := 0, 0, 0, 0, false;
    }

    /** The phase stays in range. */
    ghost predicate Valid()
      reads this
    {
      cells.Length == 64 && phase < 16 && addr < 256
    }

    ghost function Here(): (c: Chip)
      reads this
    {
      Chip(mccs1850, clock, beyond)
    }

    ghost function Contents(): (m: Ram)
      reads this, cells
      requires cells.Length == 64
      ensures Fits(m)
    {
      Ram(cells[..], strayed)
    }

    /** rtc_interface_reset. */
    method Reset(turbo: bool)
      modifies this`phase, this`addr, this`val, this`data
      ensures phase == addr == val == 0 && data == if turbo then 0 else 1
    {
      phase, addr, val := 0, 0, 0;
      data := if turbo then 0 else 1;
    }

    /** oldrtc_interface_io and newrtc_interface_io: one bit in, one bit out. */
    method Io(bit: nat) returns (out: nat)
      requires Valid() && bit < 2
      modifies this`phase, this`addr, this`val, this`strayed, cells
      ensures Valid() && out < 2
      ensures old(phase) < 8 ==>
                phase == old(phase) + 1 && addr == Shifted(old(addr), bit) && val == old(val) && out == bit
      ensures 8 <= old(phase) < 15 ==> phase == old(phase) + 1 && addr == old(addr)
      ensures old(phase) == 15 ==> phase == 8 && addr == Next(mccs1850, old(addr))
      ensures old(phase >= 8 && IsWrite(addr)) ==> val == Shifted(old(val), bit) && out == bit
      ensures old(phase >= 8 && !IsWrite(addr)) ==>
                val == (if old(phase) > 8 then old(val) else Loaded(Here(), old(Contents()), old(addr)))
                && out == Shr(val, 15 - old(phase)) % 2
      ensures Contents() ==
                  if old(phase == 15 && IsWrite(addr)) then Exchanged(Here(), old(Contents()), old(addr), val).0
                            else if old(phase == 8 && !IsWrite(addr))
                                 then Exchanged(Here(), old(Contents()), old(addr), 0).0
                            else old(Contents())
    {
      hide Shifted, Shr, Next, Bits;
      phase := phase + 1;
      out := bit;
      if phase <= 8 {
        ShiftedSmall(addr, bit);
        addr := Shifted(addr, bit);
        return;
      }
      if phase == 9 && !IsWrite(addr) {
        if IsClock(addr) {
          val := clock(addr);
        } else if Cell(mccs1850, addr) < CellCount(mccs1850) {
          val := cells[Cell(mccs1850, addr)];
        } else {
          val := beyond(addr);
          strayed := true;
        }
      }
      if IsWrite(addr) {
        val := Shifted(val, bit);
      } else {
        out := Shr(val, 16 - phase) % 2;
      }
      if phase == 16 {
        if IsWrite(addr) && !IsClock(addr) {
          if Cell(mccs1850, addr) < CellCount(mccs1850) {
            cells[Cell(mccs1850, addr)] := val;
          } else {
            strayed := true;
          }
        }
        addr := Next(mccs1850, addr);
        phase := phase - 8;
      }
    }

    /** The address byte, right after a reset. */
    method SendAddress(a: nat)
      requires Valid() && phase == addr == 0 && a < 256
      modifies this`phase, this`addr, this`val, this`strayed, cells
      ensures Valid() && phase == 8 && addr == a && Contents() == old(Contents())
    {
      hide Shifted, Shr, Next, Exchanged, Loaded;
      var k := 0;
      while k < 8
        invariant 0 <= k <= 8 && Valid() && phase == k && addr == After(0, a, k) && Contents() == old(Contents())
      {
        var out := Io(Shr(a, 7 - k) % 2);
        k := k + 1;
      }
      EightBits(0, a);
    }

    /** Eight bits in and eight out. */
    method ExchangeByte(v: nat) returns (bits: seq<nat>)
      requires Valid() && phase == 8 && v < 256
      modifies this`phase, this`addr, this`val, this`strayed, cells
      ensures Valid() && phase == 8 && addr == Next(mccs1850, old(addr))
      ensures (Contents(), bits) == Exchanged(Here(), old(Contents()), old(addr), v)
    {
      if IsWrite(addr) {
        bits := WriteByte(v);
      } else {
        bits := ReadByte(v);
      }
    }

    method WriteByte(v: nat) returns (bits: seq<nat>)
      requires Valid() && phase == 8 && v < 256 && IsWrite(addr)
      modifies this`phase, this`addr, this`val, this`strayed, cells
      ensures Valid() && phase == 8 && addr == Next(mccs1850, old(addr))
      ensures bits == Bits(v) && Contents() == Exchanged(Here(), old(Contents()), old(addr), v).0
    {
      hide Shifted, Shr, Next, Exchanged, Loaded, IsWrite;
      ghost var was := val;
      bits := [];
      while |bits| < 7
        invariant |bits| <= 7 && Valid() && phase == 8 + |bits| && addr == old(addr) && val == After(was, v, |bits|)
                  && Contents() == old(Contents())
        invariant forall j :: 0 <= j < |bits| ==> bits[j] == Shr(v, 7 - j) % 2
      {
        var out := Io(Shr(v, 7 - |bits|) % 2);
        bits := bits + [out];
      }
      var out := Io(Shr(v, 0) % 2);
      bits := bits + [out];
      EightBits(was, v);
    }

    method ReadByte(v: nat) returns (bits: seq<nat>)
      requires Valid() && phase == 8 && v < 256 && !IsWrite(addr)
      modifies this`phase, this`addr, this`val, this`strayed, cells
      ensures Valid() && phase == 8 && addr == Next(mccs1850, old(addr))
      ensures (Contents(), bits) == Exchanged(Here(), old(Contents()), old(addr), v)
    {
      hide Shifted, Shr, Next, Exchanged, Loaded, IsWrite;
      ghost var m, found := Contents(), Loaded(Here(), Contents(), addr);
      ReadAlike(Here(), m, addr, v);
      bits := [];
      while |bits| < 8
        invariant |bits| <= 8 && Valid()
        invariant if |bits| < 8 then phase == 8 + |bits| && addr == old(addr)
                  else phase == 8 && addr == Next(mccs1850, old(addr))
        invariant Contents() == if |bits| == 0 then m else Exchanged(Here(), m, old(addr), v).0
        invariant |bits| > 0 ==> val == found
        invariant forall j :: 0 <= j < |bits| ==> bits[j] == Shr(found, 7 - j) % 2
      {
        var out := Io(Shr(v, 7 - |bits|) % 2);
        bits := bits + [out];
      }
      assert bits == Bits(found);
    }

    /** A whole burst: reset, address, and any number of bytes. */
    method Exchange(a: nat, bytes: seq<nat>) returns (out: seq<seq<nat>>)
      requires Valid() && a < 256 && forall v <- bytes :: v < 256
      modifies this`phase, this`addr, this`val, this`data, this`strayed, cells
      ensures Valid() && phase == 8 && addr == Nth(mccs1850, a, |bytes|)
      ensures (Contents(), out) == Burst(Here(), old(Contents()), a, bytes)
    {
      hide Exchanged, Next;
      Reset(false);
      SendAddress(a);
      ghost var m := Contents();
      out := [];
      assert bytes[..0] == [];
      while |out| < |bytes|
        invariant |out| <= |bytes| && Valid() && phase == 8 && addr == Nth(mccs1850, a, |out|)
        invariant (Contents(), out) == Burst(Here(), m, a, bytes[..|out|])
      {
        assert bytes[|out|] in bytes && bytes[..|out| + 1][..|out|] == bytes[..|out|];
        var bits := ExchangeByte(bytes[|out|]);
        out := out + [bits];
      }
      assert bytes[..|out|] == bytes;
    }

    /** What a burst wrote inside its bank, a later burst reads bit for bit; no other cell changes. */
    method WriteThenRead(a: nat, bytes: seq<nat>) returns (bits: seq<seq<nat>>)
      requires Valid() && a < 128 && InRam(mccs1850, a) && a % 32 + |bytes| <= 32 && forall v <- bytes :: v < 256
      modifies this`phase, this`addr, this`val, this`data, this`strayed, cells
      ensures Valid() && strayed == old(strayed)
      ensures |bits| == |bytes| && forall k :: 0 <= k < |bytes| ==> bits[k] == Bits(bytes[k])
      ensures var i := Cell(mccs1850, a);
              forall j :: 0 <= j < 64 && !(i <= j < i + |bytes|) ==> cells[j] == old(cells[j])
    {
      hide Burst, Bits, InRam, Cell;
      ghost var m := Contents();
      var echo := Exchange(a + 128, bytes);
      WriteInBank(Here(), m, a, bytes);
      ghost var w := Contents();
      bits := Exchange(a, Zeros(|bytes|));
      ReadInBank(Here(), w, a, Zeros(|bytes|));
      assert forall j :: 0 <= j < 64 ==> cells[j] == w.cells[j];
    }
  }

  /** Where the chip reads, what is clocked in does not matter. */
  lemma ReadAlike(c: Chip, m: Ram, a: nat, v: nat)
    requires Fits(m) && !IsWrite(a)
    ensures Exchanged(c, m, a, v) == Exchanged(c, m, a, 0) && Exchanged(c, m, a, v).1 == Bits(Loaded(c, m, a))
  {
  }
}
