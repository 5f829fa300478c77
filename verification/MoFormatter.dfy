/** The sector formatter of mo.c, which follows the spiralling head of the selected drive. */
module MoFormatter {
  import opened Bytes
  import opened RsSector
  import opened Mo

  const SECTOR_TIMEOUT: nat := 32

  datatype Mode = Read | Write | Erase | Verify | ReadId | Inactive
  datatype Head = NoHead | ReadHead | WriteHead | EraseHead | VerifyHead | RfHead

  datatype Drive = Drive(spiraling: bool, seeking: bool, head: Head, position: nat, offset: nat)

  /** A sector operation carried out on the disk. */
  datatype Touch = Touch(mode: Mode, sector: nat)

  function SectorId(track: nat, sector: nat): (id: nat)
  {
    track * 256 + sector
  }

  /** Sectors counted along the spiral. */
  function Spiral(track: nat, sector: nat): (n: nat)
  {
    track * SECTORS_PER_TRACK + sector
  }

  lemma IdOrder(a: nat, b: nat, c: nat, d: nat)
    requires b < SECTORS_PER_TRACK && d < SECTORS_PER_TRACK
    ensures SectorId(a, b) == SectorId(c, d) <==> a == c && b == d
    ensures Spiral(a, b) == Spiral(c, d) <==> a == c && b == d
    ensures SectorId(a, b) > SectorId(c, d) <==> Spiral(a, b) > Spiral(c, d)
  {
    if a < c {
      assert (c - a) * 256 >= 256 && (c - a) * 16 >= 16;
    } else if c < a {
      assert (a - c) * 256 >= 256 && (a - c) * 16 >= 16;
    }
  }

  /** The logical sector is the place on the spiral, less the tracks before the first. */
  lemma LogicalIsSpiral(track: nat, sector: nat)
    requires sector < SECTORS_PER_TRACK
    ensures OnDisk(SectorId(track, sector)) <==> TRACK_OFFSET <= track % 65536 < TRACK_OFFSET + TRACK_LIMIT
    ensures OnDisk(SectorId(track, sector)) && track < 65536 ==>
              LogicalSector(SectorId(track, sector)) == Spiral(track, sector) - TRACK_OFFSET * SECTORS_PER_TRACK
  {
    assert SectorId(track, sector) / 256 == track;
    assert SectorId(track, sector) % 16 == sector by {
      assert track * 256 == (track * 16) * 16;
    }
  }

  /** One step along the spiral. */
  lemma Onward(track: nat, sector: nat)
    requires sector < SECTORS_PER_TRACK
    ensures Spiral(track + (sector + 1) / SECTORS_PER_TRACK, (sector + 1) % SECTORS_PER_TRACK) ==
                Spiral(track, sector) + 1
  {
  }

  /** The formatter's registers. */
  datatype Job = Job(mode: Mode, track: nat, sector: nat, count: int, timer: nat, signals: set<Signal>)

  /** The fixed part of the set-up: the sector increment and whether mismatches are timed. */
  datatype Setup = Setup(increment: nat, timed: bool)

  /** After a sector operation: the next sector's address and one sector less to go. */
  function Counted(j: Job, s: Setup): (r: Job)
  {
    var track := (j.track + (j.sector + s.increment) / SECTORS_PER_TRACK) % 65536;
    var sector := (j.sector + s.increment) % SECTORS_PER_TRACK;
    if j.count == 1 then Job(Inactive, track, sector, 0, j.timer, j.signals + {OperationComplete})
    else Job(j.mode, track, sector, j.count - 1, j.timer, j.signals)
  }

  /** The address moves along the spiral by the increment; the tracks wrap around after 65536. */
  lemma CountedMoves(j: Job, s: Setup)
    requires j.sector < SECTORS_PER_TRACK
    ensures var r := Counted(j, s);
            && r.sector < SECTORS_PER_TRACK && r.track < 65536 && r.count == j.count - 1 && r.timer == j.timer
            && Spiral(r.track, r.sector) == (Spiral(j.track, j.sector) + s.increment) % (65536 * SECTORS_PER_TRACK)
            && (r.mode == Inactive <==> j.mode == Inactive || j.count == 1)
            && (r.mode == Inactive || r.mode == j.mode)
            && r.signals == if j.count == 1 then j.signals + {OperationComplete} else j.signals
  {
    var whole := j.track + (j.sector + s.increment) / SECTORS_PER_TRACK;
    assert Spiral(j.track, j.sector) + s.increment == Spiral(whole, (j.sector + s.increment) % SECTORS_PER_TRACK);
    Wrapped(whole, (j.sector + s.increment) % SECTORS_PER_TRACK);
  }

  lemma Wrapped(track: nat, sector: nat)
    requires sector < SECTORS_PER_TRACK
    ensures Spiral(track, sector) % (65536 * SECTORS_PER_TRACK) == Spiral(track % 65536, sector)
  {
    var q := track / 65536;
    assert Spiral(track, sector) == Spiral(track % 65536, sector) + q * (65536 * SECTORS_PER_TRACK);
  }

  /** After an ID was compared. */
  function Compared(j: Job, s: Setup, id: nat): (r: Job)
  {
    if id == SectorId(j.track, j.sector) then j.(timer := 0)
    else if !s.timed then j
    else if j.timer + 1 > SECTOR_TIMEOUT || id > SectorId(j.track, j.sector)
    then j.(timer := 0, mode := Inactive, signals := j.signals + {Timeout})
    else j.(timer := j.timer + 1)
  }

  /** One sector ID passing under the head of a read, erase or verify operation. */
  function Passed(j: Job, s: Setup, id: nat): (r: Job)
  {
    if id == SectorId(j.track, j.sector) then Counted(Compared(j, s, id), s) else Compared(j, s, id)
  }

  predicate Scanning(mode: Mode)
  {
    mode == Read || mode == Erase || mode == Verify
  }

  /** Operations on a wrong head abort, and so do sectors outside the disk. */
  predicate Allowed(j: Job, id: nat, head: Head)
  {
    && (j.mode == Read ==> head == ReadHead)
    && (j.mode == Write ==> head == WriteHead)
    && (j.mode == Erase ==> head == EraseHead)
    && (j.mode == Verify ==> head == VerifyHead)
    && ((Scanning(j.mode) || j.mode == Write) && id == SectorId(j.track, j.sector) ==> OnDisk(id))
  }

  /** The head moves on by one sector. */
  function Spun(d: Drive): (r: Drive)
  {
    if d.spiraling && !d.seeking
    then d.(position := d.position + (d.offset + 1) / SECTORS_PER_TRACK, offset := (d.offset + 1) % SECTORS_PER_TRACK)
    else d
  }

  function IdUnder(d: Drive): (id: nat)
  {
    SectorId(d.position, d.offset)
  }

  /** What a sector ID does in any mode: the registers, the write timing, and the operation on the
      disk, if any.  A write skips the first sector ID, during which its buffer is filled. */
  function Answered(j: Job, ready: bool, s: Setup, id: nat): (r: (Job, bool, seq<Touch>))
    requires j.mode != Inactive && j.mode != ReadId && id == SectorId(j.track, j.sector) ==> OnDisk(id)
  {
    var hit := id == SectorId(j.track, j.sector);
    match j.mode
    case Inactive => (j, ready, [])
    case ReadId => (j.(track := id / 256 % 65536, sector := id % 16, signals := j.signals + {OperationComplete}), ready,
                    [])
    case Write =>
      if ready && hit then (Passed(j, s, id), true, [Touch(Write, LogicalSector(id))])
      else (Compared(j, s, id), true, [])
    case _ => (Passed(j, s, id), ready, if hit then [Touch(j.mode, LogicalSector(id))] else [])
  }

  /** Reading an ID leaves the place of the head in the address registers. */
  lemma IdIsRead(j: Job, ready: bool, s: Setup, d: Drive)
    requires j.mode == ReadId && d.offset < SECTORS_PER_TRACK && d.position < 65536
    ensures var (r, still, touches) := Answered(j, ready, s, IdUnder(d));
            r == Job(ReadId, d.position, d.offset, j.count, j.timer, j.signals + {OperationComplete}) && still == ready
            && touches == []
  {
    assert SectorId(d.position, d.offset) / 256 == d.position;
    assert SectorId(d.position, d.offset) % 16 == d.offset by {
      assert d.position * 256 == (d.position * 16) * 16;
    }
  }

  predicate Operating(mode: Mode)
  {
    Scanning(mode) || mode == Write
  }

  /** What a sector ID does to an operation that is ready or finished. */
  function After(j: Job, s: Setup, id: nat): (r: Job)
  {
    if Operating(j.mode) then Passed(j, s, id) else j
  }

  predicate Hit(j: Job, id: nat)
  {
    Operating(j.mode) && id == SectorId(j.track, j.sector)
  }

  lemma AfterAnswered(j: Job, ready: bool, s: Setup, id: nat)
    requires (Operating(j.mode) || j.mode == Inactive) && (Hit(j, id) ==> OnDisk(id) && (j.mode == Write ==> ready))
    ensures var r := Answered(j, ready, s, id);
            && r.0 == After(j, s, id) && r.1 == (ready || j.mode == Write)
            && r.2 == if Hit(j, id) then [Touch(j.mode, LogicalSector(id))] else []
  {
  }

  // ----- what the operations do to the sector buffers and the disk

  /** An idle error correction accepts a command. */
  function Started(d: Desk, mode: EccMode, state: EccState, blocks: bool): (r: Desk)
  {
    if d.state != Idle then d else d.(mode := mode, state := state, repeating := d.repeating || blocks)
  }

  /** ecc_write: the input buffer is to be filled. */
  function Refill(d: Desk, blocks: bool): (r: Desk)
  {
    if d.state != Idle then d
    else Started(d, Writing, Filling, blocks).(input := Bank(0, DECODED, d.input.data))
  }

  /** Sector n was read into the input buffer and is to be decoded. */
  function Loaded(d: Desk, n: nat, mode: EccMode, blocks: bool): (r: Desk)
    requires n < |d.disk|
  {
    Started(d.(input := Bank(ENCODED, ENCODED, d.disk[n])), mode, Eccing, blocks)
  }

  /** The output buffer was written to sector n. */
  function Saved(d: Desk, n: nat): (r: Desk)
    requires n < |d.disk|
  {
    d.(disk := d.disk[n := d.output.data], output := Bank(0, DECODED, d.output.data))
  }

  function Blank(): (s: seq<Byte>)
  {
    seq(ENCODED, i => Byte(0xff))
  }

  function Erased(d: Desk, n: nat): (r: Desk)
    requires n < |d.disk|
  {
    d.(disk := d.disk[n := Blank()])
  }

  /** An operation reaches sector n, or waits for its sector. */
  function Operated(d: Desk, blocks: bool, mode: Mode, reached: bool, n: nat): (r: Desk)
    requires reached ==> n < |d.disk|
  {
    match mode
    case Inactive => d
    case ReadId => d
    case Read => if reached then Loaded(d, n, Reading, blocks) else d
    case Verify => if reached then Loaded(d, n, Verifying, false) else d
    case Erase => if reached then Erased(d, n) else d
    case Write => Refill(if reached then Saved(d, n) else d, blocks)
  }

  /** fmt_io as far as the buffers and the disk are concerned. */
  function Performed(d: Desk, blocks: bool, j: Job, ready: bool, id: nat): (r: Desk)
    requires |d.disk| == LOGICAL_SECTORS
    requires j.mode != Inactive && j.mode != ReadId && id == SectorId(j.track, j.sector) ==> OnDisk(id)
  {
    if j.mode != Inactive && j.mode != ReadId && id == SectorId(j.track, j.sector)
    then Operated(d, blocks, j.mode, j.mode == Write ==> ready, LogicalSector(id))
    else Operated(d, blocks, j.mode, false, 0)
  }

  lemma MissedPerformed(d: Desk, blocks: bool, j: Job, ready: bool, id: nat)
    requires |d.disk| == LOGICAL_SECTORS && (Operating(j.mode) || j.mode == Inactive) && !Hit(j, id)
    ensures Performed(d, blocks, j, ready, id).disk == d.disk
    ensures j.mode != Write ==> Performed(d, blocks, j, ready, id) == d
  {
  }

  /** Without a sector the number does not matter. */
  lemma OffTarget(d: Desk, blocks: bool, mode: Mode)
    ensures forall n :: Operated(d, blocks, mode, false, n) == Operated(d, blocks, mode, false, 0)
  {
  }

  lemma WritePerformed(d: Desk, blocks: bool, j: Job, ready: bool, id: nat)
    requires |d.disk| == LOGICAL_SECTORS && j.mode == Write && (id == SectorId(j.track, j.sector) ==> OnDisk(id))
    ensures Performed(d, blocks, j, ready, id) ==
            Refill(if ready && id == SectorId(j.track, j.sector) then Saved(d, LogicalSector(id)) else d, blocks)
  {
  }

  lemma HitPerformed(d: Desk, blocks: bool, j: Job, ready: bool, id: nat)
    requires |d.disk| == LOGICAL_SECTORS && (Operating(j.mode) || j.mode == Inactive)
    requires Hit(j, id) ==> OnDisk(id) && (j.mode == Write ==> ready)
    ensures Performed(d, blocks, j, ready, id) ==
                Operated(d, blocks, j.mode, Hit(j, id), if Hit(j, id) then LogicalSector(id) else 0)
  {
  }

  // ----- a whole operation, in closed form

  /** An operation about to start, n sectors long and with lead sectors to go until the first. */
  ghost predicate Start(j: Job, s: Setup, d: Drive, n: nat, lead: nat)
  {
    && Operating(j.mode) && j.count == n > 0 && j.sector < SECTORS_PER_TRACK && s.increment == 1
    && d.spiraling && !d.seeking && d.offset < SECTORS_PER_TRACK
    && Spiral(j.track, j.sector) == Spiral(d.position, d.offset) + lead
    && TRACK_OFFSET <= j.track
    && Spiral(j.track, j.sector) + n <= (TRACK_OFFSET + TRACK_LIMIT) * SECTORS_PER_TRACK
  }

  /** The first logical sector of an operation. */
  function FirstSector(j: Job): (n: nat)
    requires Spiral(j.track, j.sector) >= TRACK_OFFSET * SECTORS_PER_TRACK
  {
    Spiral(j.track, j.sector) - TRACK_OFFSET * SECTORS_PER_TRACK
  }

  /** Sectors done after t ticks. */
  function Progress(n: nat, lead: nat, t: nat): (k: nat)
    ensures k <= n
  {
    if t <= lead then 0 else if t - lead < n then t - lead else n
  }

  /** The state after t ticks of an operation that is not timed out. */
  ghost predicate Along(j0: Job, s: Setup, d0: Drive, n: nat, lead: nat, t: nat, j: Job, d: Drive)
  {
    var k := Progress(n, lead, t);
    && d.spiraling && !d.seeking && d.head == d0.head && d.offset < SECTORS_PER_TRACK
    && Spiral(d.position, d.offset) == Spiral(d0.position, d0.offset) + t
    && j.sector < SECTORS_PER_TRACK && Spiral(j.track, j.sector) == Spiral(j0.track, j0.sector) + k
    && j.count == n - k
    && j.mode == (if k == n then Inactive else j0.mode)
    && (s.timed && k < n ==> j.timer == if t <= lead then j0.timer + t else 0)
  }

  lemma LogicalOf(j: Job)
    requires j.sector < SECTORS_PER_TRACK && TRACK_OFFSET <= j.track < TRACK_OFFSET + TRACK_LIMIT
    ensures OnDisk(SectorId(j.track, j.sector))
    ensures LogicalSector(SectorId(j.track, j.sector)) == Spiral(j.track, j.sector) - TRACK_OFFSET * SECTORS_PER_TRACK
  {
    LogicalIsSpiral(j.track, j.sector);
  }

  lemma TrackBounds(j: Job, low: nat, high: nat)
    requires j.sector < SECTORS_PER_TRACK
             && low * SECTORS_PER_TRACK <= Spiral(j.track, j.sector) < high * SECTORS_PER_TRACK
    ensures low <= j.track < high
  {
  }

  /** Every tick of an operation keeps the formatter in step with the head. */
  lemma AlongNext(j0: Job, s: Setup, d0: Drive, n: nat, lead: nat, t: nat, j: Job, d: Drive)
    requires Start(j0, s, d0, n, lead) && Along(j0, s, d0, n, lead, t, j, d)
    requires s.timed ==> lead == 0 || j0.timer + lead <= SECTOR_TIMEOUT
    ensures Along(j0, s, d0, n, lead, t + 1, After(j, s, IdUnder(d)), Spun(d))
    ensures Hit(j, IdUnder(d)) <==> lead <= t < lead + n
    ensures After(j, s, IdUnder(d)).signals == if t + 1 == lead + n then j.signals + {OperationComplete} else j.signals
    ensures Hit(j, IdUnder(d)) ==>
              OnDisk(IdUnder(d)) && j.mode == j0.mode
              && LogicalSector(IdUnder(d)) ==
                     Spiral(j0.track, j0.sector) - TRACK_OFFSET * SECTORS_PER_TRACK + (t - lead)
  {
    hide SectorId, Spiral, LogicalSector, OnDisk;
    IdOrder(d.position, d.offset, j.track, j.sector);
    Onward(d.position, d.offset);
    if lead <= t < lead + n {
      InRange(j0, n, j, t - lead);
      LogicalOf(j);
      Onward(j.track, j.sector);
    }
  }

  lemma AlongStart(j0: Job, s: Setup, d0: Drive, n: nat, lead: nat)
    requires Start(j0, s, d0, n, lead)
    ensures Along(j0, s, d0, n, lead, 0, j0, d0)
  {
  }

  /** What can be seen of an operation. */
  lemma AlongShows(j0: Job, s: Setup, d0: Drive, n: nat, lead: nat, t: nat, j: Job, d: Drive)
    requires Start(j0, s, d0, n, lead) && Along(j0, s, d0, n, lead, t, j, d) && d0.head == HeadFor(j0.mode)
    ensures j.count == n - Progress(n, lead, t) && j.mode == if t >= lead + n then Inactive else j0.mode
    ensures Operating(j0.mode) && d.spiraling && !d.seeking && d.head == d0.head
    ensures (Hit(j, IdUnder(d)) ==> OnDisk(IdUnder(d))) ==> Allowed(j, IdUnder(d), d.head)
  {
    hide SectorId, OnDisk, Spiral;
  }

  /** All that a tick of an operation does. */
  lemma OneTick(j0: Job, s: Setup, d0: Drive, n: nat, lead: nat, t: nat, j: Job, d: Drive, ready: bool, desk: Desk,
                blocks: bool)
    requires Start(j0, s, d0, n, lead) && Along(j0, s, d0, n, lead, t, j, d) && d0.head == HeadFor(j0.mode)
    requires s.timed ==> lead == 0 || j0.timer + lead <= SECTOR_TIMEOUT
    requires (j0.mode == Write && lead <= t < lead + n ==> ready) && |desk.disk| == LOGICAL_SECTORS
    requires TRACK_OFFSET * SECTORS_PER_TRACK <= Spiral(j0.track, j0.sector) && FirstSector(j0) + n <= LOGICAL_SECTORS
    ensures d.spiraling && !d.seeking && Allowed(j, IdUnder(d), d.head)
    ensures j.mode == Write && IdUnder(d) == SectorId(j.track, j.sector) ==> j0.mode == Write && lead <= t < lead + n
    ensures j.mode != Inactive && j.mode != ReadId && IdUnder(d) == SectorId(j.track, j.sector) ==> OnDisk(IdUnder(d))
    ensures var on, k := lead <= t < lead + n, FirstSector(j0) + if t <= lead then 0 else t - lead;
            var r := Answered(j, ready, s, IdUnder(d));
            && Along(j0, s, d0, n, lead, t + 1, r.0, Spun(d))
            && r.0.count == n - Progress(n, lead, t + 1)
            && r.0.mode == (if t + 1 >= lead + n then Inactive else j0.mode)
            && r.0.signals == (if t + 1 == lead + n then j.signals + {OperationComplete} else j.signals)
            && r.1 == (ready || j.mode == Write) && r.2 == (if on then [Touch(j0.mode, k)] else [])
            && Performed(desk, blocks, j, ready, IdUnder(d)) == Operated(desk, blocks, j.mode, on, k)
  {
    hide SectorId, LogicalSector, OnDisk, Passed, Spiral, Spun, After, Answered, Performed, Along, Start, Allowed,
         Operated, Progress;
    AlongNext(j0, s, d0, n, lead, t, j, d);
    AlongShows(j0, s, d0, n, lead, t, j, d);
    AfterAnswered(j, ready, s, IdUnder(d));
    HitPerformed(desk, blocks, j, ready, IdUnder(d));
    OffTarget(desk, blocks, j.mode);
    AlongShows(j0, s, d0, n, lead, t + 1, After(j, s, IdUnder(d)), Spun(d));
  }

  lemma StartBound(j: Job, s: Setup, d: Drive, n: nat, lead: nat)
    requires Start(j, s, d, n, lead)
    ensures n > 0 && TRACK_OFFSET * SECTORS_PER_TRACK <= Spiral(j.track, j.sector)
    ensures Spiral(j.track, j.sector) + n <= LOGICAL_SECTORS + TRACK_OFFSET * SECTORS_PER_TRACK
  {
  }

  lemma InRange(j0: Job, n: nat, j: Job, k: nat)
    requires k < n && j.sector < SECTORS_PER_TRACK && TRACK_OFFSET <= j0.track
    requires Spiral(j.track, j.sector) == Spiral(j0.track, j0.sector) + k
    requires Spiral(j0.track, j0.sector) + n <= (TRACK_OFFSET + TRACK_LIMIT) * SECTORS_PER_TRACK
    ensures TRACK_OFFSET <= j.track < TRACK_OFFSET + TRACK_LIMIT
  {
    assert Spiral(j0.track, j0.sector) >= TRACK_OFFSET * SECTORS_PER_TRACK;
    TrackBounds(j, TRACK_OFFSET, TRACK_OFFSET + TRACK_LIMIT);
  }

  /** A timed operation with too long a lead: it counts mismatches up to the limit and gives up. */
  ghost predicate Hopeless(j0: Job, d0: Drive, t: nat, j: Job, d: Drive)
  {
    && d.spiraling && !d.seeking && d.head == d0.head && d.offset < SECTORS_PER_TRACK
    && Spiral(d.position, d.offset) == Spiral(d0.position, d0.offset) + t
    && j == if j0.timer + t <= SECTOR_TIMEOUT then j0.(timer := j0.timer + t)
            else j0.(timer := 0, mode := Inactive, signals := j0.signals + {Timeout})
  }

  lemma HopelessNext(j0: Job, s: Setup, d0: Drive, n: nat, lead: nat, t: nat, j: Job, d: Drive)
    requires Start(j0, s, d0, n, lead) && Hopeless(j0, d0, t, j, d) && s.timed
    requires lead > 0 && j0.timer <= SECTOR_TIMEOUT < j0.timer + lead
    ensures Hopeless(j0, d0, t + 1, After(j, s, IdUnder(d)), Spun(d)) && !Hit(j, IdUnder(d))
  {
    hide SectorId, Spiral, LogicalSector, OnDisk;
    IdOrder(d.position, d.offset, j.track, j.sector);
    Onward(d.position, d.offset);
  }

  /** A write that starts with its first sector under the head: the sector passes while the buffer is
      filled, and the head is past it from then on. */
  ghost predicate Missed(j0: Job, s: Setup, d0: Drive, t: nat, j: Job, d: Drive)
  {
    && d.spiraling && !d.seeking && d.head == d0.head && d.offset < SECTORS_PER_TRACK
    && Spiral(d.position, d.offset) == Spiral(d0.position, d0.offset) + t
    && j == if t == 0 then j0
            else if s.timed && t >= 2 then j0.(timer := 0, mode := Inactive, signals := j0.signals + {Timeout})
            else j0.(timer := 0)
  }

  lemma MissedNext(j0: Job, s: Setup, d0: Drive, n: nat, t: nat, j: Job, d: Drive, ready: bool, desk: Desk,
                   blocks: bool)
    requires Start(j0, s, d0, n, 0) && j0.mode == Write && d0.head == WriteHead && Missed(j0, s, d0, t, j, d)
    requires (j.mode == Write ==> ready == (t > 0)) && |desk.disk| == LOGICAL_SECTORS
    ensures d.spiraling && !d.seeking && Allowed(j, IdUnder(d), d.head)
            && (j.mode == Write && ready ==> IdUnder(d) != SectorId(j.track, j.sector))
    ensures j.mode != Inactive && j.mode != ReadId && IdUnder(d) == SectorId(j.track, j.sector) ==> OnDisk(IdUnder(d))
    ensures var r := Answered(j, ready, s, IdUnder(d));
            Missed(j0, s, d0, t + 1, r.0, Spun(d)) && (r.1 || j.mode != Write)
            && (r.0.mode == Write ==> j.mode == Write) && r.2 == []
    ensures Performed(desk, blocks, j, ready, IdUnder(d)).disk == desk.disk
  {
    hide SectorId, Spiral, LogicalSector, OnDisk;
    IdOrder(d.position, d.offset, j.track, j.sector);
    Onward(d.position, d.offset);
    if t == 0 {
      InRange(j0, n, j0, 0);
      LogicalOf(j0);
    }
  }

  lemma MissedFirst(j0: Job, s: Setup, d0: Drive, n: nat)
    requires Start(j0, s, d0, n, 0)
    ensures Missed(j0, s, d0, 0, j0, d0)
  {
  }

  lemma MissedShows(j0: Job, s: Setup, d0: Drive, t: nat, j: Job, d: Drive)
    requires Missed(j0, s, d0, t, j, d) && j0.mode == Write
    ensures j.count == j0.count && j.mode == if s.timed && t >= 2 then Inactive else Write
    ensures j.signals == if s.timed && t >= 2 then j0.signals + {Timeout} else j0.signals
  {
  }

  // ----- any sector increment

  /** An operation about to start with any increment: n sectors, the first of them lead sectors ahead. */
  ghost predicate StridedStart(j: Job, s: Setup, d: Drive, n: nat, lead: nat)
  {
    && Operating(j.mode) && j.count == n > 0 && j.sector < SECTORS_PER_TRACK && 0 < s.increment <= SECTOR_TIMEOUT
    && d.spiraling && !d.seeking && d.offset < SECTORS_PER_TRACK
    && Spiral(j.track, j.sector) == Spiral(d.position, d.offset) + lead
    && TRACK_OFFSET <= j.track
    && Spiral(j.track, j.sector) + (n - 1) * s.increment < (TRACK_OFFSET + TRACK_LIMIT) * SECTORS_PER_TRACK
    && (s.timed ==> lead == 0 || j.timer + lead <= SECTOR_TIMEOUT)
  }

  /** Ticks of an operation: the registers, the head, and the sectors touched. */
  function Turned(j: Job, s: Setup, d: Drive, t: nat): (r: (Job, Drive, seq<Touch>))
  {
    if t == 0 then (j, d, [])
    else
      var (j', d', touches) := Turned(j, s, d, t - 1);
      var hit := Hit(j', IdUnder(d')) && OnDisk(IdUnder(d'));
      (After(j', s, IdUnder(d')), Spun(d'), touches + if hit then [Touch(j'.mode, LogicalSector(IdUnder(d')))] else [])
  }

  /** The state after t ticks, k sectors done. */
  ghost predicate Strided(j0: Job, s: Setup, d0: Drive, n: nat, lead: nat, t: nat, k: nat, j: Job, d: Drive)
  {
    && d.spiraling && !d.seeking && d.offset < SECTORS_PER_TRACK && k <= n
    && Spiral(d.position, d.offset) == Spiral(d0.position, d0.offset) + t
    && j.sector < SECTORS_PER_TRACK && j.count == n - k && j.mode == (if k == n then Inactive else j0.mode)
    && (k > 0 ==> lead + (k - 1) * s.increment < t)
    && (k < n ==> Spiral(j.track, j.sector) == Spiral(j0.track, j0.sector) + k * s.increment
                  && t <= lead + k * s.increment
                  && (s.timed ==> j.timer == if k == 0 then j0.timer + t else t - (lead + (k - 1) * s.increment) - 1))
    && j.signals == if k == n then j0.signals + {OperationComplete} else j0.signals
  }

  lemma StridedNext(j0: Job, s: Setup, d0: Drive, n: nat, lead: nat, t: nat, k: nat, j: Job, d: Drive)
    requires StridedStart(j0, s, d0, n, lead) && Strided(j0, s, d0, n, lead, t, k, j, d)
    ensures Hit(j, IdUnder(d)) <==> k < n && t == lead + k * s.increment
    ensures Strided(j0, s, d0, n, lead, t + 1, if Hit(j, IdUnder(d)) then k + 1 else k, After(j, s, IdUnder(d)),
                    Spun(d))
    ensures Hit(j, IdUnder(d)) ==>
              OnDisk(IdUnder(d)) && j.mode == j0.mode
              && LogicalSector(IdUnder(d)) ==
                     Spiral(j0.track, j0.sector) - TRACK_OFFSET * SECTORS_PER_TRACK + k * s.increment
  {
    hide SectorId, LogicalSector, OnDisk, Spiral, Counted;
    Onward(d.position, d.offset);
    if k < n {
      IdOrder(d.position, d.offset, j.track, j.sector);
      Reached(j0, s, n, k, j);
      OneStride(k, s.increment);
      CountedMoves(j.(timer := 0), s);
      WithinTracks(j, s);
      LogicalOf(j);
    }
  }

  lemma OneStride(k: nat, increment: nat)
    ensures (k + 1) * increment == k * increment + increment && (k - 1) * increment == k * increment - increment
  {
  }

  lemma WithinTracks(j: Job, s: Setup)
    requires j.sector < SECTORS_PER_TRACK && j.track < TRACK_OFFSET + TRACK_LIMIT && s.increment <= SECTOR_TIMEOUT
    ensures var next := Spiral(j.track, j.sector) + s.increment; next % (65536 * SECTORS_PER_TRACK) == next
  {
  }

  lemma NoFurther(a: nat, b: nat, c: nat)
    requires a <= b
    ensures a * c <= b * c
  {
  }

  /** The sector aimed at is on the disk. */
  lemma Reached(j0: Job, s: Setup, n: nat, k: nat, j: Job)
    requires k < n && j.sector < SECTORS_PER_TRACK && TRACK_OFFSET <= j0.track
    requires Spiral(j.track, j.sector) == Spiral(j0.track, j0.sector) + k * s.increment
    requires Spiral(j0.track, j0.sector) + (n - 1) * s.increment < (TRACK_OFFSET + TRACK_LIMIT) * SECTORS_PER_TRACK
    ensures TRACK_OFFSET <= j.track < TRACK_OFFSET + TRACK_LIMIT
  {
    NoFurther(k, n - 1, s.increment);
    assert Spiral(j0.track, j0.sector) >= TRACK_OFFSET * SECTORS_PER_TRACK;
    TrackBounds(j, TRACK_OFFSET, TRACK_OFFSET + TRACK_LIMIT);
  }

  /** With any increment an operation touches every increment-th sector along the spiral, each when it is
      under the head, and completes with the last. */
  lemma {:induction false} EveryNth(j0: Job, s: Setup, d0: Drive, n: nat, lead: nat, t: nat) returns (k: nat)
    requires StridedStart(j0, s, d0, n, lead)
    ensures k <= n && (k > 0 ==> lead + (k - 1) * s.increment < t) && (k < n ==> t <= lead + k * s.increment)
    ensures var (j, d, touches) := Turned(j0, s, d0, t);
            && Strided(j0, s, d0, n, lead, t, k, j, d) && |touches| == k
            && (forall i :: 0 <= i < k ==>
                  touches[i].mode == j0.mode
                  && touches[i].sector + TRACK_OFFSET * SECTORS_PER_TRACK ==
                         Spiral(j0.track, j0.sector) + i * s.increment)
            && j.count == n - k && j.mode == (if k == n then Inactive else j0.mode)
            && j.signals == if k == n then j0.signals + {OperationComplete} else j0.signals
  {
    hide SectorId, LogicalSector, OnDisk, Spiral, After, Hit, Spun, Strided, StridedStart, IdUnder;
    if t == 0 {
      k := 0;
      StridedFirst(j0, s, d0, n, lead);
    } else {
      k := EveryNth(j0, s, d0, n, lead, t - 1);
      var (j, d, touches) := Turned(j0, s, d0, t - 1);
      StridedNext(j0, s, d0, n, lead, t - 1, k, j, d);
      if Hit(j, IdUnder(d)) {
        k := k + 1;
      }
    }
    var (j, d, touches) := Turned(j0, s, d0, t);
    StridedShows(j0, s, d0, n, lead, t, k, j, d);
  }

  lemma StridedFirst(j0: Job, s: Setup, d0: Drive, n: nat, lead: nat)
    requires StridedStart(j0, s, d0, n, lead)
    ensures Strided(j0, s, d0, n, lead, 0, 0, j0, d0)
  {
    hide Spiral;
  }

  lemma StridedShows(j0: Job, s: Setup, d0: Drive, n: nat, lead: nat, t: nat, k: nat, j: Job, d: Drive)
    requires Strided(j0, s, d0, n, lead, t, k, j, d)
    ensures k <= n && (k > 0 ==> lead + (k - 1) * s.increment < t) && (k < n ==> t <= lead + k * s.increment)
    ensures j.count == n - k && j.mode == (if k == n then Inactive else j0.mode)
            && j.signals == if k == n then j0.signals + {OperationComplete} else j0.signals
  {
    hide Spiral;
  }

  /** The run of consecutive sectors an operation touches. */
  function Consecutive(mode: Mode, first: nat, k: nat): (r: seq<Touch>)
    ensures |r| == k && forall i :: 0 <= i < k ==> r[i] == Touch(mode, first + i)
  {
    seq(k, i requires 0 <= i < k => Touch(mode, first + i))
  }

  lemma ConsecutiveNext(mode: Mode, first: nat, n: nat, lead: nat, t: nat)
    ensures t == 0 ==> Progress(n, lead, t) == 0 && Consecutive(mode, first, 0) == []
    ensures Consecutive(mode, first, Progress(n, lead, t + 1)) ==
            Consecutive(mode, first, Progress(n, lead, t)) + if lead <= t < lead + n
                                                             then [Touch(mode, first + (t - lead))] else []
  {
  }

  /** The disk with k sectors from first on erased. */
  function Blanked(disk: seq<seq<Byte>>, first: nat, k: nat): (r: seq<seq<Byte>>)
  {
    seq(|disk|, i requires 0 <= i < |disk| => if first <= i < first + k then Blank() else disk[i])
  }

  /** What a scanning operation has done to the disk after t ticks. */
  function Scanned(disk: seq<seq<Byte>>, mode: Mode, first: nat, k: nat): (r: seq<seq<Byte>>)
  {
    if mode == Erase then Blanked(disk, first, k) else disk
  }

  lemma ScannedNothing(disk: seq<seq<Byte>>, mode: Mode, first: nat)
    ensures Scanned(disk, mode, first, 0) == disk
  {
  }

  lemma ScannedNext(disk: seq<seq<Byte>>, d: Desk, blocks: bool, mode0: Mode, first: nat, n: nat, lead: nat, t: nat)
    requires Scanning(mode0) && first + n <= |disk| && d.disk == Scanned(disk, mode0, first, Progress(n, lead, t))
    ensures var mode := if t >= lead + n then Inactive else mode0;
            Operated(d, blocks, mode, lead <= t < lead + n, first + if t <= lead then 0 else t - lead).disk
            == Scanned(disk, mode0, first, Progress(n, lead, t + 1))
  {
  }

  function HeadFor(mode: Mode): (h: Head)
  {
    match mode
    case Read => ReadHead
    case Write => WriteHead
    case Erase => EraseHead
    case Verify => VerifyHead
    case _ => NoHead
  }

  class Formatter {
    const osp: Processor
    var drives: seq<Drive>
    var selected: nat
    var mode: Mode
    var track: nat
    var sector: nat
    var timer: nat
    var writeTiming: bool
    var setup: Setup
    /** The sector operations so far. */
    ghost var touched: seq<Touch>

    ghost predicate Valid()
      reads this, osp, osp.first, osp.second
    {
      && |drives| == 2 && selected < 2 && osp.Valid()
      && (forall i :: 0 <= i < 2 ==> drives[i].offset < SECTORS_PER_TRACK)
    }

    /** The registers; the sector count and the interrupts are shared with the error correction. */
    function Now(): (j: Job)
      reads this, osp
    {
      Job(mode, track, sector, osp.sectorCount, timer, osp.signals)
    }

    constructor (osp: Processor)
      requires osp.Valid()
      ensures Valid() && this.osp == osp && mode == Inactive && touched == []
    {
      this.osp := osp;
      drives := [Drive(false, false, NoHead, 0, 0), Drive(false, false, NoHead, 0, 0)];
      selected, mode, track, sector, timer, writeTiming, setup := 0, Inactive, 0, 0, 0, false, Setup(1, false);
      touched := [];
    }

    /** fmt_sector_done. */
    method SectorDone()
      requires osp.Valid()
      modifies this`track, this`sector, this`mode, osp`sectorCount, osp`signals
      ensures osp.Valid() && osp.Now() == old(osp.Now()) && Now() == Counted(old(Now()), setup)
    {
      hide Processor.Now, Processor.Valid;
      sector := sector + setup.increment;
      track := (track + sector / SECTORS_PER_TRACK) % 65536;
      sector := sector % SECTORS_PER_TRACK;
      osp.CountDown();
      if osp.sectorCount == 0 {
        mode := Inactive;
      }
    }

    /** fmt_match_id, with full comparison of the ID. */
    method MatchId(id: nat) returns (hit: bool)
      requires osp.Valid()
      modifies this`timer, this`mode, osp`signals
      ensures osp.Valid() && osp.Now() == old(osp.Now())
      ensures hit == (id == old(SectorId(track, sector))) && Now() == Compared(old(Now()), setup, id)
    {
      hide Processor.Now, Processor.Valid;
      hit := id == SectorId(track, sector);
      if hit {
        timer := 0;
      } else if setup.timed {
        timer := timer + 1;
        if timer > SECTOR_TIMEOUT || id > SectorId(track, sector) {
          timer := 0;
          mode := Inactive;
          osp.Signal(Timeout);
        }
      }
    }

    /** A write aborts if the sector is not encoded yet. */
    ghost predicate Armed(id: nat)
      reads this, osp, osp.eccout
    {
      mode == Write && writeTiming && id == SectorId(track, sector) ==> osp.eccout.limit == ENCODED
    }

    method Identify(id: nat)
      requires osp.Valid()
      modifies this`track, this`sector, osp`signals
      ensures Now() ==
                  old(Now()).(track := id / 256 % 65536, sector := id % 16,
                              signals := old(osp.signals) + {OperationComplete})
      ensures osp.Valid() && osp.Now() == old(osp.Now())
    {
      hide Processor.Now, Processor.Valid;
      track, sector := id / 256 % 65536, id % 16;
      osp.Signal(OperationComplete);
    }

    method ReadThis(id: nat)
      requires osp.Valid() && OnDisk(id)
      modifies osp`state, osp`mode, osp`repeating, osp.first, osp.second, osp.first.data, osp.second.data
      ensures osp.Valid() && osp.Now() == Loaded(old(osp.Now()), LogicalSector(id), Reading, osp.csr2.eccBlocks)
    {
      hide LogicalSector, OnDisk;
      osp.ReadSector(id);
      var event := osp.EccRead();
    }

    method VerifyThis(id: nat)
      requires osp.Valid() && OnDisk(id)
      modifies osp`state, osp`mode, osp`repeating, osp.first, osp.second, osp.first.data, osp.second.data
      ensures osp.Valid() && osp.Now() == Loaded(old(osp.Now()), LogicalSector(id), Verifying, false)
    {
      hide LogicalSector, OnDisk;
      osp.ReadSector(id);
      var event := osp.EccVerify();
    }

    method WriteThis(id: nat)
      requires osp.Valid() && OnDisk(id) && osp.eccout.limit == ENCODED
      modifies osp`disk, osp.first, osp.second
      ensures osp.Valid() && osp.Now() == Saved(old(osp.Now()), LogicalSector(id))
    {
      hide LogicalSector, OnDisk;
      osp.WriteSector(id);
    }

    method EraseThis(id: nat)
      requires osp.Valid() && OnDisk(id)
      modifies osp`disk
      ensures osp.Valid() && osp.Now() == Erased(old(osp.Now()), LogicalSector(id))
    {
      hide LogicalSector, OnDisk;
      osp.EraseSector(id);
    }

    method FillAgain()
      requires osp.Valid()
      modifies osp`state, osp`mode, osp`repeating, osp.first, osp.second
      ensures osp.Valid() && osp.Now() == Refill(old(osp.Now()), osp.csr2.eccBlocks)
    {
      var event := osp.EccWrite();
    }

    /** The case FMT_MODE_WRITE. */
    method WriteIo(id: nat)
      requires osp.Valid() && mode == Write && (id == SectorId(track, sector) ==> OnDisk(id)) && Armed(id)
      modifies this`track, this`sector, this`mode, this`timer, this`writeTiming, this`touched, osp`sectorCount,
               osp`signals, osp`state, osp`mode, osp`repeating, osp`disk, osp.first, osp.second, osp.first.data,
               osp.second.data
      ensures osp.Valid()
              && osp.Now() == Performed(old(osp.Now()), osp.csr2.eccBlocks, old(Now()), old(writeTiming), id)
      ensures var r := Answered(old(Now()), old(writeTiming), setup, id);
              Now() == r.0 && writeTiming == r.1 && touched == old(touched) + r.2
    {
      hide Compared, Counted, LogicalSector, OnDisk, SectorId, Processor.Now, Processor.Valid, Saved, Refill, Performed;
      WritePerformed(osp.Now(), osp.csr2.eccBlocks, Now(), writeTiming, id);
      var hit := MatchId(id);
      if hit && writeTiming {
        WriteThis(id);
        touched := touched + [Touch(Write, LogicalSector(id))];
        SectorDone();
      } else {
        writeTiming := true;
      }
      FillAgain();
    }

    /** The cases of the scanning modes. */
    method ScanIo(id: nat)
      requires osp.Valid() && Scanning(mode) && (id == SectorId(track, sector) ==> OnDisk(id))
      modifies this`track, this`sector, this`mode, this`timer, this`writeTiming, this`touched, osp`sectorCount,
               osp`signals, osp`state, osp`mode, osp`repeating, osp`disk, osp.first, osp.second, osp.first.data,
               osp.second.data
      ensures osp.Valid()
              && osp.Now() == Performed(old(osp.Now()), osp.csr2.eccBlocks, old(Now()), old(writeTiming), id)
      ensures var r := Answered(old(Now()), old(writeTiming), setup, id);
              Now() == r.0 && writeTiming == r.1 && touched == old(touched) + r.2
    {
      hide Compared, Counted, LogicalSector, OnDisk, SectorId, Processor.Now, Processor.Valid, Loaded, Saved, Erased,
           Refill;
      var op := mode;
      var hit := MatchId(id);
      if hit {
        if op == Read {
          ReadThis(id);
        } else if op == Erase {
          EraseThis(id);
        } else {
          VerifyThis(id);
        }
        touched := touched + [Touch(op, LogicalSector(id))];
        SectorDone();
      }
    }

    /** fmt_io. */
    method FormatterIo(id: nat, head: Head)
      requires osp.Valid() && Allowed(Now(), id, head) && Armed(id)
      modifies this`track, this`sector, this`mode, this`timer, this`writeTiming, this`touched, osp`sectorCount,
               osp`signals, osp`state, osp`mode, osp`repeating, osp`disk, osp.first, osp.second, osp.first.data,
               osp.second.data
      ensures osp.Valid()
              && osp.Now() == Performed(old(osp.Now()), osp.csr2.eccBlocks, old(Now()), old(writeTiming), id)
      ensures var r := Answered(old(Now()), old(writeTiming), setup, id);
              Now() == r.0 && writeTiming == r.1 && touched == old(touched) + r.2
    {
      hide Passed, Compared, LogicalSector, OnDisk, SectorId, Processor.Now, Processor.Valid, Loaded, Saved, Erased,
           Refill;
      match mode {
        case Inactive =>
        case ReadId => Identify(id);
        case Write => WriteIo(id);
        case _ => ScanIo(id);
      }
    }

    /** mo_spiraling_operation: both heads move on, the selected one under the formatter. */
    method Tick()
      requires Valid()
      requires var d := drives[selected];
               d.spiraling && !d.seeking ==> Allowed(Now(), IdUnder(d), d.head) && Armed(IdUnder(d))
      modifies this`track, this`sector, this`mode, this`timer, this`writeTiming, this`touched, this`drives,
               osp`sectorCount, osp`signals, osp`state, osp`mode, osp`repeating, osp`disk, osp.first, osp.second,
               osp.first.data, osp.second.data
      ensures Valid() && drives == [Spun(old(drives[0])), Spun(old(drives[1]))]
              && drives[selected] == Spun(old(drives[selected]))
      ensures forall i :: 0 <= i < 2 ==>
                          var d, r := old(drives[i]), drives[i];
                          if d.spiraling && !d.seeking
                          then r == d.(position := r.position, offset := r.offset)
                               && Spiral(r.position, r.offset) == Spiral(d.position, d.offset) + 1
                          else r == d
      ensures var d := old(drives[selected]);
              if d.spiraling && !d.seeking
              then var r := Answered(old(Now()), old(writeTiming), setup, IdUnder(d));
                   Now() == r.0 && writeTiming == r.1 && touched == old(touched) + r.2
                   && osp.Now() ==
                          Performed(old(osp.Now()), osp.csr2.eccBlocks, old(Now()), old(writeTiming), IdUnder(d))
              else Now() == old(Now()) && writeTiming == old(writeTiming) && touched == old(touched)
                   && osp.Now() == old(osp.Now())
    {
      hide SectorId, LogicalSector, OnDisk, Passed, Answered, Performed, Processor.Now, Processor.Valid;
      var before := drives;
      var i := 0;
      while i < 2
        invariant 0 <= i <= 2 && Valid() && before == old(drives)
        invariant forall k :: 0 <= k < 2 ==> drives[k] == if k < i then Spun(before[k]) else before[k]
        invariant i <= selected || !(before[selected].spiraling && !before[selected].seeking) ==>
                    Now() == old(Now()) && writeTiming == old(writeTiming) && touched == old(touched)
                    && osp.Now() == old(osp.Now())
        invariant i <= selected ==> old(Armed(IdUnder(before[selected]))) ==> Armed(IdUnder(before[selected]))
        invariant i > selected && before[selected].spiraling && !before[selected].seeking ==>
                    var d := before[selected];
                    var r := Answered(old(Now()), old(writeTiming), setup, IdUnder(d));
                    Now() == r.0 && writeTiming == r.1 && touched == old(touched) + r.2
                    && osp.Now() ==
                           Performed(old(osp.Now()), osp.csr2.eccBlocks, old(Now()), old(writeTiming), IdUnder(d))
      {
        var d := drives[i];
        if d.spiraling && !d.seeking {
          if i == selected {
            FormatterIo(IdUnder(d), d.head);
          }
          drives := drives[i := Spun(d)];
        }
        i := i + 1;
      }
    }

    /** An operation about to start whose first sector comes in time. */
    ghost predicate Begins(n: nat, lead: nat)
      reads this, osp, osp.first, osp.second
    {
      && Valid() && Start(Now(), setup, drives[selected], n, lead) && drives[selected].head == HeadFor(mode)
      && (setup.timed ==> lead == 0 || timer + lead <= SECTOR_TIMEOUT)
      && TRACK_OFFSET * SECTORS_PER_TRACK <= Spiral(track, sector)
    }

    /** An operation that started as j0 under d0 is t ticks old. */
    ghost predicate Underway(j0: Job, d0: Drive, n: nat, lead: nat, t: nat)
      reads this, osp, osp.first, osp.second
    {
      && Valid() && n > 0 && Start(j0, setup, d0, n, lead) && d0.head == HeadFor(j0.mode)
      && (setup.timed ==> lead == 0 || j0.timer + lead <= SECTOR_TIMEOUT)
      && Along(j0, setup, d0, n, lead, t, Now(), drives[selected])
      && TRACK_OFFSET * SECTORS_PER_TRACK <= Spiral(j0.track, j0.sector) && FirstSector(j0) + n <= LOGICAL_SECTORS
      && osp.sectorCount == n - Progress(n, lead, t) && mode == if t >= lead + n then Inactive else j0.mode
    }

    lemma Beginning(n: nat, lead: nat)
      requires Begins(n, lead)
      ensures Underway(Now(), drives[selected], n, lead, 0)
    {
      hide Along, Start, Spiral;
      StartBound(Now(), setup, drives[selected], n, lead);
      AlongStart(Now(), setup, drives[selected], n, lead);
      AlongShows(Now(), setup, drives[selected], n, lead, 0, Now(), drives[selected]);
    }

    /** What makes an operation t ticks old, in the order in which it is shown. */
    lemma Resumed(j0: Job, d0: Drive, n: nat, lead: nat, t: nat)
      requires Valid()
      ensures Underway(j0, d0, n, lead, t) <==>
                && n > 0 && Start(j0, setup, d0, n, lead) && d0.head == HeadFor(j0.mode)
                && (setup.timed ==> lead == 0 || j0.timer + lead <= SECTOR_TIMEOUT)
                && TRACK_OFFSET * SECTORS_PER_TRACK <= Spiral(j0.track, j0.sector)
                && FirstSector(j0) + n <= LOGICAL_SECTORS
                && Along(j0, setup, d0, n, lead, t, Now(), drives[selected])
                && Now().count == n - Progress(n, lead, t) && Now().mode == if t >= lead + n then Inactive else j0.mode
    {
      hide Along, Start, Spiral, Progress, Processor.Valid;
    }

    /** One tick of an operation that started as j0 under d0. */
    method Advance(ghost j0: Job, ghost d0: Drive, ghost n: nat, ghost lead: nat, ghost t: nat)
      requires Valid() && Underway(j0, d0, n, lead, t)
      requires j0.mode == Write && lead <= t < lead + n ==> writeTiming && osp.eccout.limit == ENCODED
      modifies this`track, this`sector, this`mode, this`timer, this`writeTiming, this`touched, this`drives,
               osp`sectorCount, osp`signals, osp`state, osp`mode, osp`repeating, osp`disk, osp.first, osp.second,
               osp.first.data, osp.second.data
      ensures Underway(j0, d0, n, lead, t + 1)
      ensures osp.signals == if t + 1 == lead + n then old(osp.signals) + {OperationComplete} else old(osp.signals)
      ensures writeTiming == (old(writeTiming) || old(mode) == Write)
      ensures var on, k := lead <= t < lead + n, FirstSector(j0) + if t <= lead then 0 else t - lead;
              && (on ==> k < LOGICAL_SECTORS)
              && touched == old(touched) + (if on then [Touch(j0.mode, k)] else [])
              && osp.Now() == Operated(old(osp.Now()), osp.csr2.eccBlocks, old(mode), on, k)
    {
      hide SectorId, LogicalSector, OnDisk, Spiral, Spun, Answered, Performed, Processor.Now, Processor.Valid, Along,
           Start, Allowed, Operated, Progress, HeadFor, IdUnder, FirstSector, Underway;
      ghost var d := drives[selected];
      Resumed(j0, d0, n, lead, t);
      OneTick(j0, setup, d0, n, lead, t, Now(), d, writeTiming, osp.Now(), osp.csr2.eccBlocks);
      Tick();
      Resumed(j0, d0, n, lead, t + 1);
    }

    /** One tick of a scanning operation: what it has touched so far, and the disk. */
    method Scan(ghost j0: Job, ghost d0: Drive, ghost n: nat, ghost lead: nat, ghost t: nat, ghost disk: seq<seq<Byte>>)
      requires Underway(j0, d0, n, lead, t) && Scanning(j0.mode) && |disk| == LOGICAL_SECTORS
      requires osp.disk == Scanned(disk, j0.mode, FirstSector(j0), Progress(n, lead, t))
      modifies this`track, this`sector, this`mode, this`timer, this`writeTiming, this`touched, this`drives,
               osp`sectorCount, osp`signals, osp`state, osp`mode, osp`repeating, osp`disk, osp.first, osp.second,
               osp.first.data, osp.second.data
      ensures Underway(j0, d0, n, lead, t + 1)
      ensures osp.signals == if t + 1 == lead + n then old(osp.signals) + {OperationComplete} else old(osp.signals)
      ensures osp.disk == Scanned(disk, j0.mode, FirstSector(j0), Progress(n, lead, t + 1))
      ensures touched ==
                  old(touched) + if lead <= t < lead + n then [Touch(j0.mode, FirstSector(j0) + (t - lead))] else []
    {
      hide Spiral, Processor.Now, Processor.Valid, Scanned, Along, Start, Operated, Progress;
      ScannedNext(disk, osp.Now(), osp.csr2.eccBlocks, j0.mode, FirstSector(j0), n, lead, t);
      Advance(j0, d0, n, lead, t);
    }

    /** Any number of ticks of a read, erase or verify operation with sector increment one.  After
        the lead, every tick matches: the operation touches its n consecutive logical sectors, one
        a tick, and completes with the last. */
    method Spin(ticks: nat, n: nat, lead: nat)
      requires Begins(n, lead) && Scanning(mode)
      modifies this`track, this`sector, this`mode, this`timer, this`writeTiming, this`touched, this`drives,
               osp`sectorCount, osp`signals, osp`state, osp`mode, osp`repeating, osp`disk, osp.first, osp.second,
               osp.first.data, osp.second.data
      ensures Valid()
      ensures osp.sectorCount == n - Progress(n, lead, ticks)
      ensures mode == if ticks >= lead + n then Inactive else old(mode)
      ensures osp.signals == if ticks >= lead + n then old(osp.signals) + {OperationComplete} else old(osp.signals)
      ensures osp.disk == Scanned(old(osp.disk), old(mode), old(FirstSector(Now())), Progress(n, lead, ticks))
      ensures touched == old(touched) + Consecutive(old(mode), old(FirstSector(Now())), Progress(n, lead, ticks))
    {
      hide Spiral, Processor.Now, Processor.Valid, Scanned, Along, Start, Consecutive, Progress;
      ghost var j0, d0, disk := Now(), drives[selected], osp.Now().disk;
      Beginning(n, lead);
      ConsecutiveNext(j0.mode, FirstSector(j0), n, lead, 0);
      ScannedNothing(osp.disk, mode, FirstSector(j0));
      var t := 0;
      while t < ticks
        invariant t <= ticks && Underway(j0, d0, n, lead, t)
        invariant osp.signals == if t >= lead + n then old(osp.signals) + {OperationComplete} else old(osp.signals)
        invariant osp.disk == Scanned(disk, j0.mode, FirstSector(j0), Progress(n, lead, t))
        invariant touched == old(touched) + Consecutive(j0.mode, FirstSector(j0), Progress(n, lead, t))
      {
        ConsecutiveNext(j0.mode, FirstSector(j0), n, lead, t);
        Scan(j0, d0, n, lead, t, disk);
        t := t + 1;
      }
    }

    /** With the sector timer on and a lead beyond its limit, nothing is touched and the operation
        times out. */
    method SpinInVain(ticks: nat, n: nat, lead: nat)
      requires Valid() && Start(Now(), setup, drives[selected], n, lead) && drives[selected].head == HeadFor(mode)
      requires setup.timed && lead > 0 && timer <= SECTOR_TIMEOUT < timer + lead
      modifies this`track, this`sector, this`mode, this`timer, this`writeTiming, this`touched, this`drives,
               osp`sectorCount, osp`signals, osp`state, osp`mode, osp`repeating, osp`disk, osp.first, osp.second,
               osp.first.data, osp.second.data
      ensures Valid() && touched == old(touched) && osp.disk == old(osp.disk)
      ensures old(mode) != Write ==> osp.Now() == old(osp.Now())
      ensures osp.sectorCount == old(osp.sectorCount) && track == old(track) && sector == old(sector)
      ensures mode == if old(timer) + ticks > SECTOR_TIMEOUT then Inactive else old(mode)
      ensures osp.signals ==
                  if old(timer) + ticks > SECTOR_TIMEOUT then old(osp.signals) + {Timeout} else old(osp.signals)
    {
      hide SectorId, LogicalSector, OnDisk, Passed, Spiral, Spun, After, Answered, Performed, Processor.Now,
           Processor.Valid;
      ghost var j0, d0 := Now(), drives[selected];
      var t := 0;
      while t < ticks
        invariant t <= ticks && Valid() && touched == old(touched) && osp.disk == old(osp.disk)
        invariant old(mode) != Write ==> osp.Now() == old(osp.Now())
        invariant Hopeless(j0, d0, t, Now(), drives[selected])
      {
        HopelessNext(j0, setup, d0, n, lead, t, Now(), drives[selected]);
        AfterAnswered(Now(), writeTiming, setup, IdUnder(drives[selected]));
        MissedPerformed(osp.Now(), osp.csr2.eccBlocks, Now(), writeTiming, IdUnder(drives[selected]));
        Tick();
        t := t + 1;
      }
    }

    /** A write without a lead writes nothing: this is why the first sector must be a mismatch. */
    method SpinTooLate(ticks: nat, n: nat)
      requires Valid() && mode == Write && !writeTiming && Start(Now(), setup, drives[selected], n, 0)
               && drives[selected].head == WriteHead
      modifies this`track, this`sector, this`mode, this`timer, this`writeTiming, this`touched, this`drives,
               osp`sectorCount, osp`signals, osp`state, osp`mode, osp`repeating, osp`disk, osp.first, osp.second,
               osp.first.data, osp.second.data
      ensures Valid() && touched == old(touched) && osp.disk == old(osp.disk) && osp.sectorCount == old(osp.sectorCount)
      ensures mode == if setup.timed && ticks >= 2 then Inactive else Write
      ensures osp.signals == if setup.timed && ticks >= 2 then old(osp.signals) + {Timeout} else old(osp.signals)
    {
      hide SectorId, LogicalSector, OnDisk, Passed, Compared, Spiral, Spun, Answered, Performed, Processor.Valid,
           Processor.Now, Start, Missed, Allowed;
      ghost var j0, d0 := Now(), drives[selected];
      MissedFirst(j0, setup, d0, n);
      var t := 0;
      while t < ticks
        invariant t <= ticks && Valid() && touched == old(touched) && osp.disk == old(osp.disk)
        invariant Missed(j0, setup, d0, t, Now(), drives[selected]) && (mode == Write ==> writeTiming == (t > 0))
      {
        ghost var d := drives[selected];
        MissedNext(j0, setup, d0, n, t, Now(), d, writeTiming, osp.Now(), osp.csr2.eccBlocks);
        Tick();
        assert drives[selected] == Spun(d);
        t := t + 1;
      }
      MissedShows(j0, setup, d0, t, Now(), drives[selected]);
    }
  }
}
