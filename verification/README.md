# Verified models from the NeXT emulator reference

This project models the parts of the reference emulator under `reference/previous/src` that move and
protect data, and proves what they are there for.

- `Bytes`, `GaloisField`, `RsString`, `RsDecoder`, `RsTwoErrors`, `RsAnswers`, `RsCodec`, `RsSector`,
  `RsTables`:
  the Reed-Solomon product code of `rs.c`, from the field axioms up to the in-place encoder and decoder
  of a 36 by 36 sector.
- `Schedule`, `Dispatch`, `DispatchTheorems`, `Alarms`, `CycInt`, `CycRuns`, `AlarmRuns`: the event scheduler of
  `cycInt.c`, as an abstract machine with its theorems, among them when an event goes off after it was set,
  and as linked lists in an array that refine it over every run.
- `Dma`, `DmaModel`, `DmaRuns`, `DmaDriver`, `DmaCopy`: the burst channels of `dma.c`, their effect in closed
  form, conservation over abstract runs, the runs that carry them out, and memory-to-memory copying.
- `Mo`, `MoFormatter`, `MoPipeline`: the optical storage processor of `mo.c`, which joins the code and the
  channel, the formatter that follows the spiralling head, and whole operations on many sectors.
- `Scsi`, `Esp`, `DmaScsi`, `DmaScsiRuns`, `DmaScsiWrite`, `DmaScsiWriteRuns`: the SCSI disk of `scsi.c`, the
  transfer counter and FIFO of `esp.c`, the way of a READ from the disk through both FIFOs into memory and
  of a WRITE back, and runs of both.
- `EthernetModel`, `EthernetLaws`, `Ethernet`: the packet arbitration of `ethernet.c`, as abstract runs, what
  becomes of each packet in them, and the chip that carries them out.
- `Rtc`, `Path`: the bit-serial RAM interface of `rtcnvram.c`, and the path cleaning of `file.c`.

`dafny verify dfyconfig.toml` checks everything.

## How the source is represented

- A byte is a wrapped 8-bit vector; field elements, sectors, memory and disks are made of these. The
  32-bit remainder of `ecc_block` is its four bytes, most significant first.
- The tables of `rs.c` are represented by the functions they tabulate, repeated doubling modulo 0x11d,
  its inverse, and the remainder of a byte; the Row lemmas compare these with the literals.
- The four coefficient arrays of the string decoder are sequences of length five that the methods
  reassign; the sector itself is an array that is changed in place.
- Event handlers are an arbitrary function from the log of firings so far to calls back into the
  scheduler. Times are 64-bit words with explicit wrap-around. In real time the machine says for each event
  whether it is used with cycles, with the host clock, or both. The theorems about dispatch assume
  compliant handlers: positive delays; a call puts its event only where that event is used; an update that
  counts in cycles is made only by the handler of that event, after it went off by its cycles; no overflow
  before a horizon; and a host clock that does not run backwards and stays, with the
  deadlines, in the lower half of the 64-bit range. This is asked of a handler only where its event goes
  off as it is used, so handlers need not ask how they were called. The invariants of the linked queues
  over runs need none of this.
- Memory is a sequence of bytes and a set of addresses whose access faults; both may change between
  transfers. What the source does in a CATCH block is modelled for each routine.
- An `abort()` of the source is a precondition, or, in methods about whole runs, the end of the run.
- Disk images are sequences of whole blocks or sectors; interrupts are sets or lists of signals.
- Where a promise fails for some inputs, the exact condition under which it holds is proved: see
  `RsTwoErrors.DoubleErrorCorrectedIff`, `RsAnswers.OneAnswerIff`, `Scsi.Target.WriteThenRead`, `Rtc.BurstInsideIff`,
  `Rtc.ReadBackIff` and `Path.MakeAbsoluteName`.
- The events between two ticks of the spiralling head are any number from the least that the proofs need;
  the delays of `mo.c` leave room for four.

## What the proofs show about the code

- Two errors in one string are not always repaired. Equal error values can lead the iteration to a
  locator of the wrong degree, and an 8-bit sum at lines 305 and 314 of `rs.c` can wrap, in which case
  the decoder reports two corrections and damages the string.
- Some strings with three wrong bytes are answered with one correction in a fourth place, because the first
  syndrome is not compared with the others (`RsAnswers.OneAnswerIff`, `RsAnswers.FalseOne`).
- Under SCSI write protection the first block written is lost, because the branch that creates the
  overlay does not store it; and when protection is switched off later, blocks in the overlay hide
  what is written to the image.
- A hard reset of the ethernet chip does not reset the receiver state. The equivalence between
  network-busy and a pending frame holds nevertheless, because it does not depend on that state. But after
  a hard reset in the middle of a frame no packet of the network is taken any more, until the chip hears one
  of its own (`EthernetLaws.Deaf`).
- The older ethernet chip sends the bytes of all buffers of a packet without the last fifteen
  (`EthernetLaws.HeardOwn`).
- The RAM of the MC68HC68T1 is indexed with seven address bits although it has 32 cells. Address 0x40 lies
  outside it (`Rtc.FortyStrays`), and a burst that starts at 0x33 to 0x3F runs into it
  (`Rtc.BurstInsideIff`).
- A burst that goes past the last cell of its bank is not read back in general, because the address turns
  over: on the MC68HC68T1 to 0x00, which is a read address (`Rtc.ReadBackIff`).
- A memory-to-memory copy that faults while it reads writes as many bytes as it has read, but from the end
  of its burst buffer instead of its beginning (`DmaCopy.Copier.Step`).
- Making a relative name absolute can store a zero one place behind the buffer: exactly if the output is
  at some moment as long as the buffer (`Path.MakeAbsoluteName`), even if the final name would fit.
- An optical write that starts with its first sector under the head misses it
  (`MoFormatter.Formatter.SpinTooLate`); with a lead of at least one sector it does not
  (`MoPipeline.WriteSectors`), unless the timer runs out (`MoFormatter.Formatter.SpinInVain`).

## Model

| member | source | states |
|---|---|---|
| `GaloisField.ExpRow0` | reference/previous/src/rs.c:59-108 | the first sixteen powers of alpha under repeated doubling modulo 0x11d are the literals of t_exp; ExpRow1 to ExpRow15 do the other rows of its first period |
| `GaloisField.ExpPeriod` | reference/previous/src/rs.c:59-108 | the powers repeat after 255, so the rest of the table repeats the first period |
| `GaloisField.ExpInjective` | reference/previous/src/rs.c:59-127 | the 255 powers are different from each other, so alpha is primitive |
| `GaloisField.LogExp` | reference/previous/src/rs.c:110-127 | logarithm and power are inverse |
| `GaloisField.MulAssoc` | reference/previous/src/rs.c:59-127 | the product by logarithms and powers, as the decoder forms it, is associative; with MulComm, MulDistrib and MulInv it makes the bytes a field |
| `GaloisField.MulDistrib` | reference/previous/src/rs.c:59-127 | the product distributes over exclusive or |
| `GaloisField.MulInv` | reference/previous/src/rs.c:59-127 | every byte but zero has an inverse |
| `RsTables.LogRow0` | reference/previous/src/rs.c:110-127 | the first sixteen literals of t_log are the logarithms used in the proofs; LogRow1 to LogRow15 do the other rows |
| `RsTables.RemRow0` | reference/previous/src/rs.c:24-57 | the first eight literals of t_rem are the remainders used in the proofs; RemRow1 to RemRow31 do the other rows |
| `RsString.TRemEval` | reference/previous/src/rs.c:24-143 | a table remainder takes the same value at the four roots of the generator as the byte it replaces |
| `RsString.SyndromeIsEccDifference` | reference/previous/src/rs.c:129-181 | each syndrome of a string is the value of the difference between its stored and its computed parity |
| `RsString.CodewordIff` | reference/previous/src/rs.c:154-181 | all four syndromes vanish if and only if the stored parity equals ecc_block, so the early exit of the decoder is exact |
| `RsString.EncodeIsCodeword` | reference/previous/src/rs.c:145-152 | every encoded string has four zero syndromes |
| `RsString.EccAdditive` | reference/previous/src/rs.c:129-143 | ecc_block of a sum of strings is the sum of their remainders |
| `RsString.EccHomogeneous` | reference/previous/src/rs.c:129-143 | ecc_block commutes with multiplication by a field element |
| `RsDecoder.SingleErrorCorrected` | reference/previous/src/rs.c:154-337 | for every codeword, position and nonzero error value the decoder restores the string and answers 1 |
| `RsTwoErrors.DoubleErrorCorrectedIff` | reference/previous/src/rs.c:183-337 | two errors are repaired if and only if the iteration finds their locator and neither 8-bit sum of a logarithm and a position wraps; otherwise the exact answer, -1 with the string unchanged or 2 with a wrong correction |
| `RsTwoErrors.MissedPair` | reference/previous/src/rs.c:213-247 | a concrete pair of equal errors that the decoder gives up on |
| `RsTwoErrors.WrappedPair` | reference/previous/src/rs.c:298-318 | a concrete pair that is reported as corrected although the string is wrong |
| `RsAnswers.AllClassified` | reference/previous/src/rs.c:183-264 | for arbitrary syndromes: the iteration ends with a linear locator exactly if the last three syndromes are a geometric progression, nonzero like the first; the locator is then its ratio, and the two polynomials differ by the first syndrome |
| `RsAnswers.OneAnswerIff` | reference/previous/src/rs.c:320-331 | for an arbitrary string: the answer is 1 if and only if the last three syndromes are such a progression whose ratio names one of the 36 positions; the byte there is changed by the first syndrome, and the result is a codeword if and only if the first two syndromes have the same ratio |
| `RsAnswers.FalseOne` | reference/previous/src/rs.c:320-331 | three wrong bytes of any codeword that are answered with 1 although the result is no codeword |
| `RsCodec.EccBlock` | reference/previous/src/rs.c:129-143 | the loop computes the remainder register of the specification without writing anything |
| `RsCodec.EncodeStrand` | reference/previous/src/rs.c:145-152 | the strand becomes the encoded string and no other byte of the array changes |
| `RsCodec.ComputeSyndromes` | reference/previous/src/rs.c:166-181 | the loop over logarithms computes the syndromes as polynomial values |
| `RsCodec.BerlekampMassey` | reference/previous/src/rs.c:183-264 | the loops over the four coefficient arrays compute the abstract iteration, all accesses in range |
| `RsCodec.SearchRoot` | reference/previous/src/rs.c:274-287 | the root search finds the first root position of the locator, or none |
| `RsCodec.ComputeErrorValue` | reference/previous/src/rs.c:300-318 | the error value, with its 8-bit truncation |
| `RsCodec.DecodeStrand` | reference/previous/src/rs.c:154-337 | for every array, the strand becomes what the string decoder says and the answer is its answer; all table and array accesses are in range and only the strand is written |
| `RsSector.DecodeAnswers` | reference/previous/src/rs.c:154-337 | for arbitrary input the answer is -1, 0, 1 or 2; -1 and 0 leave the string as it was, and 0 is given exactly to codewords |
| `RsSector.ParityColumns` | reference/previous/src/rs.c:339-351 | if all rows and the 32 data columns are codewords then so are the four parity columns |
| `RsSector.Encode` | reference/previous/src/rs.c:339-351 | the array holds the data, and all 36 rows and all 36 columns are codewords, including the parity columns that were never encoded |
| `RsSector.SectorCorrected` | reference/previous/src/rs.c:353-378 | one row damaged in any way and every other row in at most one byte, or in two bytes of a repairable pair: decoding succeeds and gives back all 1024 bytes |
| `RsSector.DamageCounted` | reference/previous/src/rs.c:353-378 | if every row can be repaired, the rows alone restore the sector, and the count of corrections is the number of wrong bytes |
| `RsSector.Decode` | reference/previous/src/rs.c:353-378 | the exact result of every decoding: the count and the data, or -1 and the state at the first column that fails |
| `Mo.EncodedReadable` | tb/gen_rs_vectors.c:59-60 | the plain round trip: decoding an undamaged encoded sector gives back the data |
| `Schedule.InsertSorted` | reference/previous/src/cycInt.c:150-172 | insertion before the first event that is not earlier keeps the queue in deadline order |
| `Schedule.ApplyMoves` | reference/previous/src/cycInt.c:178-277 | every add, update and remove, for any operands, keeps both queues sorted, duplicate-free and disjoint, and moves only its own event |
| `Dispatch.DispatchDecreases` | reference/previous/src/cycInt.c:115-123 | when handlers re-arm with positive delays, firing the first due event decreases the total overdue time |
| `Dispatch.DispatchTimeDecreases` | reference/previous/src/cycInt.c:124-142 | in the time loop either the clock moves on or one event less is due |
| `DispatchTheorems.RunCyclesInOrder` | reference/previous/src/cycInt.c:115-123 | the cycle loop fires events in the order of their deadlines and none before its time |
| `DispatchTheorems.AdvanceSafe` | reference/previous/src/cycInt.c:115-144 | one call fires no cycle event early, leaves no due one pending, serves deadlines in order, and fires only due time events afterwards |
| `DispatchTheorems.PeriodicCount` | reference/previous/src/cycInt.c:115-123 | an event whose handler always re-arms it with period p, in cycles or, without real time, in microseconds, has fired exactly (C - t0) / p + 1 times once the counter has reached C, however the cycles were batched and whatever the other handlers do |
| `Alarms.FiresWhenDue` | reference/previous/src/cycInt.c:115-123 | a pending cycle event that the handlers leave alone fires exactly once, with its deadline, in the first call that reaches it and in none before |
| `Alarms.AddedFires` | reference/previous/src/cycInt.c:178-235 | after AddCyclesEvent(d) at counter c the event fires exactly once, due at c + d, in the first call of AddCycles that reaches it and in none before; after UpdateCyclesEvent, due at the old deadline plus d; and without real time after AddTimeEvent and UpdateTimeEvent, by so many microseconds times the frequency |
| `Alarms.RemovedIsSilent` | reference/previous/src/cycInt.c:258-277 | a removed event does not fire any more |
| `Alarms.NextLook` | reference/previous/src/cycInt.c:124-142 | after the time events were served, the host clock is looked at again when the first pending one is due, but not later than the check interval |
| `Alarms.DueIsServed` | reference/previous/src/cycInt.c:124-142 | a time event that is due fires exactly once by the next look at the host clock |
| `Alarms.AddedTimeFires` | reference/previous/src/cycInt.c:199-216 | in real time, after AddTimeEvent the event fires at most once, due so many microseconds after the call by the host clock and not before; and once the clock has passed that, within one check interval of cycles |
| `Alarms.KeepsBeat` | reference/previous/src/cycInt.c:217-235 | an update in real time extends the old deadline unless it is late by more than half the delay, when it starts from the present |
| `AlarmRuns.SetByCycles` | reference/previous/src/cycInt.c:178-185 | on the linked queues: AddCyclesEvent followed by any calls of AddCycles fires the event exactly once, at the counter of the call plus the cycles |
| `AlarmRuns.SetByCycleTime` | reference/previous/src/cycInt.c:241-246 | likewise AddCycleTimeEvent, at the counter plus microseconds times the frequency, with the short delay in real time |
| `AlarmRuns.SetByTime` | reference/previous/src/cycInt.c:199-216 | likewise AddTimeEvent without real time |
| `AlarmRuns.SetByClock` | reference/previous/src/cycInt.c:199-216 | AddTimeEvent in real time followed by any calls: the event is pending or has fired once, at the host clock of the call plus the delay |
| `AlarmRuns.LetItFire` | reference/previous/src/cycInt.c:115-144 | once the host clock has passed its time, it has fired after one check interval of cycles |
| `DispatchTheorems.ClockworkComplies` | reference/previous/src/cycInt.c:186-235 | the conditions can be met, in both modes, by handlers as they are written: one that always re-arms its event by UpdateTimeEvent beside one that always does so by UpdateCyclesEvent, neither asking how its event went off; the second is periodic, and without real time so is the first |
| `CycInt.Scheduler.Reset` | reference/previous/src/cycInt.c:89-110 | both linked queues are empty and every event is idle with maximal time |
| `CycInt.Scheduler.AddEvent` | reference/previous/src/cycInt.c:150-172 | walking and splicing the links inserts into the abstract queue |
| `CycInt.Scheduler.RemovePendingEvent` | reference/previous/src/cycInt.c:258-277 | unlinking removes exactly this event from its queue |
| `CycInt.Scheduler.AddCyclesEvent` | reference/previous/src/cycInt.c:178-185 | the linked state refines the abstract operation, after which the event fires once at the counter of the call plus the cycles (AlarmRuns.SetByCycles) |
| `CycInt.Scheduler.UpdateCyclesEvent` | reference/previous/src/cycInt.c:186-193 | the linked state refines the abstract operation, which extends the old deadline |
| `CycInt.Scheduler.AddTimeEvent` | reference/previous/src/cycInt.c:199-216 | the linked state refines the abstract operation in both timing modes; when the event then fires is in AlarmRuns.SetByTime and SetByClock |
| `CycInt.Scheduler.UpdateTimeEvent` | reference/previous/src/cycInt.c:217-235 | the linked state refines the abstract operation in both timing modes |
| `CycInt.Scheduler.AddCycleTimeEvent` | reference/previous/src/cycInt.c:241-246 | microseconds become cycles of the abstract operation |
| `CycInt.Scheduler.UpdateCycleTimeEvent` | reference/previous/src/cycInt.c:247-252 | microseconds become cycles of the abstract operation |
| `CycInt.Scheduler.AddCycles` | reference/previous/src/cycInt.c:115-144 | both loops terminate under compliant handlers and the linked state refines the abstract dispatch, to which AdvanceSafe and PeriodicCount apply; the queues stay linked, acyclic, disjoint and sorted, with membership given by the tag and the sentinel maximal |
| `CycRuns.Outcome` | reference/previous/src/cycInt.c:89-277 | the abstract scheduler after any sequence of resets, calls, counting of cycles, readings of the clock and single firings with arbitrary handlers, and of whole dispatches; both queues stay sorted, duplicate-free and disjoint and the sentinel maximal |
| `CycRuns.Run` | reference/previous/src/cycInt.c:89-277 | any such sequence on the linked lists keeps them acyclic and doubly linked, with membership given by the tag, and spells out the abstract outcome |
| `CycRuns.FreshStart` | reference/previous/src/cycInt.c:89-110 | after a reset the conditions for whole dispatches hold |
| `Dma.Channel.CsrWrite` | reference/previous/src/dma.c:180-247 | the register bits after a command to a device channel, and an initialised buffer |
| `Dma.Channel.Interrupt` | reference/previous/src/dma.c:361-381 | at the limit the channel completes and chains or disables itself, elsewhere nothing moves; a complete channel, and no other, raises the interrupt |
| `Dma.Channel.FillFromDevice` | reference/previous/src/dma.c:587-597 | the FIFO is topped up with the next bytes of the device, in order |
| `Dma.Channel.DrainToMemory` | reference/previous/src/dma.c:599-612 | the oldest bytes of a full FIFO are stored at next, in order, aligned and below the limit, until it is empty, the limit is reached or an access faults |
| `Dma.Channel.FillFromMemory` | reference/previous/src/dma.c:645-654 | the FIFO is topped up with the long words at next, aligned and below the limit |
| `Dma.Channel.DrainToDevice` | reference/previous/src/dma.c:659-672 | the oldest bytes of a full FIFO go to the device, in order |
| `Dma.Channel.WriteMemory` | reference/previous/src/dma.c:572-627 | a device-to-memory transfer: which bytes were taken and where they were stored, the FIFO afterwards, the chained registers, the exact state for each way of stopping, and the interrupt, raised afterwards exactly if it was before or the enabled channel then is complete |
| `Dma.Channel.ReadMemory` | reference/previous/src/dma.c:629-691 | a memory-to-device transfer, likewise, with its interrupt |
| `DmaModel.InDetermined` | reference/previous/src/dma.c:572-627 | the state after a device-to-memory transfer is determined: however it stops, it is the closed form MovedIn, so many whole bursts as fit, the rest of the last one in the FIFO |
| `DmaModel.OutDetermined` | reference/previous/src/dma.c:629-691 | likewise for a memory-to-device transfer and the closed form MovedOut |
| `DmaRuns.ConservedIn` | reference/previous/src/dma.c:387-452 | over any script of transfers, register and control writes, refills and faults: the bytes stored, in the FIFO and left in the device are together, in order, those that were there and those the effective refills supplied; memory is the old memory with these stores, each inside the buffer programmed at the time |
| `DmaRuns.ConservedOut` | reference/previous/src/dma.c:497-568 | over any script: the bytes the device passed on, holds and has coming in the FIFO are together, in order, those that were there and those read from memory, each chunk from inside the buffer programmed at the time |
| `DmaRuns.MovedInLine` | reference/previous/src/dma.c:361-381 | an enabled transfer to memory leaves the interrupt raised exactly if it was before or the channel then is complete; and it is complete exactly if it was before, its limit is reached, or an access faulted with bytes still to be moved |
| `DmaRuns.MovedOutLine` | reference/previous/src/dma.c:361-381 | likewise from memory, where the bytes still to be fetched are those below the limit |
| `DmaRuns.RaisedInOnly` | reference/previous/src/dma.c:361-381 | over any script of transfers to memory the interrupt is raised at the end only if it was at the start or an enabled transfer ended complete |
| `DmaRuns.RaisedOutOnly` | reference/previous/src/dma.c:361-381 | over any script of transfers from memory, likewise |
| `DmaRuns.ChainedIn` | reference/previous/src/dma.c:361-381 | two chained buffers, of any lengths that are whole bursts together: the first transfer fills the first and switches, complete and still enabled, with the next burst begun; the second fills the second and disables the channel; both then hold the bytes of the device in order |
| `DmaRuns.ProgrammedIn` | reference/previous/src/dma.c:180-247 | programming a channel for two buffers, whatever its registers were, and transferring twice puts the bytes of the device into both in order, with the channel complete, disabled and its interrupt raised |
| `DmaRuns.ChainedOut` | reference/previous/src/dma.c:361-381 | two chained buffers are fetched in two transfers, likewise, and the device holds the bytes of both in order |
| `DmaDriver.DriveIn` | reference/previous/src/dma.c:572-627 | every run of the device-to-memory routine ends in the state that the abstract run of ConservedIn gives for the same script, or aborts where it does |
| `DmaDriver.DriveOut` | reference/previous/src/dma.c:629-691 | every run of the memory-to-device routine ends in the state that the abstract run of ConservedOut gives for the same script, or aborts where it does |
| `DmaCopy.Copier.Step` | reference/previous/src/dma.c:931-972 | one event of a memory-to-memory copy, exactly: how many bytes are read before a fault, which bytes of the burst buffer are written before a fault, and the registers and interrupts of both channels; after a fault while reading, the bytes written are taken from the end of the buffer and are not those read |
| `DmaCopy.Copier.Control` | reference/previous/src/dma.c:228-246 | a control write to one of the two copy channels: a channel without bytes is not enabled, and the copy is scheduled exactly if both are enabled and hold whole bursts |
| `DmaCopy.Copier.Handler` | reference/previous/src/dma.c:908-913 | the handler is scheduled again exactly while the write channel is enabled |
| `DmaCopy.Copier.Run` | reference/previous/src/dma.c:908-972 | between disjoint ranges of whole bursts, unchained and without faults, the target holds the source and then its last burst repeated, after one event per burst, with the write channel complete and disabled |
| `Mo.LogicalSector` | reference/previous/src/mo.c:168-180 | logical sectors stay inside the disk image |
| `Mo.DamagedReadable` | reference/previous/src/rs.c:353-378 | a stored sector damaged within the limits of the code decodes to its data |
| `Mo.ReadIn` | reference/previous/src/dma.c:629-691 | every fetch into a sector buffer has its closed form; a fetch of one sector from a buffer of any number of sectors delivers exactly that sector, although the FIFO runs one burst ahead, and leaves the channel at the next one |
| `Mo.SectorFetched` | reference/previous/src/dma.c:629-691 | why: of the sectors from base on, the first goes to the buffer, and one burst of the next to the FIFO if there is a next |
| `Mo.Flush` | reference/previous/src/mo.c:965-980 | draining, in closed form: the channel is called once more if that emptied the buffer; a whole sector is stored at next, and the second call changes nothing |
| `Mo.Processor.ToggleBuffer` | reference/previous/src/mo.c:787-796 | the two buffers change places |
| `Mo.Processor.EccDecode` | reference/previous/src/mo.c:802-832 | a ready buffer is decoded to its data and becomes the output buffer; a sector beyond repair sets the error status and signals a data error; the error count takes the first count that is not zero; with decoding disabled the contents stay as they are |
| `Mo.Processor.EccEncode` | reference/previous/src/mo.c:833-851 | a ready buffer is encoded and becomes the output buffer |
| `Mo.Processor.EccWrite` | reference/previous/src/mo.c:852-865 | accepted only when idle; starts filling an empty input buffer |
| `Mo.Processor.EccRead` | reference/previous/src/mo.c:866-877 | accepted only when idle; starts decoding |
| `Mo.Processor.EccVerify` | reference/previous/src/mo.c:878-886 | accepted only when idle; starts verifying |
| `Mo.Processor.SequenceDone` | reference/previous/src/mo.c:887-904 | repeats once for block mode, else becomes idle |
| `Mo.Processor.Handler` | reference/previous/src/mo.c:906-999 | the whole state machine: filling in whole or in part and starvation, encoding, waiting for the disk, decoding, verifying, errors beyond repair, the count of corrected errors, draining in whole or in part, and the pass-through modes, with the interrupts, the channel and memory; it is scheduled again exactly if it is not idle |
| `Mo.Processor.ReadSector` | reference/previous/src/mo.c:1006-1015 | the input buffer holds the sector of the disk |
| `Mo.Processor.WriteSector` | reference/previous/src/mo.c:1017-1033 | exactly this sector of the disk becomes the output buffer |
| `MoFormatter.Formatter.SectorDone` | reference/previous/src/mo.c:599-612 | the next address and one sector less; completion at zero |
| `MoFormatter.CountedMoves` | reference/previous/src/mo.c:599-612 | for every increment the address moves on by as many places along the spiral, the track wrapping after 65536; one sector less is to go, and the operation completes exactly with the last |
| `MoFormatter.IdIsRead` | reference/previous/src/mo.c:655-660 | reading an ID leaves the track and sector under the head in the address registers |
| `MoFormatter.Formatter.MatchId` | reference/previous/src/mo.c:616-648 | a hit exactly on equal IDs; the sector timer and its timeout |
| `MoFormatter.Formatter.FormatterIo` | reference/previous/src/mo.c:650-714 | what each mode does with a passing sector ID: to the registers, and to the sector buffers, the error correction and the disk |
| `MoFormatter.Formatter.Tick` | reference/previous/src/mo.c:1542-1562 | both heads move on by one sector along the spiral, unless they are not spiralling or are seeking, and the selected one passes its ID to the formatter, in every mode |
| `MoFormatter.AlongNext` | reference/previous/src/mo.c:599-714 | once in step with the head, formatter and head advance together, so every later ID matches |
| `MoFormatter.EveryNth` | reference/previous/src/mo.c:599-714 | with any sector increment from 1 to 32 an operation of n sectors touches every increment-th sector along the spiral, each when it comes under the head, and completes with the last; the timer never runs out in between |
| `MoFormatter.Formatter.Spin` | reference/previous/src/mo.c:599-714 | a read, verify or erase of n sectors whose first sector lies ahead reaches exactly n consecutive logical sectors, one a tick, and completes with the n-th; exactly these are erased by an erase |
| `MoFormatter.Formatter.SpinInVain` | reference/previous/src/mo.c:616-648 | with the timer on and the first sector more than 32 sectors ahead, no operation, reading or writing, touches a sector, and it times out |
| `MoFormatter.Formatter.SpinTooLate` | reference/previous/src/mo.c:673-687 | a write whose first sector is under the head when it starts writes nothing: the sector passes while the buffer is filled; the next ID times out if the timer is on, and none matches otherwise |
| `MoPipeline.ReadSectors` | reference/previous/src/mo.c:650-999 | reading n sectors: with any lead in time and any number of error-correction events between the ticks, but at least two, after t ticks exactly the sectors reached so far are in memory, decoded and in order, and nothing else of it changed; counters, interrupts and channel as the count says |
| `MoPipeline.VerifySectors` | reference/previous/src/mo.c:650-999 | verifying n sectors leaves memory, the channel and the disk alone; it ends with the error status and a data error if and only if a sector reached is beyond repair, and the error count is the first that is not zero |
| `MoPipeline.WriteSectors` | reference/previous/src/mo.c:650-999 | writing n sectors: with any lead in time but zero and at least three events between the ticks, after t ticks exactly the sectors reached so far hold the encoded sectors of memory in order, and no other sector changed |
| `MoPipeline.RoundTrip` | reference/previous/src/mo.c:650-999 | n sectors go from memory to the disk and back to any other place, through FIFO bursts, buffer toggles, encoding, the spiralling head and decoding, and are the same bytes, even if every sector on the disk is damaged within the limits of the code |
| `Scsi.Target.LoadBlock` | reference/previous/src/scsi.c:557-590 | the next block of a READ, from the overlay or the image, status phase at the end, or the report of a missing block |
| `Scsi.Target.ReadSector` | reference/previous/src/scsi.c:591-612 | what a READ has to send and the phase it starts in |
| `Scsi.ClassZero` | reference/previous/src/scsi.c:224-242 | the address and the count of a class 0 command are those the initiator put into it, highest byte first, 256 being sent as zero and the logical unit above the address being ignored |
| `Scsi.ClassOne` | reference/previous/src/scsi.c:224-242 | and those of a class 1 command, for all 32-bit addresses and 16-bit counts |
| `Scsi.StreamAt` | reference/previous/src/scsi.c:557-590 | what a READ has to send is, byte for byte, the blocks from the first one on |
| `Scsi.Target.SendData` | reference/previous/src/scsi.c:1021-1033 | the next byte of what is due, of a READ or of a reply in the buffer; status phase exactly when nothing is left |
| `Scsi.Target.Read` | reference/previous/src/scsi.c:557-612 | a READ of n blocks at l sends exactly the existing ones in order, then status: GOOD if all exist, else CHECK CONDITION with the first missing address |
| `Scsi.Target.ReadAt` | reference/previous/src/scsi.c:224-612 | a READ of n blocks from block l on, as a command of either class: the blocks that exist, and the status |
| `Scsi.StoreView` | reference/previous/src/scsi.c:489-514 | how a stored block changes what is seen, for every combination of write protection and overlay |
| `Scsi.Target.StoreBlock` | reference/previous/src/scsi.c:482-523 | a stored block is seen afterwards exactly if it is taken; write protection leaves the image alone |
| `Scsi.Target.WriteSector` | reference/previous/src/scsi.c:525-555 | the start of a WRITE and the refusal on a read-only disk |
| `Scsi.Target.ReceiveData` | reference/previous/src/scsi.c:1007-1019 | bytes collect in the buffer, and the last one of a block stores it |
| `Scsi.Target.Take` | reference/previous/src/scsi.c:1007-1019 | in the middle of a WRITE every byte taken keeps its account: the stored blocks and the buffer spell the bytes given so far, and what is seen is the old disk with the taken blocks |
| `Scsi.Target.Write` | reference/previous/src/scsi.c:482-555 | exactly the blocks that exist and are taken are seen after a WRITE, and the status tells whether all exist |
| `Scsi.Target.WriteThenRead` | reference/previous/src/scsi.c:482-612 | a READ after a WRITE returns the written bytes if and only if each block is taken or was there before |
| `Scsi.Target.WriteAt` | reference/previous/src/scsi.c:224-555 | a WRITE from block l on, as a command of either class: the blocks that exist and are taken are seen, or the refusal of a read-only disk |
| `Scsi.Target.WriteAtThenReadAt` | reference/previous/src/scsi.c:224-612 | what was written at l with a command of either class is read at l with a command of either class, if and only if each block is taken or was there before |
| `Scsi.FirstWriteLost` | reference/previous/src/scsi.c:496-506 | whatever the disk and the block, the write that creates the overlay is not seen |
| `Scsi.WriteHidden` | reference/previous/src/scsi.c:489-492 | whatever the disk and the block, a write with protection switched off is hidden by a block in the overlay |
| `Scsi.Target.Run` | reference/previous/src/scsi.c:482-612 | every run of READ and WRITE commands on any disk, read-only, protected or with an overlay left from before, answers as a plain block store does; under protection the image never changes |
| `Esp.Controller.LoadCounter` | reference/previous/src/esp.c:538-548 | the loaded count is between 1 and 65536, zero meaning the maximum |
| `Esp.Controller.ReadFifo` | reference/previous/src/esp.c:431-454 | a byte from the FIFO; or, if it is empty in the middle of a transfer without DMA, the next due byte of the target, of a READ or of a reply, counted, the transfer ending at count zero or on a phase change; or zero |
| `Esp.Controller.FifoWrite` | reference/previous/src/esp.c:456-466 | a byte is appended, or the top overwritten with a gross error |
| `Esp.Controller.SendData` | reference/previous/src/esp.c:392-400 | a byte from the FIFO, else from the target with the counter decreased; the balance is kept |
| `Esp.Controller.FillFifo` | reference/previous/src/esp.c:379-388 | the FIFO takes bytes of the target in order, each counted, without overflow |
| `Esp.Controller.EmptyFifo` | reference/previous/src/esp.c:402-406 | bytes of the FIFO go to the target in order, each counted, until the FIFO, the count or the phase ends; what the target holds is what it was given since the WRITE began |
| `Esp.Controller.GiveToTarget` | reference/previous/src/esp.c:414-418 | a byte goes to the target and is counted; the stored blocks and the buffer of the target spell what it was given since the WRITE began |
| `Esp.Controller.StartWrite` | reference/previous/src/scsi.c:525-555 | a WRITE starts its account with nothing given, in the data-out phase if there is anything to write |
| `Esp.Controller.TransferDone` | reference/previous/src/esp.c:833-854 | done exactly at count zero or on a phase change |
| `Esp.Controller.TransferPad` | reference/previous/src/esp.c:920-944 | padding discards exactly as many due bytes as are counted, or gives the target that many zeros, which it then holds, until count zero or the status phase |
| `Esp.Controller.TransferIn` | reference/previous/src/esp.c:389-400 | a transfer hands over exactly the FIFO and then as many due bytes as the counter allows, in order |
| `Esp.Controller.ReadByTransfers` | reference/previous/src/esp.c:379-400 | any series of counted transfers brings the blocks of a READ in order, and all of them by the status phase |
| `DmaScsi.FillFromController` | reference/previous/src/dma.c:416-422 | the FIFO is topped up with the pending bytes of controller and target, in order |
| `DmaScsi.WriteMemory` | reference/previous/src/dma.c:387-452 | a transfer from the SCSI target to memory: bytes stored, in the FIFO and pending are conserved in order, with the exact state for each way of stopping |
| `DmaScsi.ReadToMemory` | reference/previous/src/dma.c:387-452 | a READ fetched by one transfer of the right size leaves its blocks in memory, in order, with the target in the status phase and the channel at its limit |
| `DmaScsiRuns.Drive` | reference/previous/src/dma.c:387-452 | any run in the middle of a READ, with several transfers, chained buffers and faults, ends as the abstract run of ConservedIn says |
| `DmaScsiRuns.ReadInTicks` | reference/previous/src/dma.c:387-452 | a READ with any count, fetched by any run of the channel: the bytes stored, in the FIFO and pending are together the blocks of the READ as far as the count goes, in order, each store inside the buffer programmed at the time |
| `DmaScsiWrite.ReadMemory` | reference/previous/src/dma.c:497-568 | a transfer from memory to the SCSI target: bytes fetched, in the FIFO and given to the target are conserved in order, with the exact state for each way of stopping |
| `DmaScsiWrite.WriteFromMemory` | reference/previous/src/dma.c:497-568 | a WRITE supplied by one transfer of the right size ends with status GOOD, and the blocks seen on the disk are those of memory, in order, as far as they are taken |
| `DmaScsiWrite.WriteEnds` | reference/previous/src/scsi.c:482-523 | a WRITE of any blocks ends exactly when it has been given all it takes: all its blocks, or those that exist and one more |
| `DmaScsiWriteRuns.Drive` | reference/previous/src/dma.c:497-568 | any run in the middle of a WRITE, with several transfers, chained buffers and faults, ends as the abstract run of ConservedOut says |
| `DmaScsiWriteRuns.WriteInTicks` | reference/previous/src/dma.c:497-568 | a WRITE with any count, supplied by any run of the channel: what the target was given and what is in the FIFO are together, in order, what was read from memory, each chunk from inside the buffer programmed at the time; the complete blocks given are those that landed on the disk, and the status phase is reached exactly when the WRITE has all it takes |
| `Ethernet.Chip.HardReset` | reference/previous/src/ethernet.c:762-771 | buffers are empty and the network is free |
| `Ethernet.Chip.Receive` | reference/previous/src/ethernet.c:418-431 | a packet becomes the pending frame, and the network is busy exactly while one is pending; required is that no frame is pending, which holds at every call |
| `Ethernet.Chip.WriteFrame` | reference/previous/src/dma.c:820-869 | the byte loop stores the closed form: from the start of the current buffer the part of the frame that fits before its end or a fault, the registers chained or complete |
| `Ethernet.Chip.FetchPacket` | reference/previous/src/dma.c:871-901 | one buffer is appended to the outgoing packet, done at an end-of-packet mark |
| `Ethernet.Chip.Deliver` | reference/previous/src/ethernet.c:507-535 | packet-OK is reported exactly when the frame is stored in full, an overflow when nothing could be stored |
| `Ethernet.Chip.ReceiveStep` | reference/previous/src/ethernet.c:480-539 | the receiving half; network-busy stays equivalent to an undelivered frame |
| `Ethernet.Chip.TransmitStep` | reference/previous/src/ethernet.c:541-578 | nothing is sent while the network is busy, so a pending frame is never overwritten; a looped packet is what was collected from memory |
| `Ethernet.Chip.Step` | reference/previous/src/ethernet.c:645-726 | one call of the handler refines the abstract step in memory, registers and reports, and keeps network-busy equivalent to an undelivered frame |
| `Ethernet.Chip.Run` | reference/previous/src/ethernet.c:728-771 | from a hard reset, any run is the abstract run of the same script, whose books balance |
| `EthernetModel.RunBooked` | reference/previous/src/ethernet.c:418-578 | over any run the accepted packets, in order, are those delivered, dropped or overflowed and the one under way; the k-th report belongs to the k-th accepted packet that was neither dropped nor overflowed; its frame begins with that packet, memory at the report is memory at acceptance with the stores of the frame, and these spell the frame, each inside the buffer programmed at the time |
| `EthernetModel.StepBooked` | reference/previous/src/ethernet.c:480-578 | one step keeps these books |
| `EthernetLaws.FrameHeard` | reference/previous/src/ethernet.c:418-431 | a packet is heard as a frame of its length and a checksum, but of 64 bytes at least |
| `EthernetLaws.Arrival` | reference/previous/src/ethernet.c:496-500 | an idle waiting chip on a network takes exactly the first packet of the queue that passes the filter |
| `EthernetLaws.LostIff` | reference/previous/src/ethernet.c:480-539 | a frame is lost in a step if and only if it waits with less than 64 bytes while short packets are off, or not one byte of it can be stored |
| `EthernetLaws.NeverShort` | reference/previous/src/ethernet.c:418-539 | over any run no packet is dropped as short, because frames are never that short |
| `EthernetLaws.NothingLost` | reference/previous/src/ethernet.c:480-539 | if in every step of a run the next byte of the frame can be stored, every packet that meets its fate is stored |
| `EthernetLaws.ChainsOn` | reference/previous/src/dma.c:800-818 | the ethernet channel always completes, and goes on with the chained buffer if there is one |
| `EthernetLaws.Received` | reference/previous/src/ethernet.c:507-535 | with an enabled, aligned and faultless buffer a frame that fits is stored and reported, and one that does not fills the buffer and goes on |
| `EthernetLaws.DeliveredInTime` | reference/previous/src/ethernet.c:507-535 | over any run with such buffers, chained or programmed in between, a pending frame is reported in the step in which their total room reaches its length, and in none before |
| `EthernetLaws.Pointer` | reference/previous/src/dma.c:846-866 | where the pointer stands after a frame: behind its last byte, marked after a further buffer of the older chip, at a burst boundary on the newer one |
| `EthernetLaws.Deaf` | reference/previous/src/ethernet.c:762-771 | a hard reset in the middle of a frame leaves the receiver without one in its receiving state, and from then on no packet of the network is taken until the chip hears one of its own |
| `EthernetLaws.Collected` | reference/previous/src/dma.c:871-901 | the transmitter appends exactly the bytes from next up to the address in limit |
| `EthernetLaws.HeardOwn` | reference/previous/src/ethernet.c:541-578 | what is sent and looped back: the bytes of one buffer on the newer chip, and on the older one those of all buffers up to the end mark without the last fifteen |
| `EthernetLaws.Silent` | reference/previous/src/ethernet.c:541-578 | nothing is sent while a frame is pending or the transmitter is off |
| `Rtc.Interface.Io` | reference/previous/src/rtcnvram.c:389-439 | one bit of the MC68HC68T1 and, with the other chip selected, of the MCCS1850, for every address and phase: the shift registers, the phase and the next address, and whether the access leaves the RAM |
| `Rtc.EightBits` | reference/previous/src/rtcnvram.c:391-410 | eight bits shifted in replace the register by the byte they spell |
| `Rtc.Interface.Exchange` | reference/previous/src/rtcnvram.c:389-439 | a whole burst of any length from any address, bit by bit, has the effect of its bytes on the cells |
| `Rtc.GoesUp` | reference/previous/src/rtcnvram.c:389-439 | the addresses of a burst go up one by one, except behind the last address of a bank |
| `Rtc.TurnsRound` | reference/previous/src/rtcnvram.c:426-432 | behind it the MCCS1850 turns to the first address of reading or of writing, and the MC68HC68T1 to the first address of its RAM or its registers for reading, even in the middle of writing |
| `Rtc.ClockByte` | reference/previous/src/rtcnvram.c:389-439 | an access to a clock register reads what the clock shows, and none changes a cell |
| `Rtc.InsideIff` | reference/previous/src/rtcnvram.c:402-425 | from which addresses and for how many bytes the MC68HC68T1 stays inside its 32 cells: for ever from 0x00 to 0x32 and from 0x60 on, and from 0x33 to 0x3F only before 0x40 |
| `Rtc.BurstInsideIff` | reference/previous/src/rtcnvram.c:389-439 | a burst stays inside the RAM if and only if it is on the MCCS1850 or meets that condition |
| `Rtc.FortyStrays` | reference/previous/src/rtcnvram.c:402-425 | address 0x40, read or written, is outside |
| `Rtc.StraysIff` | reference/previous/src/rtcnvram.c:389-439 | a burst strays exactly if one of its addresses is outside |
| `Rtc.WriteInBank` | reference/previous/src/rtcnvram.c:697-753 | a burst written inside a bank stores exactly its bytes, and no other cell changes |
| `Rtc.RamAddresses` | reference/previous/src/rtcnvram.c:697-753 | the RAM addresses of each chip: 32 cells, and another 32 at 0x40 on the MCCS1850 |
| `Rtc.CellsApart` | reference/previous/src/rtcnvram.c:697-753 | two RAM addresses are the same cell only if they are the same address; the two banks are apart |
| `Rtc.ReadsLast` | reference/previous/src/rtcnvram.c:697-753 | after a burst written at b, a read at a gives the byte that the burst has for a, or, if it has none, what it gave before |
| `Rtc.EitherOrder` | reference/previous/src/rtcnvram.c:697-753 | two bursts without a common address can be written in either order |
| `Rtc.ReadInBank` | reference/previous/src/rtcnvram.c:697-753 | a burst read inside a bank returns the bits of the cells, highest first, and changes nothing |
| `Rtc.ReadBackIff` | reference/previous/src/rtcnvram.c:402-437 | a burst from a RAM address is read back whatever the cells, the clock and the data are, if and only if it ends in its bank |
| `Rtc.Interface.WriteThenRead` | reference/previous/src/rtcnvram.c:764-795 | a burst written on either chip is read back bit for bit from the same address |
| `Path.MakeAbsoluteName` | reference/previous/src/file.c:892-990 | the in-place algorithm leaves the name that a component stack gives, whose root is never popped, if and only if the longest output on the way is shorter than the buffer, which every absolute name is; otherwise it stores its zero behind the buffer; a working directory that does not fit leaves the name alone |
| `Path.HeightAbsolute` | reference/previous/src/file.c:912-983 | an absolute name never needs more room on the way than it has |
| `Path.OneComponent` | reference/previous/src/file.c:972-986 | a relative name of one component needs room behind the working directory: a buffer that just holds the name is always overrun |
| `Path.StartFrom` | reference/previous/src/file.c:909-924 | a relative name starts with the working directory and one separator |
| `Path.CopyComponent` | reference/previous/src/file.c:974-983 | one component is copied with its separator |
| `Path.Ascend` | reference/previous/src/file.c:941-958 | the output is cut back to the parent directory, the root staying |
| `Path.Idempotent` | reference/previous/src/file.c:886-891 | cleaning a clean name changes nothing, wherever it was cleaned from |
| `Path.NoDots` | reference/previous/src/file.c:886-891 | no component of the result is "." or ".." |
| `Path.CleanStays` | reference/previous/src/file.c:892-990 | a name without dots stays what it is |
| `Path.RelativeFrom` | reference/previous/src/file.c:902-924 | a relative name is meant from the working directory |
| `Path.DotSkipped` | reference/previous/src/file.c:931-940 | anywhere in a path a "." component can be left out |
| `Path.DotsUndo` | reference/previous/src/file.c:941-958 | anywhere in a path a ".." takes back the component before it |
| `Path.RootStays` | reference/previous/src/file.c:941-958 | the root is its own parent |
| `Path.DotsAtEnd` | reference/previous/src/file.c:931-958 | dots at the end name the directory without a separator behind it |

## Left out

- Mo.Processor.FillStep: requires that the encoding mode bit is not cleared while more than 1024 bytes are in the buffer, a case in which the source waits for ever.
- MoPipeline.ReadSectors: error correction enabled, single sectors and one buffer for all sectors; block mode and chained buffers are followed only event by event, in Mo.Processor.Handler.
- MoPipeline.WriteSectors: likewise.
- MoFormatter.Formatter.MatchId: the comparison of the track alone, which aborts in the source.
- DmaScsi.ReadToMemory: one transfer with one buffer of the right size; any count and any run are in DmaScsiRuns.ReadInTicks.
- DmaScsiWrite.WriteFromMemory: likewise; any count and any run are in DmaScsiWriteRuns.WriteInTicks.
- DmaScsiWriteRuns.WriteInTicks: a WRITE that a read-only disk refuses takes no bytes; see Scsi.Target.WriteSector.
- Scsi.Target.Read: images are whole blocks; a last block that is cut short, for which the overlay table has no entry, is not modelled.
- Ethernet.Chip.Step: the address filter, the link state and the host's packet queue are inputs; the saved DMA pointers are not modelled.
- Ethernet.Chip.Send: stops on a looped packet of more than 65532 bytes, whose frame does not fit the buffer.
- Rtc.Interface.Io: clock registers are an input when read and ignored when written.
- The zero padding of `dma_esp_flush_buffer` and the sound, printer, DSP, video and SCC channels: further loops of the same kind.
- Initialising a DMA buffer with an offset: it starts a burst in the middle and breaks plain stream equality.
- The command ranks of `esp.c`, selection, status and message transfer, and SCSI commands other than READ and WRITE: mostly one-branch facts.
- Seeking, head selection and drive commands of `mo.c`: register bookkeeping.
- Logging, user interface, configuration, host files, audio and the processor itself: outside the data paths modelled here.
