# A verified model of the AXI-DMA output driver and the MMCM clock driver

The repository is a PetaLinux image for a Zynq board. Two of its kernel modules hold the real
logic, and this project models them in Dafny and proves what they promise.

**The AXI-DMA double-buffer driver.** Writers fill one of two 16 KiB buffers while the other one
is on the wire. A writer, a sysfs flush and the DMA completion callback coordinate through
`DMA_active_buffer`, `Fill_buffer`, `pos` and `next_buff_count` only, and the locks are dropped
between deciding to send a buffer and sending it. The project has, for the built version
(`axidmaout.c`) and for the earlier kernel-thread version (`axidmaout copy.c`):

- the locked sections as functions on the device data (`DmaSections`, `ThreadSections`);
- a labelled step machine that interleaves any number of calls, the engine and the callback, and
  in the thread version the worker and the removal (`DmaProtocol`, `ThreadProtocol`). One step is
  a locked section, one byte copied from user space, one byte of padding or one byte read by the
  engine; a faulting copy may leave anything in the bytes that did not arrive;
- an inductive invariant (`DmaInvariant`, `ThreadInvariant`) and the theorems over every run
  (`DmaTheorems`, `DmaLiveness`, `ThreadTheorems`, `ThreadLiveness`, `ThreadRemoval`), and what each
  call reports, in numbers (`DmaOutcomes`, `ThreadOutcomes`);
- the driver's functions as methods of a class with the source's fields and arrays, proved against
  the section functions (`DmaDevice`, `ThreadDevice`); `DmaCalls` and `ThreadCalls` prove that the
  steps of a write or a transfer setup that are not interrupted do what the method does.

Both versions are proved to refine one specification, `Fifo`: a queue of at most two closed chunks
and one open chunk. In the step machines taking the mutex is merged with the section after it and
releasing it with the section before it; a status query of the callback is merged with its locked
section, a cookie assignment with submit and issue, and the increment of the event counter with its
wake-up. `log`, `closed`, `delivered`, `freed` and
`stopped` are history that no step reads, except that removal happens once.

**The MMCM clock synthesiser.** `dglnt_dynclk_find_mode` searches a grid of main dividers D and
feedback multipliers F with a fixed-point choice of the output divider c, in 32-bit arithmetic and
with an early exit. `MmcmReference` says in numbers, and without the code's formulas, which mode that
is. `MmcmSearch` defines the pick with the formulas over the integers, proves that it is the
reference's, proves its properties, and proves the 32-bit loops against it. `MmcmLimits` and `MmcmOutput` say exactly where the search falls
short. `MmcmRegisters` has the bit encoding of the dividers and the
hardware's reading of it, and `Dynclk` the clock framework's operations. P is the parent clock in
kHz, f the clamped request, g the frequency of the pick.

## What the proofs show about the code

- Rounding is idempotent for every request and parent clock, also when the pick lies above the
  output maximum.
- The pick is the best of the grid the code visits with the dividers the code computes. It is not
  always the best mode that the VCO and the dividers allow, for two reasons. The F range is rounded
  for D = 1 and then multiplied by D: `GridCompleteIff` says for which parent clocks no allowed
  (D, F) is lost, and `GridMissesLegalMode` shows a loss. And the fixed-point divider may miss the
  nearest one: `DividerMissesLegalMode` shows it. `BestOfLegalIff` says for every request and parent
  clock exactly when neither matters, and `PickNearlyBest` bounds what the divider can cost. Whether
  a request is met exactly has an exact answer too (`FixedPoint`), and for complete grids it is met
  whenever any allowed mode meets it (`ExactRequestsMet`).
- The pick can exceed the output maximum of 800000 (P = 500000 and f = 750000 give 1000000).
  `GridExceedsIff` reads off the grid of any parent clock whether that happens for the largest
  request, `SafeParentIff` shows that otherwise it never happens, and `HighThreshold` that if it
  does, it does from one request upwards, always with the least visited VCO frequency above the
  maximum. `LowRequests` puts that request above 522193, and `HighPickIff` gives a formula for
  parent clocks above 400 MHz other than 600 MHz.
- The phase detector's upper limit of 450000 is not kept for parent clocks above 900000, where the
  search still starts at D = 2 (P = 1000000 and f = 500000 pick it, `PfdExceeded`). `PfdExceededIff`
  says for which requests. Below, every visited pair keeps the limit (`GridLegal`).
- A request equal to the stored rate is accepted without looking at the parent clock. After a
  parent change the stored rate need not be what `round_rate` says; `SetMatchesRoundIff` has the
  exact condition in terms of the new parent clock, and `StaleRateAccepted` an input that fails.
- A flush never returns `-EAGAIN`: with both buffers busy nothing is open, so the answer is
  `-EINVAL` (`FlushAdmission`).
- A DMA error is final in both versions: nothing is started or delivered any more
  (`DmaLiveness.ErrorIsFinal`, `ThreadLiveness.ErrorIsFinal`).
- The removal of the thread version does not wait for the thread: its stop request can be stored
  while the thread still has a transfer to start (`RemovalLeavesTransfer`). The thread's next read of
  the counter makes it leave (`StopObeyed`). The channel is idle for good exactly when the thread has
  exited and no transfer is out, or only a failed one that was already reported (`ReleaseIff`).
- The stop mark is an event count of 1000, so that the thread may take it for a stop request. It
  leaves unasked only once at least a thousand chunks were closed or delivered (`LeavesUnasked`);
  before that no work is lost and nothing stays undelivered (`EarlyWorkIsSeen`, `EarlyDrains`).

Two comments of the source read differently from the code. The one in the transfer setup speaks of
an alignment to 64 bits where the code aligns to 64 bytes, and the one at the removal says that it
waits for the thread's exit where the code sleeps for a second. The model follows the code.

## Model

| member | source | states |
|---|---|---|
| MmcmSearch.FindMode | project-spec/meta-user/recipes-modules/dynclk/files/dynclk.c:305-374 | for all 32-bit inputs, the wrapping search returns nonzero if and only if 10000 <= P <= 1200000; then its result is the reference pick in numbers, the first candidate of minimal error over the unbounded integers; otherwise only the frequency field is cleared |
| MmcmSearch.GridIsVisited | project-spec/meta-user/recipes-modules/dynclk/files/dynclk.c:328-341 | the loop bounds visit exactly the pairs with 1 <= D <= 106, 10000 D <= P, D >= 2 above 450000, 2 <= F <= 64 and F / D between two whole multipliers whose VCO frequency lies in 600000..1200000 |
| MmcmSearch.DividerIsReference | project-spec/meta-user/recipes-modules/dynclk/files/dynclk.c:343-353 | the output divider is P F / (D f) rounded to the nearest thousandth of P / (D f) and then to the nearest whole number, ties upward, brought into 1..128 |
| MmcmSearch.OutputIsReference | project-spec/meta-user/recipes-modules/dynclk/files/dynclk.c:354 | the output frequency is the g with g D c <= P F < (g + 1) D c |
| MmcmSearch.PickIsReference | project-spec/meta-user/recipes-modules/dynclk/files/dynclk.c:305-374 | the pick of the formulas is exactly the pick of the reference, for every request and parent clock |
| MmcmSearch.ExactlyMet | project-spec/meta-user/recipes-modules/dynclk/files/dynclk.c:305-374 | a request from 4000 to 800000 that some visited pair gives exactly with some divider from 1 to 128 is met exactly |
| MmcmSearch.PickExists | project-spec/meta-user/recipes-modules/dynclk/files/dynclk.c:334-373 | with the parent clock in range there is a first minimiser of the error over the whole grid |
| MmcmSearch.PickUnique | project-spec/meta-user/recipes-modules/dynclk/files/dynclk.c:334-373 | optimality plus "first in (D, F) order" determine the whole mode |
| MmcmSearch.PerfectIsPick | project-spec/meta-user/recipes-modules/dynclk/files/dynclk.c:367-368 | the zero-error early exit loses nothing: a zero-error best so far is the pick of the whole grid |
| MmcmSearch.GridNonempty | project-spec/meta-user/recipes-modules/dynclk/files/dynclk.c:328-341 | with the parent clock in range the first divider tried has a nonempty F range |
| MmcmSearch.GridLegal | project-spec/meta-user/recipes-modules/dynclk/files/dynclk.c:328-341 | every visited pair keeps the VCO band exactly (600000 D <= P F <= 1200000 D), the F and D limits, P >= 10000 D, and P <= 450000 D for P up to 900000; and it forces P into range |
| MmcmSearch.CandidateError | project-spec/meta-user/recipes-modules/dynclk/files/dynclk.c:343-366 | every candidate is above 4000 and closer to f than the initial best error 800000, so the first one is always taken |
| MmcmSearch.DividerError | project-spec/meta-user/recipes-modules/dynclk/files/dynclk.c:343-349 | error of the fixed-point divider before clamping: 2000 abs(c D f - P F) <= D f (1000 + F) |
| MmcmSearch.ClampLowNeverFires | project-spec/meta-user/recipes-modules/dynclk/files/dynclk.c:349-353 | the unclamped output divider of a grid point is at least one |
| MmcmSearch.NestedFloor | project-spec/meta-user/recipes-modules/dynclk/files/dynclk.c:354 | the two nested truncating divisions are one: floor(P F / (D c)) |
| MmcmSearch.PickLegal | project-spec/meta-user/recipes-modules/dynclk/files/dynclk.c:328-366 | what every pick keeps: VCO band, F, c and D limits, P >= 10000 D, P <= 450000 D for P up to 900000, and g == floor(P F / (D c)) in (4000, 1200000] |
| MmcmSearch.DividerReproduces | project-spec/meta-user/recipes-modules/dynclk/files/dynclk.c:343-354 | searching for the frequency that (D, F, c) produces makes the heuristic choose c again at (D, F) |
| MmcmSearch.DividerMonotone | project-spec/meta-user/recipes-modules/dynclk/files/dynclk.c:343-353 | a higher target never gets a larger output divider |
| MmcmSearch.DividerStable | project-spec/meta-user/recipes-modules/dynclk/files/dynclk.c:343-366 | where a pick above the output maximum is not beaten, raising the target keeps the divider |
| MmcmSearch.HighPickPersists | project-spec/meta-user/recipes-modules/dynclk/files/dynclk.c:305-374 | once a request gets a pick above the output maximum, every higher request gets the same frequency |
| MmcmSearch.RoundIdempotent | project-spec/meta-user/recipes-modules/dynclk/files/dynclk.c:305-374 | searching for the frequency of a pick finds that frequency again, for every request and parent clock |
| MmcmSearch.RoundedTwice | project-spec/meta-user/recipes-modules/dynclk/files/dynclk.c:305-374 | the same for the rounding function, also when no mode exists |
| MmcmLimits.CompleteRowVisits | project-spec/meta-user/recipes-modules/dynclk/files/dynclk.c:336-341 | a row whose rounding errors, D times over, stay below one step of F visits every legal F |
| MmcmLimits.GridCompleteIff | project-spec/meta-user/recipes-modules/dynclk/files/dynclk.c:328-341 | the visited (D, F) are exactly those the VCO and the counter allow if and only if every row the search tries is complete, a test on P alone |
| MmcmLimits.DividingParentComplete | project-spec/meta-user/recipes-modules/dynclk/files/dynclk.c:336-341 | a parent clock that divides 600000 loses no allowed pair |
| MmcmLimits.FixedPoint | project-spec/meta-user/recipes-modules/dynclk/files/dynclk.c:305-374 | a request is met exactly if and only if some visited pair produces it with some output divider, whatever divider the heuristic prefers elsewhere |
| MmcmLimits.ExactRequestsMet | project-spec/meta-user/recipes-modules/dynclk/files/dynclk.c:305-374 | with a complete grid a request is met exactly if and only if any allowed mode meets it |
| MmcmLimits.GridMissesLegalMode | project-spec/meta-user/recipes-modules/dynclk/files/dynclk.c:336-341 | P = 500000, f = 750000: an exact allowed mode is outside the grid, every pick is 1000000 |
| MmcmLimits.OnlyNeighbours | project-spec/meta-user/recipes-modules/dynclk/files/dynclk.c:343-353 | for every pair the VCO allows, visited or not, the output divider nearest to the target is the computed one or a neighbour of it |
| MmcmLimits.PickNearlyBest | project-spec/meta-user/recipes-modules/dynclk/files/dynclk.c:343-366 | the error of the pick is at most 266/117 times that of any visited pair with any divider, plus 375/117 |
| MmcmLimits.DividerMissesLegalMode | project-spec/meta-user/recipes-modules/dynclk/files/dynclk.c:343-353 | P = 10000, f = 440000: the grid is complete, and a visited pair with another divider is nearer than every pick |
| MmcmLimits.BestOfLegalIff | project-spec/meta-user/recipes-modules/dynclk/files/dynclk.c:305-374 | for every request and parent clock: the pick is as near as every mode with an allowed pair and any divider if and only if each allowed pair, with the computed divider or a neighbour, is matched by some visited candidate |
| MmcmLimits.BestOfCompleteIff | project-spec/meta-user/recipes-modules/dynclk/files/dynclk.c:328-366 | with a complete grid only the neighbours of the computed dividers of visited pairs decide it |
| MmcmLimits.PfdExceededIff | project-spec/meta-user/recipes-modules/dynclk/files/dynclk.c:328-333 | the pick exceeds the upper limit of the phase detector if and only if P is above 900000 and no visited pair is nearer than D = 2, F = 2 |
| MmcmLimits.PfdExceeded | project-spec/meta-user/recipes-modules/dynclk/files/dynclk.c:328-329 | P = 1000000, f = 500000: every pick has D = 2, at 500000 |
| MmcmOutput.LowRequests | project-spec/meta-user/recipes-modules/dynclk/files/dynclk.c:343-366 | requests up to 522193 never get a pick above the output maximum, up to 391644 always a divided one |
| MmcmOutput.GridExceedsIff | project-spec/meta-user/recipes-modules/dynclk/files/dynclk.c:336-366 | for every parent clock, read off the grid: the pick for the maximum exceeds it if and only if a visited VCO frequency above it is nearer than all visited ones that are not, or as near and first; with one ratio F / D, if and only if the one VCO frequency lies between the maximum and 1.47 times it |
| MmcmOutput.HighIsLeast | project-spec/meta-user/recipes-modules/dynclk/files/dynclk.c:336-366 | the pick is then the least visited VCO frequency above the maximum |
| MmcmOutput.SafeParentIff | project-spec/meta-user/recipes-modules/dynclk/files/dynclk.c:325-366 | every pick of a parent clock is within the output maximum if and only if its grid does not exceed it in that sense |
| MmcmOutput.SafeWhenMaximumProduced | project-spec/meta-user/recipes-modules/dynclk/files/dynclk.c:325-366 | a parent clock from which some visited pair produces 800000 keeps every pick within the maximum |
| MmcmOutput.HighThreshold | project-spec/meta-user/recipes-modules/dynclk/files/dynclk.c:325-366 | for any other parent clock there is a threshold above 522193: exactly the requests from it upwards exceed the maximum, all with the least visited VCO frequency above it |
| MmcmOutput.OneRatioGrid | project-spec/meta-user/recipes-modules/dynclk/files/dynclk.c:336-341 | above 400000, save 600000, the grid has one ratio F / D and so one VCO frequency |
| MmcmOutput.HighPickIff | project-spec/meta-user/recipes-modules/dynclk/files/dynclk.c:336-366 | for those parent clocks the pick exceeds the maximum if and only if the VCO frequency does and is below 1.47 f, and then it is that frequency |
| MmcmSearch.RowAgrees | project-spec/meta-user/recipes-modules/dynclk/files/dynclk.c:336-341 | the wrapping F bounds are exact with the parent clock in range, and above the range the row is empty |
| MmcmSearch.MultiplierAgrees | project-spec/meta-user/recipes-modules/dynclk/files/dynclk.c:343-344 | the divisor never wraps for any parent clock; the multiplier does not wrap with the parent clock in range |
| MmcmSearch.CellAgrees | project-spec/meta-user/recipes-modules/dynclk/files/dynclk.c:349-354 | no operation of the inner loop wraps at a grid point |
| MmcmRegisters.Divider | project-spec/meta-user/recipes-modules/dynclk/files/dynclk.c:225-251 | the error value 0x3000 exactly outside 1..128; inside, the word whose low and high times are the halves of the ratio, the longer one low, with the edge bit exactly for odd ratios, the bypass word 0x1041 for one, and no other bit |
| MmcmRegisters.CountCalc | project-spec/meta-user/recipes-modules/dynclk/files/dynclk.c:253-264 | the same for the counter layout, with 0xFFFFFFFF as its error value |
| MmcmRegisters.BitsRoundTrip | project-spec/meta-user/recipes-modules/dynclk/files/dynclk.c:225-264 | in both layouts the hardware reads the ratio with equal half periods out of the encoding of 1..128, and no encoding is an error value |
| MmcmRegisters.DividesUnique | project-spec/meta-user/recipes-modules/dynclk/files/dynclk.c:225-264 | no word of either layout divides by two different ratios |
| MmcmRegisters.HalfWord | project-spec/meta-user/recipes-modules/dynclk/files/dynclk.c:237-246 | halving a 32-bit word of a ratio is halving the ratio |
| MmcmRegisters.TableWords | project-spec/meta-user/recipes-modules/dynclk/files/dynclk.c:286-289 | the hardware rejoins the 40-bit lock and the 10-bit filter constant from the two words, whose other bits are clear |
| MmcmRegisters.LockSplit | project-spec/meta-user/recipes-modules/dynclk/files/dynclk.c:286-288 | joining the two parts of a 40-bit lock constant gives it back |
| MmcmRegisters.FilterMerge | project-spec/meta-user/recipes-modules/dynclk/files/dynclk.c:288-289 | the filter field and the high lock bits share a register without disturbing each other |
| MmcmRegisters.FindReg | project-spec/meta-user/recipes-modules/dynclk/files/dynclk.c:267-292 | -22 exactly when a divider is out of range, with what each failure leaves in the struct; otherwise all fields hold the mode with equal half periods and its table constants |
| Dynclk.UnitsNearest | project-spec/meta-user/recipes-modules/dynclk/files/dynclk.c:417-418 | both unit conversions give the nearest whole unit, ties upward, and only that |
| Dynclk.UnitsClosest | project-spec/meta-user/recipes-modules/dynclk/files/dynclk.c:417-418 | no other whole unit is nearer to the rate |
| Dynclk.RoundHzIsReference | project-spec/meta-user/recipes-modules/dynclk/files/dynclk.c:434-442 | the rounded rate is 200 times the reference pick for the nearest units, for parents from 9999500 up to 1200000499 Hz, and zero for all others |
| Dynclk.RoundRateIdempotent | project-spec/meta-user/recipes-modules/dynclk/files/dynclk.c:434-442 | round_rate of round_rate is round_rate, in Hz, for every request and parent rate |
| Dynclk.Device.constructor | project-spec/meta-user/recipes-modules/dynclk/files/dynclk.c:509-510 | a new device satisfies the class invariant with no stored rate and its output off |
| Dynclk.Device.RoundRate | project-spec/meta-user/recipes-modules/dynclk/files/dynclk.c:434-442 | the rate returned is that: nearest units in, reference pick times 200 out, zero exactly for an unusable parent rate |
| Dynclk.Device.RecalcRate | project-spec/meta-user/recipes-modules/dynclk/files/dynclk.c:444-450 | the rate reported is one the registers decode to from the parent clock they were programmed for, and round_rate leaves it alone under that parent |
| Dynclk.Device.SetRate | project-spec/meta-user/recipes-modules/dynclk/files/dynclk.c:405-432 | keeps the invariant that a stored rate is what the registers produce; returns -22 exactly for a zero argument, or an unusable parent when the rate is not the stored one; a refused or skipped call changes nothing; a reprogramming call leaves registers that decode to the reference pick for the nearest units, with floor(P F / (D c)) * 200 == the stored rate == round_rate, and the output on |
| Dynclk.RunRounded | project-spec/meta-user/recipes-modules/dynclk/files/dynclk.c:405-442 | after any run of set_rate calls under one parent clock the stored rate is zero or a fixed point of round_rate |
| Dynclk.SetMatchesRound | project-spec/meta-user/recipes-modules/dynclk/files/dynclk.c:405-450 | under one parent clock every successful set_rate, also the one that skips, leaves recalc_rate equal to round_rate; success exactly for nonzero arguments and a usable parent |
| Dynclk.FixedRateIff | project-spec/meta-user/recipes-modules/dynclk/files/dynclk.c:434-442 | which rates a parent clock rounds to themselves: multiples of 200 that some visited (D, F, c) gives exactly, or, where the grid exceeds the output maximum, the least visited VCO frequency above it |
| Dynclk.SetMatchesRoundIff | project-spec/meta-user/recipes-modules/dynclk/files/dynclk.c:412-431 | with an arbitrary stored rate, a successful set_rate leaves the rounded rate if and only if the request differs from the stored rate or the new parent clock can produce it in that sense |
| Dynclk.StaleRateAccepted | project-spec/meta-user/recipes-modules/dynclk/files/dynclk.c:414-415 | a stored rate is accepted again under a parent clock that has no mode at all |
| Frames.AlignedLeast | project-spec/meta-user/recipes-modules/axidmaout/files/axidmaout.c:262-266 | the shifted length is the least multiple of 64 that covers the data, within the buffer |
| TransferSetup.PadBuffer | project-spec/meta-user/recipes-modules/axidmaout/files/axidmaout.c:257-270 | after the padding loop the buffer is the frame of its first `count` bytes followed by its old tail |
| TransferSetup.CopyFromUser | project-spec/meta-user/recipes-modules/axidmaout/files/axidmaout.c:320-324 | the bytes that arrive land at `at`, the rest of the `n` is cleared on a fault, all else stays; a short copy is a fault |
| Fifo.ApplyConserves | project-spec/meta-user/recipes-modules/axidmaout/files/axidmaout.c:104-356 | each queue operation keeps: accepted bytes are delivered, waiting or open, once and in order |
| Fifo.RunKeeps | project-spec/meta-user/recipes-modules/axidmaout/files/axidmaout.c:104-356 | over every run of the queue: conservation, at most two waiting chunks, nothing open when two wait |
| DmaSections.StoredBytes | project-spec/meta-user/recipes-modules/axidmaout/files/axidmaout.c:320 | byte-by-byte stores amount to replacing one slice of one buffer |
| DmaDevice.Device.constructor | project-spec/meta-user/recipes-modules/axidmaout/files/axidmaout.c:406-422 | the state after probe, with buffers of arbitrary content |
| DmaDevice.Device.SetupDmaTransfer | project-spec/meta-user/recipes-modules/axidmaout/files/axidmaout.c:237-292 | the claimed buffer becomes its frame plus the old tail, the other buffer stays, one submission of the aligned length |
| DmaDevice.Device.CopyIn | project-spec/meta-user/recipes-modules/axidmaout/files/axidmaout.c:320-324 | also a failing copy changes only the `n` bytes past `pos` of the open buffer |
| DmaDevice.Device.CommitCopied | project-spec/meta-user/recipes-modules/axidmaout/files/axidmaout.c:325-343 | the second locked section: new `pos`, or a closed buffer with its claim exactly if no transfer was active |
| DmaSections.WriteResult | project-spec/meta-user/recipes-modules/axidmaout/files/axidmaout.c:308-347 | an uninterrupted write in numbers: 0, -12, -14 or min(count, 16384 - pos); the buffer closes exactly at 16384 bytes and is claimed exactly if no transfer is active |
| DmaSections.FlushResult | project-spec/meta-user/recipes-modules/axidmaout/files/axidmaout.c:115-146 | an uninterrupted flush in numbers: -22 with nothing open, -11 with both buffers busy, else the length, with the claim exactly if no transfer is active |
| DmaDevice.Device.WriteLocked | project-spec/meta-user/recipes-modules/axidmaout/files/axidmaout.c:300-349 | the whole of dma_write under the mutex |
| DmaDevice.Device.DmaWrite | project-spec/meta-user/recipes-modules/axidmaout/files/axidmaout.c:293-356 | result in numbers, whole new data and submissions on every path: busy, empty, fault, partial and filling write, with and without an active transfer |
| DmaDevice.Device.WriteDmaStore | project-spec/meta-user/recipes-modules/axidmaout/files/axidmaout.c:115-154 | result in numbers, whole new data and submissions for every parsed value; an error changes nothing |
| DmaDevice.Device.TxTransferComplete | project-spec/meta-user/recipes-modules/axidmaout/files/axidmaout.c:175-219 | takes over and submits the waiting buffer or goes idle and wakes the pollers; after an error changes nothing and wakes nobody |
| DmaDevice.Device.DmaPoll | project-spec/meta-user/recipes-modules/axidmaout/files/axidmaout.c:364-371 | writable means that every nonempty write takes at least one byte, not writable that every write returns 0 and changes nothing |
| DmaCalls.UninterruptedWrite | project-spec/meta-user/recipes-modules/axidmaout/files/axidmaout.c:293-356 | a write without interruption, busy, empty, faulting after any number of bytes or complete, leaves the data, claim and result that the method is specified to leave |
| DmaCalls.UninterruptedSetup | project-spec/meta-user/recipes-modules/axidmaout/files/axidmaout.c:237-292 | padding and submit steps, without interruption, do what the setup method is specified to do |
| DmaCalls.UninterruptedCallback | project-spec/meta-user/recipes-modules/axidmaout/files/axidmaout.c:211-214 | the same for the setup the callback does |
| DmaInvariant.StepKeeps | project-spec/meta-user/recipes-modules/axidmaout/files/axidmaout.c:104-372 | every step of writer, flush, engine, callback and poller keeps the protocol invariant |
| DmaInvariant.RunKeeps | project-spec/meta-user/recipes-modules/axidmaout/files/axidmaout.c:104-372 | the invariant holds in every state of every run |
| DmaTheorems.StepRefines | project-spec/meta-user/recipes-modules/axidmaout/files/axidmaout.c:104-356 | every step is an admitted operation of the two-slot queue on the abstraction |
| DmaTheorems.RunRefines | project-spec/meta-user/recipes-modules/axidmaout/files/axidmaout.c:104-356 | every interleaved run of the driver is a run of the two-slot queue |
| DmaTheorems.StreamConserved | project-spec/meta-user/recipes-modules/axidmaout/files/axidmaout.c:293-356 | in every reachable state the accepted prefixes in mutex order are delivered chunks, outstanding chunks, open bytes; delivered frames add fewer than 64 zeros; the buffers hold the outstanding chunks, with `pos` and `next_buff_count` as occupancy two demands |
| DmaTheorems.ReportedExactly | project-spec/meta-user/recipes-modules/axidmaout/files/axidmaout.c:326-355 | each call that reports n > 0 bytes is logged exactly once, with the first n bytes it was given, and no other call is |
| DmaTheorems.WriteAdmission | project-spec/meta-user/recipes-modules/axidmaout/files/axidmaout.c:303-347 | a write is admitted exactly with fewer than two chunks outstanding and takes min(count, 16384 - open bytes) >= 1; else 0, and -12 for an empty one |
| DmaTheorems.FlushAdmission | project-spec/meta-user/recipes-modules/axidmaout/files/axidmaout.c:115-146 | a flush closes the open chunk and returns its length exactly when there is one, else returns -22; -EAGAIN never |
| DmaOutcomes.WriteOutcome | project-spec/meta-user/recipes-modules/axidmaout/files/axidmaout.c:325-355 | a complete copy appends exactly its bytes and reports their number; the chunk closes exactly at 16384 bytes, and with nothing outstanding the call sets up the transfer of all of them |
| DmaOutcomes.FaultOutcome | project-spec/meta-user/recipes-modules/axidmaout/files/axidmaout.c:320-324 | a faulting write reports -14 and leaves the queue as it was |
| DmaOutcomes.OtherCommand | project-spec/meta-user/recipes-modules/axidmaout/files/axidmaout.c:109-115 | a flush command other than 1 reports -22 and does nothing |
| DmaOutcomes.ResultStays | project-spec/meta-user/recipes-modules/axidmaout/files/axidmaout.c:148-154 | what a call reports is decided in its locked section; no later step changes it |
| DmaOutcomes.OpenWorld | project-spec/meta-user/recipes-modules/axidmaout/files/axidmaout.c:104-372 | the protocol excludes no behaviour of the environment: calls, faults, errors and polls may come whenever the locks allow them |
| DmaOutcomes.OnlyCallbackWakes | project-spec/meta-user/recipes-modules/axidmaout/files/axidmaout.c:215 | pollers are triggered by the wake-up of the callback only, and then all that wait |
| DmaOutcomes.CompletionOutcome | project-spec/meta-user/recipes-modules/axidmaout/files/axidmaout.c:184-217 | a good completion takes the oldest chunk off the queue; the callback goes on to the transfer of the next one if there is one, and always to the wake-up; after an error nothing but the status changes |
| DmaOutcomes.StepFrame | project-spec/meta-user/recipes-modules/axidmaout/files/axidmaout.c:104-372 | a step changes only its own call, the callback, the engine, the mutex or the pollers, as its actor owns them |
| DmaTheorems.SingleToken | project-spec/meta-user/recipes-modules/axidmaout/files/axidmaout.c:122-151 | a buffer is active if and only if exactly one owner (a call, the callback, the engine) has its transfer; the cookie of an outstanding transfer is never overwritten |
| DmaTheorems.StoresInBounds | project-spec/meta-user/recipes-modules/axidmaout/files/axidmaout.c:264-270 | every store is in bounds; copies, also faulting ones, go past `pos` of the inactive fill buffer, padding past the chunk of the active one; all other bytes stay |
| DmaTheorems.ClaimStable | project-spec/meta-user/recipes-modules/axidmaout/files/axidmaout.c:309-354 | over any run, until the next delivery the claimed buffer stays active and keeps the committed bytes |
| DmaTheorems.SubmittedFrame | project-spec/meta-user/recipes-modules/axidmaout/files/axidmaout.c:262-287 | from every call site: the submitted length is a positive multiple of 64, at most 16384 and least, 16384 for a full chunk, and the buffer holds chunk plus zeros |
| DmaLiveness.ServiceDecreases | project-spec/meta-user/recipes-modules/axidmaout/files/axidmaout.c:175-292 | every padding, submit, engine and callback step lowers a nonnegative measure |
| DmaLiveness.ServiceRun | project-spec/meta-user/recipes-modules/axidmaout/files/axidmaout.c:184-217 | without new calls each completion lowers the occupancy by one and such runs are bounded |
| DmaLiveness.Drains | project-spec/meta-user/recipes-modules/axidmaout/files/axidmaout.c:184-217 | an error-free service run that cannot go on has delivered every closed chunk, padded, in at most two completions, is idle, and has triggered all sleeping pollers |
| DmaLiveness.ErrorIsFinal | project-spec/meta-user/recipes-modules/axidmaout/files/axidmaout.c:190-192 | after a DMA error nothing is delivered in any continuation, and the invariant still holds |
| DmaLiveness.WritableStep | project-spec/meta-user/recipes-modules/axidmaout/files/axidmaout.c:198-215 | writability and `pos` survive every step but a commit, in particular every callback step |
| DmaLiveness.PollSound | project-spec/meta-user/recipes-modules/axidmaout/files/axidmaout.c:357-372 | poll reports writable exactly below occupancy two, and until another commit the next nonempty write takes min(count, 16384 - pos) >= 1 bytes |
| DmaLiveness.NoLostWakeup | project-spec/meta-user/recipes-modules/axidmaout/files/axidmaout.c:198-215 | a sleeping poller that could write has a callback still before its wake-up, which triggers it |
| ThreadDevice.Device.constructor | project-spec/meta-user/recipes-modules/axidmaout/files/axidmaout copy.c:470-486 | the state after probe |
| ThreadDevice.Device.SetupDmaTransfer | project-spec/meta-user/recipes-modules/axidmaout/files/axidmaout copy.c:205-273 | the buffer becomes its frame plus the old tail, one submission of the aligned length; a whole buffer stays as it is |
| ThreadDevice.Device.CopyIn | project-spec/meta-user/recipes-modules/axidmaout/files/axidmaout copy.c:307-311 | also a failing copy changes only the `n` bytes past `pos` of the open buffer |
| ThreadDevice.Device.CommitCopied | project-spec/meta-user/recipes-modules/axidmaout/files/axidmaout copy.c:312-331 | the new `pos`, or the buffer marked waiting with its count exactly if it is full |
| ThreadSections.WriteResult | project-spec/meta-user/recipes-modules/axidmaout/files/axidmaout copy.c:294-338 | an uninterrupted write in numbers, as in the built driver; an event is due exactly when the buffer reaches 16384 bytes |
| ThreadDevice.Device.WriteLocked | project-spec/meta-user/recipes-modules/axidmaout/files/axidmaout copy.c:282-341 | the whole of dma_write under the mutex |
| ThreadDevice.Device.DmaWrite | project-spec/meta-user/recipes-modules/axidmaout/files/axidmaout copy.c:274-354 | result in numbers and whole new data on every path; the event counter grows exactly if the buffer reaches 16384 bytes |
| ThreadDevice.Device.TxTransferComplete | project-spec/meta-user/recipes-modules/axidmaout/files/axidmaout copy.c:132-187 | a completion flips the two flags and counts an event; an error changes nothing |
| ThreadDevice.Device.TakeTurn | project-spec/meta-user/recipes-modules/axidmaout/files/axidmaout copy.c:402-440 | the sampled flags decide: a finished slot is freed, the next waiting one is claimed exactly if no transfer runs |
| ThreadDevice.Device.Iterate | project-spec/meta-user/recipes-modules/axidmaout/files/axidmaout copy.c:395-448 | one pass takes one event, frees the finished slot, submits the next waiting buffer whole, or leaves exactly from a count of 1000 |
| ThreadDevice.Device.ThreadFunc | project-spec/meta-user/recipes-modules/axidmaout/files/axidmaout copy.c:374-451 | entered with fewer than 1000 counted events the loop uses up all of them and blocks with no work left; from 1000 it leaves |
| ThreadCalls.UninterruptedWrite | project-spec/meta-user/recipes-modules/axidmaout/files/axidmaout copy.c:274-354 | a write without interruption, busy, empty, faulting or complete, leaves the data and result the method is specified to leave, and an event to raise exactly if the buffer is full |
| ThreadInvariant.DecideData | project-spec/meta-user/recipes-modules/axidmaout/files/axidmaout copy.c:407-440 | freeing and starting keep the slots in order and their chunks in place |
| ThreadInvariant.StepKeeps | project-spec/meta-user/recipes-modules/axidmaout/files/axidmaout copy.c:132-451 | every step of writer, worker, engine, callback and removal keeps the invariant |
| ThreadInvariant.RunKeeps | project-spec/meta-user/recipes-modules/axidmaout/files/axidmaout copy.c:132-451 | the invariant holds in every state of every run |
| ThreadTheorems.StepRefines | project-spec/meta-user/recipes-modules/axidmaout/files/axidmaout copy.c:274-451 | every step is an admitted operation of the same two-slot queue |
| ThreadTheorems.RunRefines | project-spec/meta-user/recipes-modules/axidmaout/files/axidmaout copy.c:274-451 | every interleaved run of the thread version is a run of the same two-slot queue |
| ThreadTheorems.SlotsInOrder | project-spec/meta-user/recipes-modules/axidmaout/files/axidmaout copy.c:319-341 | the true entries of buffer_waiting_DMA are the outstanding chunks in order from next_buff_up; where Fill_buffer stands for each occupancy; finished excludes running; the buffer in flight is next_buff_up; the byte stream is conserved |
| ThreadOutcomes.WriteAdmission | project-spec/meta-user/recipes-modules/axidmaout/files/axidmaout copy.c:288-338 | a write is admitted exactly with fewer than two chunks outstanding and takes min(count, 16384 - open bytes) >= 1; else 0, and -12 for an empty one |
| ThreadOutcomes.WriteOutcome | project-spec/meta-user/recipes-modules/axidmaout/files/axidmaout copy.c:313-346 | a complete copy appends exactly its bytes and reports their number; the chunk closes exactly at 16384 bytes, and then an event is due |
| ThreadOutcomes.FaultOutcome | project-spec/meta-user/recipes-modules/axidmaout/files/axidmaout copy.c:307-311 | a faulting write reports -14 and leaves the queue as it was |
| ThreadOutcomes.SubmittedWhole | project-spec/meta-user/recipes-modules/axidmaout/files/axidmaout copy.c:441-444 | the worker submits the oldest outstanding chunk, all 16384 bytes of its buffer, under a fresh cookie |
| ThreadOutcomes.ResultStays | project-spec/meta-user/recipes-modules/axidmaout/files/axidmaout copy.c:343-353 | what a write reports is decided under the mutex; no later step changes it |
| ThreadOutcomes.OpenWorld | project-spec/meta-user/recipes-modules/axidmaout/files/axidmaout copy.c:274-354 | the protocol excludes no behaviour of the environment: writes, faults, errors and the removal may come whenever the locks allow them |
| ThreadOutcomes.StepFrame | project-spec/meta-user/recipes-modules/axidmaout/files/axidmaout copy.c:132-451 | a step changes only what its actor owns, and the event counter by one or to the stop value |
| ThreadTheorems.NoLostWork | project-spec/meta-user/recipes-modules/axidmaout/files/axidmaout copy.c:393-448 | until the worker leaves, work implies a counted event, an event about to be counted, or a worker mid-iteration that will act |
| ThreadTheorems.WorkerActs | project-spec/meta-user/recipes-modules/axidmaout/files/axidmaout copy.c:407-444 | acting frees the finished slot and starts exactly the oldest waiting buffer |
| ThreadTheorems.QuietIsDrained | project-spec/meta-user/recipes-modules/axidmaout/files/axidmaout copy.c:393-448 | the event counting cannot get stuck: with nothing left to step, no failure and no stop, every closed chunk has been delivered, and the counter is zero |
| ThreadLiveness.ServiceDecreases | project-spec/meta-user/recipes-modules/axidmaout/files/axidmaout copy.c:132-451 | every step of a started write, the worker, the engine and the callback lowers a nonnegative measure of events and transfers to come |
| ThreadLiveness.ServiceRun | project-spec/meta-user/recipes-modules/axidmaout/files/axidmaout copy.c:132-451 | without new calls every run is bounded, whatever the order, and delivers one chunk for each completion |
| ThreadLiveness.Drains | project-spec/meta-user/recipes-modules/axidmaout/files/axidmaout copy.c:393-448 | such a run that cannot go on has delivered every closed chunk and used up every event |
| ThreadLiveness.ErrorIsFinal | project-spec/meta-user/recipes-modules/axidmaout/files/axidmaout copy.c:150-152 | after a DMA error, in every continuation, no slot is freed, nothing is submitted or delivered, and at most two chunks are ever outstanding |
| ThreadTheorems.StopObeyed | project-spec/meta-user/recipes-modules/axidmaout/files/axidmaout copy.c:393-448 | after removal stores the stop value, under any interleaving at most the iteration already committed to begins, and the worker's next read is its last |
| ThreadTheorems.StopWakes | project-spec/meta-user/recipes-modules/axidmaout/files/axidmaout copy.c:594-595 | a stopped worker that waits can always wake |
| ThreadRemoval.RemovalLeavesTransfer | project-spec/meta-user/recipes-modules/axidmaout/files/axidmaout copy.c:594-600 | a reachable state in which removal has stored the stop value while the worker has a transfer to submit, which the engine then reads |
| ThreadRemoval.IdleForGood | project-spec/meta-user/recipes-modules/axidmaout/files/axidmaout copy.c:598-600 | from a state with the worker gone and no transfer out, or only a reported failed one, nothing is submitted, read or delivered in any continuation |
| ThreadRemoval.ReleaseIff | project-spec/meta-user/recipes-modules/axidmaout/files/axidmaout copy.c:594-600 | those are exactly the states all of whose continuations leave the channel alone; any other has a continuation with a step of the worker, the engine or the callback on a transfer |
| ThreadRemoval.LeavesUnasked | project-spec/meta-user/recipes-modules/axidmaout/files/axidmaout copy.c:57-59 | a worker that leaves without a removal has at least a thousand chunks closed or delivered before it |
| ThreadRemoval.EarlyWorkIsSeen | project-spec/meta-user/recipes-modules/axidmaout/files/axidmaout copy.c:393-448 | not removed and short of a thousand chunks closed or delivered, the worker has not left, and work implies an event on its way or a worker that will act |
| ThreadRemoval.EarlyReadGoesOn | project-spec/meta-user/recipes-modules/axidmaout/files/axidmaout copy.c:398-407 | and then a worker that reads its counter goes on to an iteration |
| ThreadRemoval.EarlyDrains | project-spec/meta-user/recipes-modules/axidmaout/files/axidmaout copy.c:393-448 | and then a run without new calls that cannot go on has delivered every closed chunk |
| ThreadRemoval.StopMargin | project-spec/meta-user/recipes-modules/axidmaout/files/axidmaout copy.c:57-59 | the stop value 1001 is one above the mark: after a decrement in progress the count is 1000, and every read after removal makes the worker leave |

## Left out

- Probe and remove resource handling, cdev, class and sysfs registration, device-tree lookup and logging: only the initial field values and the stop request are taken from them.
- The release of channels and buffers at removal, one second after the stop request in the thread version: the model keeps the buffers for ever.
- kstrtoint: the flush takes the parsed value; an unparsable command returns its error code and changes nothing.
- copy_from_user: a faulting copy leaves arbitrary bytes past the ones that arrived in the step machines, and zeros, as the kernel does, in the device classes.
- The DMA engine's internals: an issued transfer is read byte by byte and completes, or fails at any time; prepare and submit do not fail; the callback does not overlap itself.
- The receive loopback channel of the thread version.
- The poll of the thread version: its wait queue is never woken by that code.
- The value of the threshold for parent clocks with several VCO frequencies: `HighThreshold` gives its existence, uniqueness and lower bound, and `GridExceedsIff` when there is one.
- A worker wait interrupted by a signal: the worker wakes only when the counter is positive.
- Boundedness of the event counter of the thread version while new writes keep coming: without new calls the number of steps is bounded, with them it is not.
- Dynclk.Device.Enable: does not wait for the clock status, because the hardware that sets it is not modelled; readl and writel are field accesses.
- The individual lock and filter constants: any 64 entries of 40 and 10 bits.
- Arithmetic at the edge of the machine: write counts are lengths of sequences with no upper limit, and rate + 100 and parent_rate + 500 are required not to wrap 32 bits in the two clock operations.
- Arrays and aliasing inside the step machines: their states are values, because several calls interleave; the update in place is proved in the device classes.
- DmaDevice.Device.DmaWrite: an uninterrupted call; interleaving is the subject of DmaProtocol, whose steps are built from the same section functions.
- ThreadDevice.Device.ThreadFunc: an uninterrupted loop with no completion in between; interleaving is the subject of ThreadProtocol.
- cnccontroller, testadder, digilentencoder, gpio-demo, peek, poke, libvrc, the display and DMA demos: register, bit, ioctl and mmap wrappers that would add only easy members.
