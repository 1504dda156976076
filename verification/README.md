# TSCSync counter calibration, modelled in Dafny

TSCSync is a UEFI-shell tool that measures how far the processor's
time-stamp counter (TSC) drifts against the platform timers. This project
models its calibration core:

- **`AcpiClkWait`** is the estimator used for every sample. It waits a
  given number of ACPI power-management-timer ticks by counting a signed
  "ticks remaining" down. Each step is the wraparound-safe 16-bit delta of
  two timer reads. It then rescales the elapsed TSC cycles by
  `Delay / (Delay - count)` to cancel the overshoot.
- **`InternalAcpiDelay`** is the plain 24-bit ACPI delay. It waits a
  remainder window and then `Delay >> 22` windows of 2^22 ticks. Each wait
  ends once bit 23 of `target - timer` is set. The timer always advances by more than
  `Delay` ticks over the wait, whatever it does between two reads.
- **`GetPITCount`, `PITClkWait` and `_osifIbmAtGetTscPer62799`** work on
  i8254 channel 2. `GetPITCount` inverts the descending count.
  `PITClkWait` waits in subintervals of 32767 ticks and carries each
  overshoot into the next deadline. The fixed 62799-tick calibration
  subtracts the drift past 62799 ticks.
- **The measurement code of `main`**, which covers:
  - the back-to-back read profiles of both timers (min, max, average);
  - the `/synctime` check and the TSC-per-second reference;
  - the `parms` table;
  - the sample-count switch;
  - the sample loop, the seconds-per-day drift formula and deburring;
  - the CPUID vendor and version decoding.

Hardware is modelled by one `Platform.Machine` object:

- Every port read (`_inpd`, the channel-2 latch and its two `inp` byte
  reads, `__rdtsc`) returns the next element of a reading trace. The trace
  is fixed when the machine is built, and a cursor per trace counts the
  reads taken.
- The TSC trace never decreases and stays below 2^63.
- The EFLAGS interrupt flag is a boolean field. `gfErrorCorrection` is an
  integer field.
- Each loop is a Dafny `while` loop in a method. It is proved against a
  recursive specification function over the unread rest of its trace,
  which returns `None` when the trace runs out before the exit test holds.
  Every such method therefore requires only that the trace holds an exit
  point, and it ensures exactly how many reads it took and what it returns.

C integer semantics are written out in module `Bits`:

- conversions to `uint16_t`, `int16_t`, `int32_t`, `uint32_t` and
  `int64_t` wrap;
- `/` and `%` truncate toward zero;
- `~` is `-x - 1`.

`double` values are modelled as `real`.

Where the C code and its description differ, the model follows the code:

- **Jitter average.** Both jitter averages divide the sum by `MAXNUM`
  (1250), though at most 1249 differences exist. A perfectly even timer
  therefore reports an average below its step (`Jitter.EvenAcpiAverageBelowStep`).
- **Interrupts.** The two jitter profiles and the start-up reference mask
  interrupts and never restore them. Only the four timing routines restore
  the saved flag.
- **PIT subinterval.** The subinterval of `PITClkWait` is 32767 ticks,
  which is `COUNTER_MASK / 2`, not a power of two. Its first count is read
  before interrupts are masked.
- **Negative `Delay` in `PITClkWait`.** `times` and `remainder` come from
  an unsigned division, because `COUNTER_MASK2` is a `uint32_t`. A
  `Delay` of -3 or less therefore asks for `Delay / 3 + 2^32` ticks: from
  3579139414 (about 0.83 · 2^32, for `Delay == -2^31`) up to 2^32 - 1 (for
  `Delay == -3`, split as 131076 subintervals and a remainder of 3). That is
  about 50 to 60 minutes of channel-2 time, not nothing
  (`PitClk.NegativeDelayWraps`, `PitClk.MinusThreeWaitsLongest`).
- **Elapsed ticks of `PITClkWait`.** Each pass after the first restarts
  its deadline from the fresh count, but the overshoot was measured against
  the count before it. When every read advances the count by exactly one
  tick the wait lasts `Delay / 3 + 1` ticks (`PitClk.PitWaitOneTickPerRead`).
  Reads that repeat a count can end it early (`PitClk.PitWaitEndsEarly`,
  listed under Findings). Reads that each advance the count by at least
  `lo` ticks end it at least `lo - 1` ticks late per subinterval after the
  first (`PitClk.PitWaitElapsed`).
- **Drift reduction.** The calibration's drift reduction is not monotone:
  an excess of 23 ticks counts as 1 (`PitClk.DriftTicksNotMonotone`).
- **Deburring.** It zeroes samples above five times the series drift.
  The comparison is signed, and the menu's "100 x average" text does not
  match it (`Drift.ConstantSeriesDeburring`).
- **Empty series.** A series of zero samples makes the program divide
  0 by 0 for its mean. `Drift.RunSeries` returns `None` instead and leaves
  the drift buffer unchanged.

## Model

| member | source | states |
|---|---|---|
| Bits.ToUint16 | TSCSync/AcpiClkWait.c:65 | a `uint16_t` conversion keeps the value modulo 2^16 and leaves values in range unchanged |
| Bits.ToInt32 | TSCSync/PITClkWait.c:53 | an `int32_t` conversion keeps the value modulo 2^32 and leaves values in range unchanged |
| Bits.WrapNegative32 | TSCSync/PITClkWait.c:75-76 | a negative value above -2^32 converts to `x + 2^32` as a `uint32_t` |
| Bits.CDivTruncates | TSCSync/PITClkWait.c:45 | C division truncates toward zero: `b * (a / b)` has the sign of `a`, is no larger in magnitude, and is less than `abs(b)` away from `a` |
| Bits.CRem | TSCSync/PITClkWait.c:50 | C remainder: `a == b * (a / b) + a % b`, with the sign of the dividend and magnitude below `abs(b)` |
| Platform.Machine.constructor | TSCSync/AcpiClkWait.c:29 | a fresh machine has all traces unread and `gfErrorCorrection == 1` |
| Platform.Machine.ReadPmTimer | TSCSync/AcpiClkWait.c:46-49 | a PM timer read returns the next timer value and advances only the timer cursor |
| Platform.Machine.ReadPitLatch | TSCSync/PITClkWait.c:36-38 | a latch command plus two byte reads return the next raw channel-2 count |
| Platform.Machine.ReadTsc | TSCSync/AcpiClkWait.c:66 | `__rdtsc` returns the next counter value |
| Platform.Machine.Disable | TSCSync/AcpiClkWait.c:58 | `_disable` clears the interrupt flag |
| Platform.Machine.Enable | TSCSync/AcpiClkWait.c:108-109 | `_enable` sets the interrupt flag |
| AcpiClk.Delta16 | TSCSync/AcpiClkWait.c:65-77 | both branches of the delta give `(current - previous) mod 2^16`, and `previous` advanced by the delta is `current` |
| AcpiClk.CountDown | TSCSync/AcpiClkWait.c:68-80 | the countdown stops with at most zero ticks remaining, after at least one read when ticks were requested, within the trace |
| AcpiClk.AcpiWaitPoll | TSCSync/AcpiClkWait.c:59-80 | one call takes a discarded read, a seeding read and the countdown's reads, and stops with at most zero ticks remaining |
| AcpiClk.CountDownOvershoot | TSCSync/AcpiClkWait.c:68-80 | for `Delay > 0` the overshoot `-count` is below 2^16 - 1, so `Delay - count >= Delay > 0` and the correction never divides by zero |
| AcpiClk.CountDownSkipped | TSCSync/AcpiClkWait.c:54-68 | a request that is not positive skips the loop and leaves `count == Delay` without reading |
| AcpiClk.CountDownStopsFirst | TSCSync/AcpiClkWait.c:68-80 | the remaining count is the request minus the 16-bit deltas summed over the reads taken, and every shorter run of reads had summed to less than the request |
| AcpiClk.CountDownFinishes | TSCSync/AcpiClkWait.c:68-80 | a trace over which at least `Delay` ticks elapse always lets the countdown finish |
| AcpiClk.CorrectedCycles | TSCSync/AcpiClkWait.c:100-106 | without the correction the result is the raw TSC difference; with it, the result times `Delay - count` is within one divisor of `diff * Delay` and lies between 0 and that product, on the product's side of 0, which fixes it as C's truncated quotient |
| AcpiClk.CorrectedCyclesInt64 | TSCSync/AcpiClkWait.c:102 | the result times `Delay - count` is within one divisor of the `int64_t`-wrapped product and lies between 0 and it, on its side of 0, which fixes it as C's truncated quotient |
| AcpiClk.NoOvershootNoCorrection | TSCSync/AcpiClkWait.c:100-106 | with no overshoot the corrected result equals the raw TSC difference exactly |
| AcpiClk.CorrectionBounds | TSCSync/AcpiClkWait.c:100-106 | with `Delay > 0` the result lies in `[0, raw difference]`: it is the raw difference without correction, and `floor(raw * Delay / (Delay - count))` with it |
| AcpiClk.Int64ProductAgrees | TSCSync/AcpiClkWait.c:102 | whenever the product fits in 64 bits the `int64_t` computation equals the exact one |
| AcpiClk.ThirtySecondReferenceOverflows | TSCSync/AcpiClkWait.c:102 | a 30-second request at 3 GHz makes the `int64_t` product wrap to a negative result, while the exact correction returns the cycles measured |
| AcpiClk.AcpiClkWait | TSCSync/AcpiClkWait.c:51-113 | restores the interrupt flag, takes the reads `AcpiWaitPoll` describes and two TSC reads, and returns the corrected (or raw) TSC difference for the countdown's remaining count |
| AcpiClk.PollCountDown | TSCSync/AcpiClkWait.c:68-80 | the `while (count > 0)` loop returns the countdown's remaining count and takes exactly its reads |
| AcpiClk.DeadlinePassed | TSCSync/AcpiClkWait.c:157 | bit 23 of the `uint32_t` difference `Ticks - timer` is set exactly when that difference is negative as a signed 24-bit value, so timer wraparound is handled |
| AcpiClk.Windows | TSCSync/AcpiClkWait.c:139-140 | there are `(Delay >> 22) + 1` windows, the first of `Delay & (2^22 - 1)` ticks and the others of 2^22 ticks, and together they are `Delay` ticks |
| AcpiClk.WaitPassed | TSCSync/AcpiClkWait.c:157-160 | the wait takes between one read and the whole trace |
| AcpiClk.WaitPassedFirst | TSCSync/AcpiClkWait.c:157-160 | the wait ends at the first read past the target, and no earlier read is past it |
| AcpiClk.WindowReads | TSCSync/AcpiClkWait.c:150-160 | one window takes the read that fixes the target plus at least one wait read |
| AcpiClk.DelayReads | TSCSync/AcpiClkWait.c:146-162 | the windows together take no more reads than the trace holds |
| AcpiClk.DelayReadsFirst | TSCSync/AcpiClkWait.c:146-162 | the reads of a run of windows are those of its first window followed by those of the rest |
| AcpiClk.WaitUntilPassed | TSCSync/AcpiClkWait.c:157-160 | the inner wait loop takes exactly the reads `WaitPassed` describes |
| AcpiClk.WaitWindow | TSCSync/AcpiClkWait.c:150-160 | one `do` pass takes exactly the reads of one window with target `timer + window` modulo 2^32 |
| AcpiClk.WaitWindows | TSCSync/AcpiClkWait.c:139-162 | the `do ... while (Times-- > 0)` loop waits the remainder window and then the whole windows, taking exactly their reads, over which the timer advances by more than `Delay` ticks |
| AcpiClk.WaitNextWindow | TSCSync/AcpiClkWait.c:146-162 | one window's pass leaves exactly the reads of the remaining windows |
| AcpiClk.InternalAcpiDelay | TSCSync/AcpiClkWait.c:121-171 | stalls for at least the given number of ticks: the 24-bit timer advances by more than `Delay` ticks over the reads it takes; it takes exactly the reads of the windows of `Delay`, restores the interrupt flag and returns the TSC difference |
| AcpiClk.Span24Lands | TSCSync/AcpiClkWait.c:150-157 | the summed 24-bit forward distances carry the first read onto the last one, modulo 2^24 |
| AcpiClk.Span24Split | TSCSync/AcpiClkWait.c:146-162 | the ticks over a run of reads split at any read into the ticks before and after it |
| AcpiClk.TargetAhead | TSCSync/AcpiClkWait.c:150-157 | a target `window <= 2^22` ticks past a read, read again `e <= window` ticks later, has the signed 24-bit difference `window - e >= 0`, so the wait goes on |
| AcpiClk.WindowSpan | TSCSync/AcpiClkWait.c:150-160 | one window of at most 2^22 ticks ends only after the timer has advanced by more than the window, whatever it does between reads |
| AcpiClk.DelaySpan | TSCSync/AcpiClkWait.c:146-162 | over all windows the timer advances by at least the sum of the windows plus one tick per window |
| AcpiClk.DelayStallsAtLeast | TSCSync/AcpiClkWait.c:121-162 | from the first target read to the last exit read the timer advances by more than `Delay` ticks |
| PitClk.PitCount | TSCSync/PITClkWait.c:30-41 | `COUNTER_MASK & ~raw` equals `65535 - raw` |
| PitClk.PitCountAscends | TSCSync/PITClkWait.c:30-41 | the inverted count rises exactly when the raw count falls, and inverting twice gives the raw count |
| PitClk.PitSplit | TSCSync/PITClkWait.c:45-50 | `times * 32767 + remainder` is `Delay / 3` as a `uint32_t`, with `times >= 0` and `0 <= remainder < 32767` |
| PitClk.PitSplitNonNegative | TSCSync/PITClkWait.c:45-50 | for `Delay >= 0`, `times` and `remainder` are the quotient and remainder of `Delay / 3` by 32767 |
| PitClk.NegativeDelayWraps | TSCSync/PITClkWait.c:45-50 | for `Delay <= -3` the request converted to `uint32_t` is at least 3579139414 ticks, and the unsigned division gives at least 109230 subintervals |
| PitClk.MinusThreeWaitsLongest | TSCSync/PITClkWait.c:45-50 | `Delay == -3` asks for 2^32 - 1 ticks, split as 131076 subintervals and a remainder of 3 |
| PitClk.Adjust | TSCSync/PITClkWait.c:73-77 | the two-step adjustment of a positive `diff` yields `diff - 65536` |
| PitClk.ExitDiffIsSigned16 | TSCSync/PITClkWait.c:71-79 | within one subinterval's range, the exit difference is the negative `int16_t` reading of the raw difference |
| PitClk.InnerWait | TSCSync/PITClkWait.c:65-80 | the inner loop takes at least one read and no more than the trace holds |
| PitClk.InnerWaitExit | TSCSync/PITClkWait.c:65-80 | the loop exits on a difference with bit 15 set that was taken against the count read one pass earlier, and it leaves the count read on the exit pass in `current` |
| PitClk.InnerWaitFirst | TSCSync/PITClkWait.c:65-80 | on every pass before the exit, bit 15 of the difference is clear |
| PitClk.NextTicksBudget | TSCSync/PITClkWait.c:82 | for an exit difference in `(-2^15, 0)` the next deadline is `32766 + diff` ticks past the fresh count, within the range the next inner loop handles |
| PitClk.CarryShortensNextWindow | TSCSync/PITClkWait.c:82 | the next deadline is `32766 + overshoot` past the fresh count, so a late exit shortens the next subinterval by the lateness |
| PitClk.OuterWait | TSCSync/PITClkWait.c:63-84 | the outer loop runs `times + 1` subintervals (one when `times <= 0`) |
| PitClk.PitWaitReads | TSCSync/PITClkWait.c:43-84 | a wait runs `times + 1` subintervals for the split of its `Delay` (its ticks are bounded by `PitClk.PitWaitElapsed`) |
| PitClk.StartPitWait | TSCSync/PITClkWait.c:45-53 | the count read before masking seeds the deadline `remainder + current - 1`, and the outer loop's reads follow it |
| PitClk.WaitForBit15 | TSCSync/PITClkWait.c:65-80 | the inner loop returns the exit difference and count `InnerWait` describes and takes its reads |
| PitClk.OuterWaitFirst | TSCSync/PITClkWait.c:63-84 | an outer run is its first subinterval followed by the run from the carried deadline |
| PitClk.NextSubinterval | TSCSync/PITClkWait.c:63-84 | one pass of the outer loop carries the exit into the next deadline and leaves the reads of the remaining subintervals |
| PitClk.WaitSubintervals | TSCSync/PITClkWait.c:63-84 | the outer loop takes exactly the reads `OuterWait` describes, and for every bound `lo..hi` on the ticks a read advances, the ticks over them lie within the bounds of `PitClk.OuterWaitSpan` |
| PitClk.PITClkWait | TSCSync/PITClkWait.c:43-92 | restores the interrupt flag, takes exactly the reads of the wait, returns the TSC difference, and for every bound `lo..hi` on the ticks a read advances, the ticks waited lie within the bounds of `PitClk.PitWaitElapsed` |
| PitClk.SpanSplit | TSCSync/PITClkWait.c:63-84 | the ticks over `n` reads are those over the first `k` plus those from the `k`-th count on |
| PitClk.ExitDiffRange | TSCSync/PITClkWait.c:71-79 | in the range a wait produces, the exit difference is the negative `int16_t` reading of the raw one |
| PitClk.NextBudget | TSCSync/PITClkWait.c:67-69 | after a read that advanced `step` ticks, the deadline lies `b - step` ticks past the new count |
| PitClk.InnerWaitSpan | TSCSync/PITClkWait.c:65-80 | with the deadline `b` ticks ahead and reads of `lo..hi` ticks, the exit test fires on a count `s` ticks on with `b < s <= b + hi`, the carried difference is the overshoot `b - s`, and the fresh count lies one more read on |
| PitClk.OuterWaitSpan | TSCSync/PITClkWait.c:63-84 | `times` further passes each add between `32766 + lo` and `32766 + hi` ticks after the first deadline, so the ticks lie between `b + 1 + n(32766 + lo) + lo` and `b + n(32766 + hi) + 2hi` |
| PitClk.StartBudget | TSCSync/PITClkWait.c:52-53 | the first deadline lies `remainder - 1` ticks past the first count |
| PitClk.OuterWaitElapsed | TSCSync/PITClkWait.c:45-84 | the outer loop from the first deadline lasts between `request + times(lo - 1) + lo` and `request + times(hi - 1) + 2hi - 1` ticks |
| PitClk.PitWaitElapsed | TSCSync/PITClkWait.c:43-84 | with every read advancing `lo..hi` ticks, the wait lasts at least `Delay/3 + times(lo - 1) + lo` and at most `Delay/3 + times(hi - 1) + 2hi - 1` ticks |
| PitClk.PitWaitElapsedAll | TSCSync/PITClkWait.c:43-84 | the bounds of `PitWaitElapsed` hold for every `lo..hi` at once, over the reads of one wait |
| PitClk.PitWaitOneTickPerRead | TSCSync/PITClkWait.c:43-84 | with reads of exactly one tick the wait lasts `Delay/3 + 1` ticks |
| PitClk.PitWaitEndsEarly | TSCSync/PITClkWait.c:82 | `PITClkWait(98301)` asks for 32767 ticks, but with the counts 0, 0, 32766, 32766 it ends after 32766 |
| PitClk.CorrectedNextTicksBudget | TSCSync/PITClkWait.c:82 | the deadline carried from the count the exit test used lies `32767 + diff - g` ticks past the fresh count, `g` being the last read's step |
| PitClk.CorrectedOuterWait | TSCSync/PITClkWait.c:63-84 | the corrected outer loop still runs `times + 1` passes within the trace |
| PitClk.CorrectedPitWait | TSCSync/PITClkWait.c:43-84 | the corrected wait starts as `PITClkWait` does and runs `times + 1` passes |
| PitClk.CorrectedOuterWaitSpan | TSCSync/PITClkWait.c:63-84 | with the corrected carry every deadline lies exactly 32767 ticks after the previous one, so the ticks lie between `b + 1 + 32767n + lo` and `b + 32767n + 2hi` |
| PitClk.CorrectedPitWaitElapsed | TSCSync/PITClkWait.c:43-84 | with the corrected carry the wait lasts between `Delay/3 + lo` and `Delay/3 + 2hi - 1` ticks, however many subintervals it takes |
| PitClk.PollReads | TSCSync/PITClkWait.c:143-149 | polling stops on a count at or below 65535 - 62799 |
| PitClk.PollReadsFirst | TSCSync/PITClkWait.c:143-149 | every count before the stopping one is above the limit |
| PitClk.ElapsedTicks | TSCSync/PITClkWait.c:153 | the ticks gone by lie between 62799 and 65535 |
| PitClk.DriftTicks | TSCSync/PITClkWait.c:155-157 | `wCountDrift` is never negative and never exceeds the ticks past 62799 |
| PitClk.DriftTicksNotMonotone | TSCSync/PITClkWait.c:155-157 | an excess of 22 ticks is kept as 22 while an excess of 23 counts as 1 |
| PitClk.TscPer62799 | TSCSync/PITClkWait.c:162-178 | the result lies in `[0, end - start]` and removes at most the drift's proportional share of the difference |
| PitClk.PollCalibration | TSCSync/PITClkWait.c:143-149 | the polling loop takes exactly the reads `PollReads` describes and returns the stopping count |
| PitClk.PollOnce | TSCSync/PITClkWait.c:145-149 | one latch and read, stated against the reads polling has left |
| PitClk.GetTscPer62799 | TSCSync/PITClkWait.c:122-179 | restores the interrupt flag, ignores `delay`, polls, and returns the drift-corrected TSC difference |
| Jitter.IncludeTracks | TSCSync/main.cpp:1096-1100 | folding in a counted difference keeps min, max and sum equal to those of the counted differences |
| Jitter.AcpiCounted | TSCSync/main.cpp:1093-1104 | the counted ACPI differences are non-negative `int32_t` values, at most one per read |
| Jitter.AcpiScanStep | TSCSync/main.cpp:1093-1104 | one step of the scan keeps the summary equal to that of the differences counted so far |
| Jitter.ScanAcpi | TSCSync/main.cpp:1093-1105 | min, max and sum are those of the non-negative `int32_t` differences `a[i] - a[i-1]`, and the average is sum / 1250 |
| Jitter.RecordAcpi | TSCSync/main.cpp:1090-1091 | the buffer holds the next 1250 timer reads as `int32_t` |
| Jitter.ProfileAcpi | TSCSync/main.cpp:1084-1106 | masks interrupts (and leaves them masked), records and scans |
| Jitter.EvenAcpiSteps | TSCSync/main.cpp:1093-1104 | a timer advancing by a constant step has every one of its differences counted as that step |
| Jitter.EvenAcpiAverageBelowStep | TSCSync/main.cpp:1105 | for such a timer the reported average is below the step |
| Jitter.PitCounted | TSCSync/main.cpp:1136-1146 | the counted PIT differences are `uint16_t` values `a[i-1] - a[i]` whose `int16_t` reading is not negative |
| Jitter.PitScanStep | TSCSync/main.cpp:1136-1146 | one step of the scan keeps the summary equal to that of the differences counted so far |
| Jitter.ScanPit | TSCSync/main.cpp:1136-1149 | min, max and sum are those of the counted PIT differences, and the average is sum / 1250 |
| Jitter.RecordPit | TSCSync/main.cpp:1128-1134 | the buffer holds the next 1250 latched counts |
| Jitter.ProfilePit | TSCSync/main.cpp:1118-1151 | masks interrupts (and leaves them masked), records and scans |
| Jitter.PitStepAcrossWrap | TSCSync/main.cpp:1138-1139 | a step below 2^15 of the descending count is counted as that step, also when the counter wraps between the two reads |
| CpuId.LeBytes | TSCSync/main.cpp:1163-1178 | a register is four bytes in memory order |
| CpuId.WordOfBytes | TSCSync/main.cpp:1163-1178 | reading a register's bytes back gives the register |
| CpuId.BytesOfWord | TSCSync/main.cpp:1163-1178 | splitting the word built from four bytes gives those bytes |
| CpuId.Vendor | TSCSync/main.cpp:1165-1178 | the 12 vendor bytes are those of EBX, then EDX, then ECX |
| CpuId.GenuineIntelVendor | TSCSync/main.cpp:1165-1178 | Intel's register values give "GenuineIntel" |
| CpuId.DisplayFamily | TSCSync/main.cpp:1182 | the family is the base family, extended only when it is 0xF |
| CpuId.DisplayModelAsWritten | TSCSync/main.cpp:1183 | the model the program shows keeps the base model in its low four bits, fits in nine bits, and equals the manual's model outside families 6 and 0xF |
| CpuId.DisplayModel | TSCSync/main.cpp:1181-1184 | the model the Intel manual defines (bits 19:16 times 16 plus the base model for families 6 and 0xF) keeps the base model in its low four bits and fits in a byte |
| CpuId.BitsFrom15 | TSCSync/main.cpp:1183 | with bits 15:14 clear, bits 19:15 hold twice the extended model |
| CpuId.DisplayStepping | TSCSync/main.cpp:1184 | the stepping is bits 3:0 |
| CpuId.DecodeEncode | TSCSync/main.cpp:1181-1184 | every version field reads back from the EAX value that carries it |
| CpuId.DisplayOfEncoded | TSCSync/main.cpp:1182-1184 | family, model and stepping of an EAX value built from its fields, as the manual defines them |
| CpuId.DisplayModelAsWrittenDoubles | TSCSync/main.cpp:1183 | taking bits 19:15 counts the extended model times 32 instead of 16 |
| CpuId.DisplayModelAsWrittenMisreads | TSCSync/main.cpp:1183 | signature 0x906EA is shown as model 0x12E instead of 0x9E |
| Drift.ParmsSpanOneSecond | TSCSync/main.cpp:166-182 | each of the five entries asks for a positive number of ticks whose product with its multiplier is 3579543 |
| Drift.SampleCountAsWritten | TSCSync/main.cpp:1809-1816 | indices 0 to 4 select between 10 and 62500 samples, and any other index keeps the previous count |
| Drift.SampleCountFourOverruns | TSCSync/main.cpp:1809-1816 | index 4 selects 62500 samples, more than one slice and more than the whole buffer |
| Drift.SampleCount | TSCSync/main.cpp:1809-1816 | indices 0 to 3 give their positive counts, any other index keeps the previous count, and the count never exceeds `MAXNUM` |
| Drift.SlicesApart | TSCSync/main.cpp:150-151 | slices of at most `MAXNUM` samples never overlap and stay inside the buffers |
| Drift.DriftSecPerDay | TSCSync/main.cpp:1913 | the drift is zero exactly when `tsc * multiplier == reference`, and positive exactly when it is larger |
| Drift.DriftAffine | TSCSync/main.cpp:1913 | the drift is `tsc * (multiplier * 86400 / reference) - 86400` |
| Drift.DriftsAffine | TSCSync/main.cpp:1913 | each sample's drift is affine in its cycle count |
| Drift.SumOfDrifts | TSCSync/main.cpp:1902-1913 | the summed drifts are the drift formula applied to the summed cycles |
| Drift.SeriesDriftIsMeanDrift | TSCSync/main.cpp:1902-1903 | the series drift computed from the mean cycle count equals the mean of the per-sample drifts |
| Drift.StoredDrift | TSCSync/main.cpp:1915-1921 | without deburring the drift is stored; with it, it is stored or zeroed, and zeroed exactly when above 5 times the series drift |
| Drift.ConstantSeriesDeburring | TSCSync/main.cpp:1915-1919 | for a constant series, a negative series drift zeroes every sample, and a non-negative one keeps every sample |
| Drift.AcpiSample | TSCSync/main.cpp:1874 | a sample takes two TSC reads and exactly the reads of one `AcpiClkWait` call |
| Drift.Samples | TSCSync/main.cpp:1872-1877 | a run of `count` samples yields `count` values and takes two TSC reads per sample |
| Drift.SamplesFirst | TSCSync/main.cpp:1872-1877 | a run of samples is its first sample followed by the run of one fewer on the remaining readings |
| Drift.Sample | TSCSync/main.cpp:1874 | one `AcpiClkWait(delay)` call returns the sample `AcpiSample` describes and restores the interrupt flag |
| Drift.Splice | TSCSync/main.cpp:1874 | splicing writes the given values from the slice start and leaves every other entry unchanged |
| Drift.NextSample | TSCSync/main.cpp:1874 | one call returns the first pending sample and leaves the readings of the remaining ones |
| Drift.StoreSample | TSCSync/main.cpp:1874-1876 | one pass stores the sample after the earlier ones and adds it to the sum |
| Drift.MeasureSeries | TSCSync/main.cpp:1872-1900 | the loop writes the samples into the entry's slice, leaves the rest of the buffer unchanged, and returns their sum |
| Drift.SumOfAsReals | TSCSync/main.cpp:1876 | summing the samples as reals is the integer sum as a real |
| Drift.ScaleSeries | TSCSync/main.cpp:1910-1923 | the loop writes each sample's stored drift into the entry's slice and nothing else |
| Drift.RunSeries | TSCSync/main.cpp:1864-1923 | one entry stores its samples and their drifts in its own slices, and its series drift is the mean of the per-sample drifts |
| Bootstrap.CheckSyncTimeAsWritten | TSCSync/main.cpp:1330-1336 | the `/synctime` check accepts exactly the values of at least 1 |
| Bootstrap.SyncTimeOf600Wraps | TSCSync/main.cpp:1332-1379 | 600 passes the check but `600 * 3579543` wraps to a negative `int`, so the countdown is skipped with `Delay - count == 0` |
| Bootstrap.CheckSyncTime | TSCSync/main.cpp:1330-1336 | the bounded check accepts exactly 1 to 599, and every accepted value gives the exact, positive ACPI request |
| Bootstrap.TscPerSecond | TSCSync/main.cpp:1384 | for a non-negative difference the reference is the whole cycles per second, rounded down |
| Bootstrap.Reference | TSCSync/main.cpp:1343-1387 | for every `SECONDS >= 1` the check as written accepts (in ACPI mode with the correction on, every one whose request is positive): RTC mode divides the TSC difference by `SECONDS`; ACPI mode divides the corrected `AcpiClkWait` result by it; interrupts stay masked |
| Bootstrap.AcpiReferenceBounds | TSCSync/main.cpp:1379-1384 | for every `SECONDS >= 1` (with a positive request when the correction is on) the ACPI reference is never negative, and times `SECONDS` it is at most the cycles counted |

## Left out

- The text UI, the menu state machine, the XLSX report, the configuration file and the command line are not part of this model. Only the `/synctime` check is kept.
- Port I/O is modelled as reading traces. This covers `_inp`, `_outp`, `_inpd`, `__rdtsc`, PIT programming and the real-time-clock edge waits. The RTC reference is modelled as one TSC read after the start read.
- Interrupt masking is a saved and restored boolean. There is no concurrency.
- `double` arithmetic is modelled as `real` arithmetic, with no rounding, overflow, infinity or NaN. A reference of 0 (a division by zero in the program) is excluded by `reference > 0`.
- Drift.MeasureSeries: sums the samples exactly as an integer. The program sums them in a `double`.
- The debug `printf` in `AcpiClkWait`, the CPU speed estimate via `clock()`, and the progress display in the sample loop are left out.
- Drift.RunSeries: models one `parms` entry at a time. The loop over the five entries and their enable flags is not modelled. `Drift.SlicesApart` shows that the entries' slices do not overlap.
- AcpiClk.AcpiClkWait: requires `Delay > 0` when the correction is on. With `Delay <= 0` the program divides by zero (`Bootstrap.SyncTimeOf600Wraps` shows how such a request arises). Its result is stated with the product computed exactly; the `int64_t` product of line 102 is modelled by `AcpiClk.CorrectedCyclesInt64` and agrees whenever it fits (`AcpiClk.Int64ProductAgrees`).
- AcpiClk.CorrectedCycles: computes the correction's product exactly. `AcpiClk.CorrectedCyclesInt64` models the `int64_t` product.
- The sample-count switch is modelled as written by `Drift.SampleCountAsWritten` and, restricted to the menu's four choices, by `Drift.SampleCount`. `Drift.RunSeries` requires a count of at most `MAXNUM`, which `Drift.SampleCount` guarantees and index 4 would not.
- `gCOUNTER_WIDTH` is fixed at 24, as the program sets it. `InternalAcpiDelay`'s constants are written for that width.
- PitClk.PitWaitElapsed: bounds the ticks only for reads whose steps lie in `lo..hi` with `hi < 2^15`. Longer gaps between reads (an SMI, a stalled bus) alias modulo 2^16, and no statement is made for them. The same holds for `PitClk.PITClkWait`, `PitClk.WaitSubintervals` and `PitClk.CorrectedPitWaitElapsed`.
- AcpiClk.InternalAcpiDelay: the ticks are counted as the sum of 24-bit forward distances between successive reads. They equal the real elapsed time only when the timer advances by less than 2^24 ticks between two reads. No upper bound is stated, because the source promises none.
- PitClk.PitWaitReads: states the reads and passes of one wait. The ticks it lasts are stated separately by `PitClk.PitWaitElapsed`.
- The spin wait of the RTC reference and the `sec` counter in it have no effect on the result and are left out.

## Findings

| source | as written | input that shows it | evidently intended | confidence | as-written member | corrected member |
|---|---|---|---|---|---|---|
| TSCSync/main.cpp:1183 | the model's extended term is `((eax >> 15) & 0x1F) << 4`, taking bits 19:15 | EAX 0x000906EA (family 6, extended model 9, model 0xE) is shown as model 0x12E | bits 19:16, `((eax >> 16) & 0xF) << 4`, giving 0x9E as the Intel manual defines | high; not executed | CpuId.DisplayModelAsWrittenMisreads | CpuId.DisplayOfEncoded |
| TSCSync/main.cpp:1332 | `/synctime` refuses only values below 1, and line 1379 computes `SECONDS * 3579543` in `int` | `/synctime:600`: the request wraps to -2147241496, the countdown is skipped, and line 102 of AcpiClkWait.c divides by `Delay - count == 0` | refuse values above 599, where the request still fits | high; not executed | Bootstrap.SyncTimeOf600Wraps | Bootstrap.CheckSyncTime |
| TSCSync/AcpiClkWait.c:102 | `(qwTSCEnd - qwTSCStart) * Delay` is computed in `int64_t` | 9·10^10 cycles (30 s at 3 GHz) times `30 * 3579543` exceeds 2^63, and the result is negative | the exact quotient `floor(diff * Delay / (Delay - count))` | medium; not executed | AcpiClk.ThirtySecondReferenceOverflows | AcpiClk.CorrectionBounds |
| TSCSync/PITClkWait.c:82 | the next deadline is `COUNTER_MASK2 - 1 + diff + current`, with `diff` measured against the count before the fresh `current` | `PITClkWait(98301)` with the counts 0, 0, 32766, 32766: the request is 32767 ticks and the wait ends after 32766 | each deadline a whole subinterval after the previous one, `COUNTER_MASK2 + diff + tested`, so the wait lasts at least `Delay / 3` ticks | medium; not executed | PitClk.PitWaitEndsEarly | PitClk.CorrectedPitWaitElapsed |
| TSCSync/main.cpp:1815 | index 4 of the sample-count switch selects 62500 samples, and the index is read from the configuration file unchecked (line 1251) | index 4 with entry 0 enabled writes 62500 samples from `statbuf4DiffTSC[0]`, past the 12500-entry buffer | only indices 0 to 3, whose counts fit in one `MAXNUM` slice (the menu offers only those) | high; not executed | Drift.SampleCountFourOverruns | Drift.SampleCount |
