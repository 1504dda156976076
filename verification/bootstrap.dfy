/**
  The time-stamp counter reference taken at start-up: the cycles counted over
  `SECONDS` real-time-clock seconds, or over `SECONDS * 3579543` ACPI timer
  ticks, divided by `SECONDS`.
*/
module Bootstrap {
  import opened Bits
  import opened Wrappers
  import opened Platform
  import opened AcpiClk

  /** The longest reference for which `SECONDS * 3579543` still fits in an `int`. */
  const MaxSyncSeconds: int := 599

  /** The ACPI request of the reference, `SECONDS * 3579543` in `int` arithmetic. */
  function AcpiSyncDelay(seconds: int32): int32
  {
    ToInt32(seconds * AcpiTicksPerSecond)
  }

  /** The `/synctime:<n>` check as written: only values below 1 are refused. */
  function CheckSyncTimeAsWritten(seconds: int32): (r: Result<int32, string>)
    ensures r.Ok? <==> seconds >= 1
    ensures r.Ok? ==> r.value == seconds
  {
    if 1 > seconds then Err("Parameter failure, consider format: \"/synctime:1\"")
    else Ok(seconds)
  }

  /**
    A reference of 600 seconds passes the check, but its ACPI request wraps to
    a negative `int`: the countdown is skipped, `count` stays at `Delay`, and
    the correction divides by `Delay - count == 0`.
  */
  lemma SyncTimeOf600Wraps()
    ensures CheckSyncTimeAsWritten(600).Ok?
    ensures AcpiSyncDelay(600) < 0
    ensures forall readings: seq<uint32> | |readings| >= 2 ::
      AcpiWaitPoll(AcpiSyncDelay(600), readings) == Some(Poll(AcpiSyncDelay(600), 0))
  {
    assert 600 * AcpiTicksPerSecond == 2_147_725_800;
    assert AcpiSyncDelay(600) == 2_147_725_800 - TwoTo32;
    forall readings: seq<uint32> | |readings| >= 2
      ensures AcpiWaitPoll(AcpiSyncDelay(600), readings) == Some(Poll(AcpiSyncDelay(600), 0))
    {
      CountDownSkipped(AcpiSyncDelay(600), Low16(readings[1]), readings[2..]);
    }
  }

  /**
    The check with the upper bound the ACPI request needs: every accepted
    reference gives the exact, positive request `SECONDS * 3579543`.
  */
  function CheckSyncTime(seconds: int32): (r: Result<int32, string>)
    ensures r.Ok? <==> 1 <= seconds <= MaxSyncSeconds
    ensures r.Ok? ==> r.value == seconds && AcpiSyncDelay(seconds) == seconds * AcpiTicksPerSecond > 0
  {
    if 1 > seconds || seconds > MaxSyncSeconds then
      Err("Parameter failure, consider format: \"/synctime:1\"")
    else
      assert seconds * AcpiTicksPerSecond <= MaxSyncSeconds * AcpiTicksPerSecond;
      Ok(seconds)
  }

  /**
    `gTSCPerSecondReference = (qwTSCEnd - qwTSCStart) / SECONDS`: for a
    non-negative difference, the whole cycles per second, rounded down.
  */
  function TscPerSecond(diff: int, seconds: int32): (r: int)
    requires seconds >= 1
    ensures diff >= 0 ==> r >= 0 && r * seconds <= diff < (r + 1) * seconds
  {
    CDivTruncates(diff, seconds);
    if diff >= 0 then CDivNonNegative(diff, seconds); DivBounds(diff, seconds); CDiv(diff, seconds)
    else CDiv(diff, seconds)
  }

  /**
    The reference measurement, for any `SECONDS` that `CheckSyncTimeAsWritten`
    accepts and whose ACPI request the correction can divide by (so for every
    value `CheckSyncTime` accepts). The time-stamp counter is read at the edge of
    the clock's update cycle and interrupts are masked. With the real-time
    clock it is read again `SECONDS` edges later. With the ACPI timer the
    start is cleared and the end is the count `AcpiClkWait` returns.
    Interrupts stay masked afterwards.
  */
  method Reference(m: Machine, seconds: int32, useRtc: bool) returns (reference: int)
    requires seconds >= 1
    requires !useRtc && m.errorCorrection == 1 ==> AcpiSyncDelay(seconds) > 0
    requires m.pmPos <= |m.pmTimer| && m.tscPos + 3 <= |m.tsc|
    requires !useRtc ==> AcpiWaitPoll(AcpiSyncDelay(seconds), m.pmTimer[m.pmPos..]).Some?
    modifies m`pmPos, m`tscPos, m`interruptsEnabled
    ensures !m.interruptsEnabled
    ensures useRtc ==> reference == TscPerSecond(m.tsc[old(m.tscPos) + 1] - m.tsc[old(m.tscPos)], seconds)
    ensures !useRtc ==>
      var delay := AcpiSyncDelay(seconds);
      var p := AcpiWaitPoll(delay, m.pmTimer[old(m.pmPos)..]).value;
      && (m.errorCorrection == 1 ==> delay - p.remaining != 0)
      && reference == TscPerSecond(
           CorrectedCycles(m.tsc[old(m.tscPos) + 2] - m.tsc[old(m.tscPos) + 1], delay, p.remaining, m.errorCorrection),
           seconds)
  {
    var start := m.ReadTsc();
    m.Disable();
    var end := 0;
    if useRtc {
      end := m.ReadTsc();
    } else {
      var cycles := AcpiClkWait(m, AcpiSyncDelay(seconds));
      end := end + cycles;
      start := 0;
    }
    reference := TscPerSecond(end - start, seconds);
  }

  /**
    The ACPI reference is never negative and at most the cycles counted, per
    second, whenever `Reference` may be called.
  */
  lemma AcpiReferenceBounds(tscDiff: int, seconds: int32, remaining: int, errorCorrection: int)
    requires seconds >= 1 && (errorCorrection == 1 ==> AcpiSyncDelay(seconds) > 0)
    requires tscDiff >= 0 && remaining <= 0
    ensures var r := TscPerSecond(CorrectedCycles(tscDiff, AcpiSyncDelay(seconds), remaining, errorCorrection), seconds);
      0 <= r && r * seconds <= tscDiff
  {
    if errorCorrection == 1 {
      CorrectionBounds(tscDiff, AcpiSyncDelay(seconds), remaining, errorCorrection);
    }
  }
}
