/**
  The machine the calibration routines run on. Every hardware read the
  routines make is the next element of a reading trace fixed when the machine
  is built: the ACPI power-management timer port (`_inpd`), the latched count of
  i8254 channel 2 (two `inp` byte reads after a latch command), and the
  time-stamp counter (`__rdtsc`). The interrupt flag of EFLAGS (bit 0x200) is
  the only processor state the routines change; `gfErrorCorrection` is the one
  global setting they read.
*/
module Platform {
  import opened Bits

  /**
    Successive time-stamp counter values: a counter that never runs backwards
    and stays below 2^63, so it reads the same as `uint64_t` and as `int64_t`.
  */
  type TscTrace = s: seq<nat> | forall i, j | 0 <= i <= j < |s| :: s[i] <= s[j] < TwoTo63
    witness []

  class Machine {
    /** Values the ACPI PM timer port returns, in the order they are read. */
    const pmTimer: seq<uint32>
    /** Raw (descending) counts latched from i8254 channel 2, in the order they are read. */
    const pitLatch: seq<uint16>
    /** Time-stamp counter values, in the order they are read. */
    const tsc: TscTrace

    /** How many values of each trace have been consumed. */
    var pmPos: nat
    var pitPos: nat
    var tscPos: nat

    /** EFLAGS.IF: whether maskable interrupts are enabled. */
    var interruptsEnabled: bool
    /** `gfErrorCorrection`: 1 enables the overshoot correction of the ACPI estimator. */
    var errorCorrection: int

    constructor (pm: seq<uint32>, pit: seq<uint16>, t: TscTrace, interrupts: bool)
      ensures pmTimer == pm && pitLatch == pit && tsc == t
      ensures pmPos == 0 && pitPos == 0 && tscPos == 0
      ensures interruptsEnabled == interrupts && errorCorrection == 1
    {
      pmTimer, pitLatch, tsc := pm, pit, t;
      pmPos, pitPos, tscPos := 0, 0, 0;
      interruptsEnabled := interrupts;
      errorCorrection := 1;
    }

    /** `_inpd(gPmTmrBlkAddr)`: the next PM timer value. */
    method ReadPmTimer() returns (v: uint32)
      requires pmPos < |pmTimer|
      modifies this`pmPos
      ensures v == pmTimer[old(pmPos)] && pmPos == old(pmPos) + 1
    {
      v := pmTimer[pmPos];
      pmPos := pmPos + 1;
    }

    /** Latch channel 2 and read its low and high byte: the next raw count. */
    method ReadPitLatch() returns (v: uint16)
      requires pitPos < |pitLatch|
      modifies this`pitPos
      ensures v == pitLatch[old(pitPos)] && pitPos == old(pitPos) + 1
    {
      v := pitLatch[pitPos];
      pitPos := pitPos + 1;
    }

    /** `__rdtsc()`: the next time-stamp counter value. */
    method ReadTsc() returns (t: nat)
      requires tscPos < |tsc|
      modifies this`tscPos
      ensures t == tsc[old(tscPos)] && tscPos == old(tscPos) + 1
    {
      t := tsc[tscPos];
      tscPos := tscPos + 1;
    }

    /** `_disable()`: clear the interrupt flag. */
    method Disable()
      modifies this`interruptsEnabled
      ensures !interruptsEnabled
    {
      interruptsEnabled := false;
    }

    /** `_enable()`: set the interrupt flag. */
    method Enable()
      modifies this`interruptsEnabled
      ensures interruptsEnabled
    {
      interruptsEnabled := true;
    }
  }
}
