/**
  The i8254 channel-2 routines of `PITClkWait.c`: the inverted count read,
  the decompose-and-carry wait `PITClkWait`, and the fixed 62799-tick
  calibration `_osifIbmAtGetTscPer62799`.
*/
module PitClk {
  import opened Bits
  import opened Wrappers
  import opened Platform

  /** `COUNTER_MASK`: `(1 << COUNTER_WIDTH) - 1` with a 16-bit counter. */
  const CounterMask: int := 0xFFFF
  /** `COUNTER_MASK2`: `COUNTER_MASK / 2`, the length of one subinterval. */
  const CounterMask2: int := 32767

  // ---------------------------------------------------------------------------
  // GetPITCount
  // ---------------------------------------------------------------------------

  /**
    `GetPITCount`: `COUNTER_MASK & ~raw` of the latched channel-2 count. The
    hardware counts down; the complement turns it into an up-counter.
  */
  function PitCount(raw: uint16): (c: uint16)
    ensures c == CounterMask - raw
  {
    assert BitNot(raw) + TwoTo16 == CounterMask - raw;
    ToUint16(BitNot(raw))
  }

  /** The count ascends as the raw latch descends, and the inversion undoes itself. */
  lemma PitCountAscends(earlier: uint16, later: uint16)
    ensures later < earlier <==> PitCount(earlier) < PitCount(later)
    ensures PitCount(PitCount(earlier)) == earlier
  {
  }

  // ---------------------------------------------------------------------------
  // PITClkWait
  // ---------------------------------------------------------------------------

  /**
    `delay = Delay / 3` in C's truncating arithmetic, then `times = delay /
    COUNTER_MASK2` and `remainder = delay % COUNTER_MASK2`. `COUNTER_MASK2` is
    a `uint32_t`, so `delay` is converted to `uint32_t` before both: a
    negative third is divided as `delay + 2^32`.
  */
  function PitSplit(delay: int32): (s: (int, int))
    ensures ToUint32(CDiv(delay, 3)) == s.0 * CounterMask2 + s.1
    ensures 0 <= s.0 && 0 <= s.1 < CounterMask2
  {
    var u := ToUint32(CDiv(delay, 3));
    (u / CounterMask2, u % CounterMask2)
  }

  /** For a request that is not negative the split is that of `Delay / 3` itself. */
  lemma PitSplitNonNegative(delay: int32)
    requires delay >= 0
    ensures PitSplit(delay) == (delay / 3 / CounterMask2, delay / 3 % CounterMask2)
  {
    CDivNonNegative(delay, 3);
  }

  /**
    A request of -3 or less has a negative third, which the conversion to
    `uint32_t` turns into a request of at least 3579139414 ticks (the value
    for `Delay == -2^31`), that is at least 109230 whole subintervals of
    32767 ticks.
  */
  lemma {:induction false} NegativeDelayWraps(delay: int32)
    requires delay <= -3
    ensures ToUint32(CDiv(delay, 3)) >= 3579139414
    ensures PitSplit(delay).0 >= 109230
  {
    var third := CDiv(delay, 3);
    CDivTruncates(delay, 3);
    assert -715827882 <= third < 0;
    WrapNegative32(third);
    var u := ToUint32(third);
    assert u >= 3579139414;
    DivBounds(u, CounterMask2);
  }

  /** `Delay == -3` gives the longest request of all, 2^32 - 1 ticks. */
  lemma MinusThreeWaitsLongest()
    ensures ToUint32(CDiv(-3, 3)) == TwoTo32 - 1
    ensures PitSplit(-3) == (131076, 3)
  {
    assert CDiv(-3, 3) == -1;
  }

  /** Bit 15 of the two's-complement representation of `diff`. */
  predicate Bit15Set(diff: int)
  {
    diff % TwoTo16 >= TwoTo15
  }

  /**
    The correction applied to a positive difference with bit 15 set:
    `diff -= COUNTER_MASK; diff = (uint32_t)diff - 1;`, stored back in an `int32_t`.
  */
  function Adjust(diff: int32): (r: int32)
    requires diff > 0
    ensures r == diff - TwoTo16
  {
    var lowered := ToInt32(diff - CounterMask);
    WrapNegative32(lowered);
    ToInt32(ToUint32(lowered) - 1)
  }

  /** The difference the inner loop leaves behind when it exits on `diff`. */
  function ExitDiff(diff: int32): int32
  {
    if diff > 0 then Adjust(diff) else diff
  }

  /**
    Within the range a single subinterval produces, the exit difference is
    the 16-bit signed reading of the raw difference, and it is negative: the
    overshoot past the deadline.
  */
  lemma ExitDiffIsSigned16(diff: int32)
    requires Bit15Set(diff) && -TwoTo15 <= diff < TwoTo16
    ensures ExitDiff(diff) == ToInt16(diff) < 0
  {
    if diff >= 0 {
      assert diff % TwoTo16 == diff;
    } else {
      assert diff % TwoTo16 == diff + TwoTo16;
    }
  }

  /** `diff = ticks - current` in `int32_t`: how far the deadline lies past a count. */
  function PassDiff(ticks: int32, count: uint16): int32
  {
    ToInt32(ticks - count)
  }

  /** How the inner `while (1)` of `PITClkWait` ends. */
  datatype PitExit = PitExit(diff: int32, current: uint16, taken: nat)

  /**
    The inner `while (1)`: each pass computes `diff = ticks - current` from the
    count read on the PREVIOUS pass (or before the loop), then reads a fresh
    count, and exits when bit 15 of `diff` is set. None: the trace ran out.
  */
  function InnerWait(ticks: int32, current: uint16, latches: seq<uint16>): (r: Option<PitExit>)
    ensures r.Some? ==> 1 <= r.value.taken <= |latches|
    decreases |latches|
  {
    if latches == [] then None
    else
      var diff := PassDiff(ticks, current);
      var next := PitCount(latches[0]);
      if Bit15Set(diff) then Some(PitExit(ExitDiff(diff), next, 1))
      else
        match InnerWait(ticks, next, latches[1..])
        case None => None
        case Some(e) => Some(e.(taken := e.taken + 1))
  }

  /** The count `diff` is computed against on pass `j` (0-based) of the inner loop. */
  function Tested(current: uint16, latches: seq<uint16>, j: nat): uint16
    requires j <= |latches|
  {
    if j == 0 then current else PitCount(latches[j - 1])
  }

  /** Pass `j + 1` of the inner loop tests the count that pass `j` of the loop after the first read tests. */
  lemma TestedShift(current: uint16, latches: seq<uint16>, j: nat)
    requires 1 <= j <= |latches|
    ensures Tested(current, latches, j) == Tested(PitCount(latches[0]), latches[1..], j - 1)
  {
  }

  /**
    The inner loop exits on a pass whose difference has bit 15 set; that
    difference is taken against the count read one pass earlier, while the
    count it leaves in `current` is the one read on the exit pass.
  */
  lemma {:induction false} InnerWaitExit(ticks: int32, current: uint16, latches: seq<uint16>)
    requires InnerWait(ticks, current, latches).Some?
    ensures var e := InnerWait(ticks, current, latches).value;
      var raw := PassDiff(ticks, Tested(current, latches, e.taken - 1));
      && e.current == PitCount(latches[e.taken - 1])
      && Bit15Set(raw)
      && e.diff == ExitDiff(raw)
    decreases |latches|
  {
    var e := InnerWait(ticks, current, latches).value;
    if !Bit15Set(PassDiff(ticks, current)) {
      var next := PitCount(latches[0]);
      InnerWaitExit(ticks, next, latches[1..]);
      var e1 := InnerWait(ticks, next, latches[1..]).value;
      assert e == e1.(taken := e1.taken + 1);
      TestedShift(current, latches, e.taken - 1);
      assert Tested(current, latches, e.taken - 1) == Tested(next, latches[1..], e1.taken - 1);
      assert latches[1..][e1.taken - 1] == latches[e.taken - 1];
    } else {
      assert e.taken == 1 && Tested(current, latches, 0) == current;
    }
  }

  /** The exit pass is the first one: on every earlier pass bit 15 of the difference is clear. */
  lemma {:induction false} InnerWaitFirst(ticks: int32, current: uint16, latches: seq<uint16>)
    requires InnerWait(ticks, current, latches).Some?
    ensures var e := InnerWait(ticks, current, latches).value;
      forall j | 0 <= j < e.taken - 1 :: !Bit15Set(PassDiff(ticks, Tested(current, latches, j)))
    decreases |latches|
  {
    if !Bit15Set(PassDiff(ticks, current)) {
      var next := PitCount(latches[0]);
      InnerWaitFirst(ticks, next, latches[1..]);
      var e := InnerWait(ticks, next, latches[1..]).value;
      forall j | 1 <= j <= e.taken
        ensures Tested(current, latches, j) == Tested(next, latches[1..], j - 1)
      {
        TestedShift(current, latches, j);
      }
    }
  }

  /** `ticks = COUNTER_MASK2 - 1 + diff + current`: the next deadline. */
  function NextTicks(e: PitExit): int32
  {
    ToInt32(CounterMask2 - 1 + e.diff + e.current)
  }

  /**
    The carry: when the raw difference at exit lies within one subinterval,
    the next deadline sits `32766 + overshoot` past the fresh count, where the
    overshoot is the (negative) 16-bit signed reading of the exit difference;
    a late exit shortens the next subinterval by exactly the lateness.
  */
  lemma CarryShortensNextWindow(ticks: int32, current: uint16, latches: seq<uint16>)
    requires InnerWait(ticks, current, latches).Some?
    requires var e := InnerWait(ticks, current, latches).value;
      -TwoTo15 <= PassDiff(ticks, Tested(current, latches, e.taken - 1)) < TwoTo16
    ensures var e := InnerWait(ticks, current, latches).value;
      var raw := PassDiff(ticks, Tested(current, latches, e.taken - 1));
      NextTicks(e) - e.current == CounterMask2 - 1 + ToInt16(raw) < CounterMask2 - 1
  {
    InnerWaitExit(ticks, current, latches);
    var e := InnerWait(ticks, current, latches).value;
    CarryOf(PassDiff(ticks, Tested(current, latches, e.taken - 1)), e);
  }

  /** The carry arithmetic of one exit whose raw difference `raw` lies within one subinterval. */
  lemma CarryOf(raw: int32, e: PitExit)
    requires Bit15Set(raw) && -TwoTo15 <= raw < TwoTo16 && e.diff == ExitDiff(raw)
    ensures NextTicks(e) - e.current == CounterMask2 - 1 + ToInt16(raw) < CounterMask2 - 1
  {
    ExitDiffIsSigned16(raw);
  }

  /** The number of subintervals and of reads of the `do ... while (times-- > 0)` loop. */
  datatype PitRun = PitRun(passes: nat, taken: nat)

  /** The outer loop from a given deadline, count and pass budget. None: the trace ran out. */
  function OuterWait(times: int, ticks: int32, current: uint16, latches: seq<uint16>): (r: Option<PitRun>)
    ensures r.Some? ==> r.value.passes == (if times > 0 then times + 1 else 1)
    ensures r.Some? ==> r.value.taken <= |latches|
    decreases |latches|
  {
    match InnerWait(ticks, current, latches)
    case None => None
    case Some(e) =>
      if times > 0 then
        match OuterWait(times - 1, NextTicks(e), e.current, latches[e.taken..])
        case None => None
        case Some(run) => Some(PitRun(run.passes + 1, run.taken + e.taken))
      else Some(PitRun(1, e.taken))
  }

  /** The first deadline, `remainder + current - 1` as the `int32_t` ticks variable holds it. */
  function FirstDeadline(remainder: int, current: uint16): int32
  {
    ToInt32(remainder + current - 1)
  }

  /**
    All reads of `PITClkWait(Delay)`: the count read before interrupts are
    masked, which seeds the first deadline `remainder + current - 1`, then the
    outer loop. It runs `times + 1` subintervals.
  */
  function PitWaitReads(delay: int32, latches: seq<uint16>): (r: Option<PitRun>)
    ensures r.Some? ==> r.value.taken <= |latches|
    ensures r.Some? ==> r.value.passes == PitSplit(delay).0 + 1
  {
    if latches == [] then None
    else
      var split := PitSplit(delay);
      var current := PitCount(latches[0]);
      match OuterWait(split.0, FirstDeadline(split.1, current), current, latches[1..])
      case None => None
      case Some(run) => Some(run.(taken := run.taken + 1))
  }

  /** The reads of `PITClkWait` are the count read first and then those of the outer loop. */
  lemma PitWaitStart(delay: int32, latches: seq<uint16>, rest: seq<uint16>)
    requires latches != [] && rest == latches[1..]
    ensures var split, current := PitSplit(delay), PitCount(latches[0]);
      var run := OuterWait(split.0, FirstDeadline(split.1, current), current, rest);
      && (PitWaitReads(delay, latches).Some? <==> run.Some?)
      && (run.Some? ==> PitWaitReads(delay, latches).value.taken == run.value.taken + 1)
  {
  }

  /**
    The start of `PITClkWait`, before interrupts are masked: the split of the
    delay, and the first count, which seeds the first deadline.
  */
  method StartPitWait(m: Machine, delay: int32) returns (times: int, ticks: int32, current: uint16)
    requires m.pitPos <= |m.pitLatch| && PitWaitReads(delay, m.pitLatch[m.pitPos..]).Some?
    modifies m`pitPos
    ensures m.pitPos == old(m.pitPos) + 1 <= |m.pitLatch|
    ensures OuterWait(times, ticks, current, m.pitLatch[m.pitPos..]).Some?
    ensures PitWaitReads(delay, m.pitLatch[old(m.pitPos)..]).value.taken
      == OuterWait(times, ticks, current, m.pitLatch[m.pitPos..]).value.taken + 1
  {
    var split := PitSplit(delay);
    var remainder := split.1;
    times := split.0;
    PitWaitStart(delay, m.pitLatch[m.pitPos..], m.pitLatch[m.pitPos + 1..]);
    var raw := m.ReadPitLatch();
    current := PitCount(raw);
    ticks := FirstDeadline(remainder, current);
  }

  /** The inner `while (1)` of `PITClkWait`. */
  method WaitForBit15(m: Machine, ticks: int32, current0: uint16) returns (diff: int32, current: uint16)
    requires m.pitPos <= |m.pitLatch|
    requires InnerWait(ticks, current0, m.pitLatch[m.pitPos..]).Some?
    modifies m`pitPos
    ensures var e := InnerWait(ticks, current0, m.pitLatch[old(m.pitPos)..]).value;
      diff == e.diff && current == e.current && m.pitPos == old(m.pitPos) + e.taken
  {
    ghost var e := InnerWait(ticks, current0, m.pitLatch[m.pitPos..]).value;
    ghost var end := m.pitPos + e.taken;
    current := current0;
    diff := 0;
    while true
      invariant m.pitPos < end <= |m.pitLatch|
      invariant InnerWait(ticks, current, m.pitLatch[m.pitPos..]) == Some(PitExit(e.diff, e.current, end - m.pitPos))
      decreases end - m.pitPos
    {
      assert m.pitLatch[m.pitPos..][1..] == m.pitLatch[m.pitPos + 1..];
      diff := PassDiff(ticks, current);
      var raw := m.ReadPitLatch();
      current := PitCount(raw);
      if Bit15Set(diff) {
        if diff > 0 {
          diff := Adjust(diff);
        }
        break;
      }
    }
  }

  /** The first subinterval of the outer loop, and the reads the rest take after it. */
  lemma OuterWaitFirst(times: int, ticks: int32, current: uint16, latches: seq<uint16>)
    requires OuterWait(times, ticks, current, latches).Some?
    ensures InnerWait(ticks, current, latches).Some?
    ensures var e := InnerWait(ticks, current, latches).value;
      var total := OuterWait(times, ticks, current, latches).value.taken;
      && e.taken <= total
      && (times <= 0 ==> total == e.taken)
      && (times > 0 ==> OuterWait(times - 1, NextTicks(e), e.current, latches[e.taken..]).Some?
                        && OuterWait(times - 1, NextTicks(e), e.current, latches[e.taken..]).value.taken == total - e.taken)
  {
  }

  /**
    One pass of the `do` body of `PITClkWait`: wait for bit 15, then carry the
    overshoot into the next deadline; stated against the reads the passes left take.
  */
  method NextSubinterval(m: Machine, times: int, ticks: int32, current: uint16, ghost pending: nat)
    returns (ticksAfter: int32, currentAfter: uint16, ghost pendingAfter: nat)
    requires m.pitPos <= |m.pitLatch|
    requires OuterWait(times, ticks, current, m.pitLatch[m.pitPos..]).Some?
    requires OuterWait(times, ticks, current, m.pitLatch[m.pitPos..]).value.taken == pending
    modifies m`pitPos
    ensures m.pitPos <= |m.pitLatch| && m.pitPos + pendingAfter == old(m.pitPos) + pending
    ensures pendingAfter < pending
    ensures times <= 0 ==> pendingAfter == 0
    ensures times > 0 ==> OuterWait(times - 1, ticksAfter, currentAfter, m.pitLatch[m.pitPos..]).Some?
    ensures times > 0 ==> OuterWait(times - 1, ticksAfter, currentAfter, m.pitLatch[m.pitPos..]).value.taken == pendingAfter
  {
    ghost var here := m.pitPos;
    OuterWaitFirst(times, ticks, current, m.pitLatch[here..]);
    ghost var e := InnerWait(ticks, current, m.pitLatch[here..]).value;
    var diff;
    diff, currentAfter := WaitForBit15(m, ticks, current);
    ticksAfter := ToInt32(CounterMask2 - 1 + diff + currentAfter);
    assert ticksAfter == NextTicks(e);
    assert m.pitLatch[here..][e.taken..] == m.pitLatch[m.pitPos..];
    pendingAfter := pending - e.taken;
  }

  /** The `do ... while (times-- > 0)` loop of `PITClkWait`: `times + 1` subintervals. */
  method WaitSubintervals(m: Machine, times0: int, ticks0: int32, current0: uint16)
    requires m.pitPos <= |m.pitLatch|
    requires OuterWait(times0, ticks0, current0, m.pitLatch[m.pitPos..]).Some?
    modifies m`pitPos
    ensures m.pitPos == old(m.pitPos) + OuterWait(times0, ticks0, current0, m.pitLatch[old(m.pitPos)..]).value.taken
    ensures SubintervalBounds(times0, ticks0, current0, m.pitLatch[old(m.pitPos)..m.pitPos])
  {
    var times, ticks, current := times0, ticks0, current0;
    ghost var pending: nat := OuterWait(times, ticks, current, m.pitLatch[m.pitPos..]).value.taken;
    ghost var done := m.pitPos + pending;
    while true
      invariant m.pitPos <= |m.pitLatch| && m.pitPos + pending == done
      invariant OuterWait(times, ticks, current, m.pitLatch[m.pitPos..]).Some?
      invariant OuterWait(times, ticks, current, m.pitLatch[m.pitPos..]).value.taken == pending
      decreases pending
    {
      ticks, current, pending := NextSubinterval(m, times, ticks, current, pending);
      if times <= 0 {   // `times-- > 0` fails
        break;
      }
      times := times - 1;
    }
    OuterWaitElapsedAll(times0, ticks0, current0, m.pitLatch, old(m.pitPos), m.pitPos);
  }

  /**
    `PITClkWait(Delay)`: wait `Delay / 3` channel-2 ticks as `times` whole
    subintervals after a remainder, carrying each overshoot into the next
    deadline, with interrupts masked; return the time-stamp counter cycles taken.
  */
  method PITClkWait(m: Machine, delay: int32) returns (cycles: int)
    requires m.pitPos <= |m.pitLatch|
    requires PitWaitReads(delay, m.pitLatch[m.pitPos..]).Some?
    requires m.tscPos + 2 <= |m.tsc|
    modifies m`pitPos, m`tscPos, m`interruptsEnabled
    ensures m.interruptsEnabled == old(m.interruptsEnabled)
    ensures m.pitPos == old(m.pitPos) + PitWaitReads(delay, m.pitLatch[old(m.pitPos)..]).value.taken
    ensures m.tscPos == old(m.tscPos) + 2
    ensures cycles == m.tsc[old(m.tscPos) + 1] - m.tsc[old(m.tscPos)]
    ensures WaitBounds(delay, m.pitLatch[old(m.pitPos)..m.pitPos])
  {
    var times, ticks, current := StartPitWait(m, delay);
    var savedInterrupts := m.interruptsEnabled;   // bit 0x200 of the saved EFLAGS
    m.Disable();
    var tscStart := m.ReadTsc();

    WaitSubintervals(m, times, ticks, current);

    var tscEnd := m.ReadTsc();
    if savedInterrupts {
      m.Enable();
    }
    cycles := tscEnd - tscStart;
    PitWaitElapsedAll(delay, m.pitLatch, old(m.pitPos), m.pitPos);
  }

  // ---------------------------------------------------------------------------
  // Ticks elapsed over PITClkWait
  // ---------------------------------------------------------------------------

  /** The channel-2 ticks from count `current` through the counts latched in `latches`. */
  function Span(current: uint16, latches: seq<uint16>): nat
    decreases |latches|
  {
    if latches == [] then 0
    else Forward16(current, PitCount(latches[0])) + Span(PitCount(latches[0]), latches[1..])
  }

  /** The ticks read `j` advances the count by. */
  function Step(current: uint16, latches: seq<uint16>, j: nat): uint16
    requires j < |latches|
  {
    Forward16(Tested(current, latches, j), PitCount(latches[j]))
  }

  /** Every read advances the count by at least `lo` and at most `hi` ticks. */
  predicate StepsWithin(current: uint16, latches: seq<uint16>, lo: int, hi: int)
  {
    forall j | 0 <= j < |latches| :: lo <= Step(current, latches, j) <= hi
  }

  /** The steps of the first `k` reads are steps of the whole run. */
  lemma StepsTake(current: uint16, latches: seq<uint16>, k: nat, lo: int, hi: int)
    requires k <= |latches| && StepsWithin(current, latches, lo, hi)
    ensures StepsWithin(current, latches[..k], lo, hi)
  {
    forall j | 0 <= j < k
      ensures Step(current, latches[..k], j) == Step(current, latches, j)
    {
      assert Tested(current, latches[..k], j) == Tested(current, latches, j);
    }
  }

  /** The steps after the first `k` reads, counted from the `k`-th count. */
  lemma StepsDrop(current: uint16, latches: seq<uint16>, k: nat, lo: int, hi: int)
    requires 1 <= k <= |latches| && StepsWithin(current, latches, lo, hi)
    ensures StepsWithin(PitCount(latches[k - 1]), latches[k..], lo, hi)
  {
    var rest, start := latches[k..], PitCount(latches[k - 1]);
    forall j | 0 <= j < |rest|
      ensures lo <= Step(start, rest, j) <= hi
    {
      assert lo <= Step(current, latches, k + j) <= hi;
      assert Tested(start, rest, j) == Tested(current, latches, k + j);
      assert rest[j] == latches[k + j];
    }
  }

  /** The first read advances the count by a step within the bounds. */
  lemma FirstStep(current: uint16, latches: seq<uint16>, lo: int, hi: int)
    requires latches != [] && StepsWithin(current, latches, lo, hi)
    ensures lo <= Forward16(current, PitCount(latches[0])) <= hi
  {
    assert Step(current, latches, 0) == Forward16(current, PitCount(latches[0]));
  }

  /** The ticks over `n` reads are those over the first `k` and those from the `k`-th count on. */
  lemma {:induction false} SpanSplit(current: uint16, latches: seq<uint16>, k: nat, n: nat)
    requires 1 <= k <= n <= |latches|
    ensures Span(current, latches[..n])
      == Span(current, latches[..k]) + Span(PitCount(latches[k - 1]), latches[k..n])
    decreases k
  {
    var next := PitCount(latches[0]);
    assert latches[..n][1..] == latches[1..][..n - 1];
    assert latches[..k][1..] == latches[1..][..k - 1];
    if k == 1 {
      assert latches[1..][..n - 1] == latches[1..n];
    } else {
      SpanSplit(next, latches[1..], k - 1, n - 1);
      assert latches[1..][k - 1..n - 1] == latches[k..n];
    }
  }

  /** Bit 15 of a value that agrees modulo 2^16 with a signed 16-bit value is that value's sign. */
  lemma Bit15OfSigned(x: int, y: int)
    requires (x - y) % TwoTo16 == 0 && -TwoTo15 <= y < TwoTo15
    ensures Bit15Set(x) <==> y < 0
  {
    Int16Of(x, y);
  }

  /** Agreement modulo 2^16 survives subtracting two values that agree modulo 2^16. */
  lemma CongruentShift(x: int, y: int, d: int, e: int)
    requires (x - y) % TwoTo16 == 0 && (d - e) % TwoTo16 == 0
    ensures ((x - d) - (y - e)) % TwoTo16 == 0
  {
    assert x - y == TwoTo16 * ((x - y) / TwoTo16);
    assert d - e == TwoTo16 * ((d - e) / TwoTo16);
    assert (x - d) - (y - e) == TwoTo16 * ((x - y) / TwoTo16 - (d - e) / TwoTo16);
  }

  /**
    For a deadline within the range the wait produces, the difference the
    inner loop leaves behind is the negative `int16_t` reading of the raw one.
  */
  lemma ExitDiffRange(raw: int32)
    requires Bit15Set(raw) && -TwoTo16 <= raw < TwoTo16 + TwoTo15
    ensures -TwoTo15 <= ExitDiff(raw) < 0 && ToInt16(raw) == ExitDiff(raw)
  {
    if 0 < raw < TwoTo16 {
      assert raw % TwoTo16 == raw;
    } else if -TwoTo16 < raw <= 0 {
      assert raw % TwoTo16 == raw + TwoTo16;
    }
    Int16Of(raw, ExitDiff(raw));
  }

  /**
    The inner loop measured in ticks. With the deadline `b` ticks past
    `current` (`ticks - current` read as `int16_t`, at most one step behind)
    and reads of at most `hi < 2^15` ticks each, the count the exit test used
    lies `s` ticks on with `b < s <= b + hi`, the difference carried out is
    exactly the overshoot `b - s`, and the fresh count lies one more step on.
  */
  lemma {:induction false} InnerWaitSpan(ticks: int32, current: uint16, latches: seq<uint16>, b: int, lo: int, hi: int)
    requires InnerWait(ticks, current, latches).Some?
    requires StepsWithin(current, latches[..InnerWait(ticks, current, latches).value.taken], lo, hi)
    requires 1 <= hi < TwoTo15 && -1 <= ticks < TwoTo16 + TwoTo15
    requires b == ToInt16(ticks - current) && -hi <= b
    ensures var e := InnerWait(ticks, current, latches).value;
      var s := Span(current, latches[..e.taken - 1]);
      var f := Span(current, latches[..e.taken]);
      && b < s <= b + hi
      && e.diff == b - s
      && e.current == PitCount(latches[e.taken - 1])
      && f - s == Forward16(Tested(current, latches, e.taken - 1), e.current)
      && lo <= f - s <= hi
    decreases |latches|
  {
    var e := InnerWait(ticks, current, latches).value;
    var raw := PassDiff(ticks, current);
    assert raw == ticks - current;
    Bit15OfSigned(raw, b);
    FirstStep(current, latches[..e.taken], lo, hi);
    if b < 0 {
      InnerWaitSpanNow(ticks, current, latches, b, lo, hi);
    } else {
      InnerWaitSpanLater(ticks, current, latches, b, lo, hi);
    }
  }

  /** The inner loop when the deadline already lies behind `current`: it exits on the first pass. */
  lemma InnerWaitSpanNow(ticks: int32, current: uint16, latches: seq<uint16>, b: int, lo: int, hi: int)
    requires latches != [] && -1 <= ticks < TwoTo16 + TwoTo15
    requires b == ToInt16(ticks - current) && -hi <= b < 0
    requires lo <= Forward16(current, PitCount(latches[0])) <= hi
    ensures InnerWait(ticks, current, latches).Some?
    ensures var e := InnerWait(ticks, current, latches).value;
      var s := Span(current, latches[..e.taken - 1]);
      var f := Span(current, latches[..e.taken]);
      && e.taken == 1
      && b < s <= b + hi
      && e.diff == b - s
      && e.current == PitCount(latches[e.taken - 1])
      && f - s == Forward16(Tested(current, latches, e.taken - 1), e.current)
      && lo <= f - s <= hi
  {
    var raw := PassDiff(ticks, current);
    assert raw == ticks - current;
    Bit15OfSigned(raw, b);
    ExitDiffRange(raw);
    assert latches[..0] == [] && latches[..1][1..] == [];
  }

  /** The inner loop when the deadline still lies ahead of `current`: one read, then the rest of the loop. */
  lemma {:induction false} InnerWaitSpanLater(ticks: int32, current: uint16, latches: seq<uint16>, b: int, lo: int, hi: int)
    requires InnerWait(ticks, current, latches).Some?
    requires StepsWithin(current, latches[..InnerWait(ticks, current, latches).value.taken], lo, hi)
    requires 1 <= hi < TwoTo15 && -1 <= ticks < TwoTo16 + TwoTo15
    requires b == ToInt16(ticks - current) && 0 <= b
    ensures var e := InnerWait(ticks, current, latches).value;
      var s := Span(current, latches[..e.taken - 1]);
      var f := Span(current, latches[..e.taken]);
      && b < s <= b + hi
      && e.diff == b - s
      && e.current == PitCount(latches[e.taken - 1])
      && f - s == Forward16(Tested(current, latches, e.taken - 1), e.current)
      && lo <= f - s <= hi
    decreases |latches|, 0
  {
    var e := InnerWait(ticks, current, latches).value;
    var raw := PassDiff(ticks, current);
    assert raw == ticks - current;
    Bit15OfSigned(raw, b);
    var next := PitCount(latches[0]);
    var step := Forward16(current, next);
    FirstStep(current, latches[..e.taken], lo, hi);
    NextBudget(ticks, current, next, b, step);
    var e1 := InnerWait(ticks, next, latches[1..]).value;
    assert e == e1.(taken := e1.taken + 1);
    StepsDrop(current, latches[..e.taken], 1, lo, hi);
    assert latches[..e.taken][1..] == latches[1..][..e1.taken];
    InnerWaitSpan(ticks, next, latches[1..], b - step, lo, hi);
    InnerWaitSpanUnfold(current, latches, e1.taken);
    TestedShift(current, latches, e.taken - 1);
    assert latches[1..][e1.taken - 1] == latches[e.taken - 1];
  }

  /** After a read that advanced `step` ticks, the deadline lies `b - step` ticks past the new count. */
  lemma NextBudget(ticks: int, current: uint16, next: uint16, b: int, step: int)
    requires b == ToInt16(ticks - current) && step == Forward16(current, next)
    requires -TwoTo15 <= b - step < TwoTo15
    ensures ToInt16(ticks - next) == b - step
  {
    assert (next - current - step) % TwoTo16 == 0;
    CongruentShift(ticks - current, b, next - current, step);
    Int16Of(ticks - next, b - step);
  }

  /** The ticks over the first `k + 1` and `k` reads, from the first read on. */
  lemma InnerWaitSpanUnfold(current: uint16, latches: seq<uint16>, k: nat)
    requires 1 <= k < |latches|
    ensures Span(current, latches[..k + 1])
      == Forward16(current, PitCount(latches[0])) + Span(PitCount(latches[0]), latches[1..][..k])
    ensures Span(current, latches[..k])
      == Forward16(current, PitCount(latches[0])) + Span(PitCount(latches[0]), latches[1..][..k - 1])
  {
    assert latches[..k + 1][1..] == latches[1..][..k];
    assert latches[..k][1..] == latches[1..][..k - 1];
  }

  /** How far the deadline `ticks` lies past the count `current`: the signed 16-bit difference the loop tests. */
  function Offset(ticks: int, current: uint16): int
  {
    ToInt16(ticks - current)
  }

  /** One pass of the inner loop within a longer run of reads, measured in ticks. */
  lemma PassSpan(ticks: int32, current: uint16, latches: seq<uint16>, total: nat, b: int, lo: int, hi: int)
      returns (e: PitExit, s: int, f: int)
    requires InnerWait(ticks, current, latches).Some?
    requires InnerWait(ticks, current, latches).value.taken <= total <= |latches|
    requires StepsWithin(current, latches[..total], lo, hi)
    requires 1 <= hi < TwoTo15 && -1 <= ticks < TwoTo16 + TwoTo15
    requires b == ToInt16(ticks - current) && -hi <= b
    ensures InnerWait(ticks, current, latches) == Some(e) && 1 <= e.taken
    ensures s == Span(current, latches[..e.taken - 1]) && f == Span(current, latches[..e.taken])
    ensures b < s <= b + hi && e.diff == b - s && lo <= f - s <= hi
    ensures f - s == Forward16(Tested(current, latches, e.taken - 1), e.current)
    ensures e.current == PitCount(latches[e.taken - 1])
  {
    e := InnerWait(ticks, current, latches).value;
    StepsTake(current, latches[..total], e.taken, lo, hi);
    assert latches[..total][..e.taken] == latches[..e.taken];
    InnerWaitSpan(ticks, current, latches, b, lo, hi);
    s := Span(current, latches[..e.taken - 1]);
    f := Span(current, latches[..e.taken]);
  }

  /** The reads after the first `k`: their steps, and the ticks they add to the first `k`. */
  lemma RestSteps(current: uint16, latches: seq<uint16>, k: nat, total: nat, lo: int, hi: int)
    requires 1 <= k <= total <= |latches| && StepsWithin(current, latches[..total], lo, hi)
    ensures StepsWithin(PitCount(latches[k - 1]), latches[k..][..total - k], lo, hi)
    ensures Span(current, latches[..total])
      == Span(current, latches[..k]) + Span(PitCount(latches[k - 1]), latches[k..][..total - k])
  {
    StepsDrop(current, latches[..total], k, lo, hi);
    assert latches[..total][k..] == latches[k..][..total - k];
    SpanSplit(current, latches, k, total);
    assert latches[k..total] == latches[k..][..total - k];
  }

  /** A pass of the outer loop followed by `times - 1` more, added up. */
  lemma PassesAdd(times: int, b: int, s: int, f: int, rest: int, lo: int, hi: int)
    requires times > 0 && lo <= f - s <= hi
    requires CounterMask2 - 1 + b - s + 1 + (times - 1) * (CounterMask2 - 1 + lo) + lo <= rest
    requires rest <= CounterMask2 - 1 + b - s + (times - 1) * (CounterMask2 - 1 + hi) + 2 * hi
    ensures b + 1 + times * (CounterMask2 - 1 + lo) + lo <= f + rest <= b + times * (CounterMask2 - 1 + hi) + 2 * hi
  {
    assert (times - 1) * (CounterMask2 - 1 + lo) + (CounterMask2 - 1 + lo) == times * (CounterMask2 - 1 + lo);
    assert (times - 1) * (CounterMask2 - 1 + hi) + (CounterMask2 - 1 + hi) == times * (CounterMask2 - 1 + hi);
  }

  /** The deadline after a pass, as an offset from the count it restarts from. */
  lemma NextTicksBudget(e: PitExit)
    requires -TwoTo15 < e.diff < 0
    ensures NextTicks(e) == CounterMask2 - 1 + e.diff + e.current
    ensures Offset(NextTicks(e), e.current) == CounterMask2 - 1 + e.diff
    ensures -1 <= NextTicks(e) < TwoTo16 + TwoTo15
  {
    Int16Of(CounterMask2 - 1 + e.diff, CounterMask2 - 1 + e.diff);
  }

  /**
    The outer loop measured in ticks. Each pass after the first restarts
    `32766 + diff` ticks past the fresh count, while the overshoot `diff` was
    measured against the count before it: a pass ends between
    `32766 + lo` and `32766 + hi` ticks after the previous deadline.
  */
  lemma {:induction false} OuterWaitSpan(times: int, ticks: int32, current: uint16, latches: seq<uint16>,
                                         total: nat, b: int, lo: int, hi: int)
    requires OuterWait(times, ticks, current, latches).Some?
    requires OuterWait(times, ticks, current, latches).value.taken == total
    requires StepsWithin(current, latches[..total], lo, hi)
    requires 0 <= lo && 1 <= hi < TwoTo15 && -1 <= ticks < TwoTo16 + TwoTo15
    requires b == Offset(ticks, current) && -hi <= b
    ensures var n := if times > 0 then times else 0;
      b + 1 + n * (CounterMask2 - 1 + lo) + lo <= Span(current, latches[..total]) <= b + n * (CounterMask2 - 1 + hi) + 2 * hi
    decreases |latches|
  {
    OuterWaitFirst(times, ticks, current, latches);
    var e, s, f := PassSpan(ticks, current, latches, total, b, lo, hi);
    if times > 0 {
      NextTicksBudget(e);
      RestSteps(current, latches, e.taken, total, lo, hi);
      OuterWaitSpan(times - 1, NextTicks(e), e.current, latches[e.taken..], total - e.taken,
                    CounterMask2 - 1 + b - s, lo, hi);
      PassesAdd(times, b, s, f, Span(e.current, latches[e.taken..][..total - e.taken]), lo, hi);
    }
  }

  /** The first deadline, `remainder - 1` ticks past the first count. */
  lemma StartBudget(remainder: int, current: uint16)
    requires 0 <= remainder < CounterMask2
    ensures FirstDeadline(remainder, current) == remainder + current - 1
    ensures Offset(FirstDeadline(remainder, current), current) == remainder - 1
  {
    Int16Of(remainder - 1, remainder - 1);
  }

  /** The outer loop's bounds rewritten against the whole request. */
  lemma SubintervalsAdd(request: int, times: int, remainder: int, span: int, lo: int, hi: int)
    requires 0 <= times && request == times * CounterMask2 + remainder
    requires remainder + times * (CounterMask2 - 1 + lo) + lo <= span
    requires span <= remainder - 1 + times * (CounterMask2 - 1 + hi) + 2 * hi
    ensures request + times * (lo - 1) + lo <= span <= request + times * (hi - 1) + 2 * hi - 1
  {
    assert times * (CounterMask2 - 1 + lo) == times * CounterMask2 + times * (lo - 1);
    assert times * (CounterMask2 - 1 + hi) == times * CounterMask2 + times * (hi - 1);
  }

  /** The outer loop from the first deadline, measured against the whole request. */
  lemma OuterWaitElapsed(request: int, times: int, remainder: int, current: uint16, latches: seq<uint16>,
                         total: nat, lo: int, hi: int)
    requires 0 <= times && 0 <= remainder < CounterMask2 && request == times * CounterMask2 + remainder
    requires OuterWait(times, FirstDeadline(remainder, current), current, latches).Some?
    requires OuterWait(times, FirstDeadline(remainder, current), current, latches).value.taken == total
    requires StepsWithin(current, latches[..total], lo, hi)
    requires 0 <= lo && 1 <= hi < TwoTo15
    ensures request + times * (lo - 1) + lo <= Span(current, latches[..total])
    ensures Span(current, latches[..total]) <= request + times * (hi - 1) + 2 * hi - 1
  {
    StartBudget(remainder, current);
    OuterWaitSpan(times, FirstDeadline(remainder, current), current, latches, total, remainder - 1, lo, hi);
    SubintervalsAdd(request, times, remainder, Span(current, latches[..total]), lo, hi);
  }

  /**
    The reads `latched` of the outer loop last as `OuterWaitSpan` bounds
    them, for every pair of bounds on the ticks a read advances.
  */
  ghost predicate SubintervalBounds(times: int, ticks: int32, current: uint16, latched: seq<uint16>)
  {
    var b, n := Offset(ticks, current), if times > 0 then times else 0;
    forall lo, hi | 0 <= lo && 1 <= hi < TwoTo15 && -1 <= ticks < TwoTo16 + TwoTo15 && -hi <= b
                    && StepsWithin(current, latched, lo, hi) ::
      b + 1 + n * (CounterMask2 - 1 + lo) + lo <= Span(current, latched) <= b + n * (CounterMask2 - 1 + hi) + 2 * hi
  }

  /** `OuterWaitSpan` for every pair of bounds at once, over the reads of the outer loop. */
  lemma OuterWaitElapsedAll(times: int, ticks: int32, current: uint16, all: seq<uint16>, from: nat, to: nat)
    requires from <= to <= |all|
    requires OuterWait(times, ticks, current, all[from..]).Some?
    requires OuterWait(times, ticks, current, all[from..]).value.taken == to - from
    ensures SubintervalBounds(times, ticks, current, all[from..to])
  {
    var latches, total := all[from..], to - from;
    assert latches[..total] == all[from..to];
    forall lo, hi | 0 <= lo && 1 <= hi < TwoTo15 && -1 <= ticks < TwoTo16 + TwoTo15 && -hi <= Offset(ticks, current)
                    && StepsWithin(current, latches[..total], lo, hi)
      ensures var n := if times > 0 then times else 0;
        Offset(ticks, current) + 1 + n * (CounterMask2 - 1 + lo) + lo <= Span(current, latches[..total])
        <= Offset(ticks, current) + n * (CounterMask2 - 1 + hi) + 2 * hi
    {
      OuterWaitSpan(times, ticks, current, latches, total, Offset(ticks, current), lo, hi);
    }
  }

  /**
    The channel-2 ticks from the first count to the last read of
    `PITClkWait(Delay)`, with every read advancing between `lo` and `hi`
    ticks: at least `Delay/3 + times * (lo - 1) + lo` and at most
    `Delay/3 + times * (hi - 1) + 2 * hi - 1`, where `Delay/3` is the
    converted `uint32_t` request. Only reads of exactly one tick give the
    request plus one tick; faster reads end early and slower ones drift late
    by a tick per subinterval for every tick a read takes beyond one.
  */
  lemma PitWaitElapsed(delay: int32, latches: seq<uint16>, lo: int, hi: int)
    requires PitWaitReads(delay, latches).Some?
    requires StepsWithin(PitCount(latches[0]), latches[1..PitWaitReads(delay, latches).value.taken], lo, hi)
    requires 0 <= lo && 1 <= hi < TwoTo15
    ensures var request, times := ToUint32(CDiv(delay, 3)), PitSplit(delay).0;
      var span := Span(PitCount(latches[0]), latches[1..PitWaitReads(delay, latches).value.taken]);
      request + times * (lo - 1) + lo <= span <= request + times * (hi - 1) + 2 * hi - 1
  {
    PitWaitStart(delay, latches, latches[1..]);
    var total := PitWaitReads(delay, latches).value.taken - 1;
    assert latches[1..][..total] == latches[1..total + 1];
    OuterWaitElapsed(ToUint32(CDiv(delay, 3)), PitSplit(delay).0, PitSplit(delay).1, PitCount(latches[0]),
                     latches[1..], total, lo, hi);
  }

  /**
    The reads `latched` of one `PITClkWait(Delay)` last as `PitWaitElapsed`
    bounds them, for every pair of bounds on the ticks a read advances.
  */
  ghost predicate WaitBounds(delay: int32, latched: seq<uint16>)
  {
    && latched != []
    && forall lo, hi | 0 <= lo && 1 <= hi < TwoTo15 && StepsWithin(PitCount(latched[0]), latched[1..], lo, hi) ::
         && ToUint32(CDiv(delay, 3)) + PitSplit(delay).0 * (lo - 1) + lo <= Span(PitCount(latched[0]), latched[1..])
         && Span(PitCount(latched[0]), latched[1..]) <= ToUint32(CDiv(delay, 3)) + PitSplit(delay).0 * (hi - 1) + 2 * hi - 1
  }

  /** `PitWaitElapsed` for every pair of bounds at once, over the reads of the wait. */
  lemma PitWaitElapsedAll(delay: int32, all: seq<uint16>, from: nat, to: nat)
    requires from <= to <= |all|
    requires PitWaitReads(delay, all[from..]).Some? && PitWaitReads(delay, all[from..]).value.taken == to - from
    ensures WaitBounds(delay, all[from..to])
  {
    var latches, total := all[from..], to - from;
    var latched := latches[..total];
    assert latched == all[from..to];
    PitWaitStart(delay, latches, latches[1..]);
    assert latched[1..] == latches[1..total];
    forall lo, hi | 0 <= lo && 1 <= hi < TwoTo15 && StepsWithin(PitCount(latched[0]), latched[1..], lo, hi)
      ensures ToUint32(CDiv(delay, 3)) + PitSplit(delay).0 * (lo - 1) + lo <= Span(PitCount(latched[0]), latched[1..])
      ensures Span(PitCount(latched[0]), latched[1..]) <= ToUint32(CDiv(delay, 3)) + PitSplit(delay).0 * (hi - 1) + 2 * hi - 1
    {
      PitWaitElapsed(delay, latches, lo, hi);
    }
  }

  /** With reads of exactly one tick the wait lasts the request plus one tick. */
  lemma PitWaitOneTickPerRead(delay: int32, latches: seq<uint16>)
    requires PitWaitReads(delay, latches).Some?
    requires StepsWithin(PitCount(latches[0]), latches[1..PitWaitReads(delay, latches).value.taken], 1, 1)
    ensures Span(PitCount(latches[0]), latches[1..PitWaitReads(delay, latches).value.taken])
      == ToUint32(CDiv(delay, 3)) + 1
  {
    PitWaitElapsed(delay, latches, 1, 1);
  }

  /**
    Reads that repeat a count end the wait early: `PITClkWait(98301)` asks
    for 32767 ticks (one whole subinterval, no remainder), but with the
    counts 0, 0, 32766, 32766 it returns after 32766.
  */
  lemma PitWaitEndsEarly()
    ensures PitWaitReads(98301, [0xFFFF, 0xFFFF, 0x8001, 0x8001]) == Some(PitRun(2, 4))
    ensures ToUint32(CDiv(98301, 3)) == 32767
    ensures Span(PitCount(0xFFFF), [0xFFFF, 0x8001, 0x8001]) == 32766
  {
    var latches: seq<uint16> := [0xFFFF, 0xFFFF, 0x8001, 0x8001];
    assert PitSplit(98301) == (1, 0);
    assert PitCount(0xFFFF) == 0 && PitCount(0x8001) == 32766;
    var e := InnerWait(-1, 0, latches[1..]).value;
    assert e == PitExit(-1, 0, 1);
    assert NextTicks(e) == 32765;
    assert latches[1..][1..] == [0x8001, 0x8001];
    assert InnerWait(32765, 0, [0x8001, 0x8001]) == Some(PitExit(-1, 32766, 2));
    assert OuterWait(0, 32765, 0, [0x8001, 0x8001]) == Some(PitRun(1, 2));
  }

  // ---------------------------------------------------------------------------
  // The wait with the deadline carried from the count the exit test used
  // ---------------------------------------------------------------------------

  /**
    The next deadline counted from the count the exit test used:
    `COUNTER_MASK2 + diff + tested`, a whole subinterval after the deadline
    just passed.
  */
  function CorrectedNextTicks(e: PitExit, tested: uint16): int32
  {
    ToInt32(CounterMask2 + e.diff + tested)
  }

  /** The corrected deadline as an offset from the fresh count, `g` ticks past the count the exit test used. */
  lemma CorrectedNextTicksBudget(e: PitExit, tested: uint16, g: int, budget: int, next: int32)
    requires -TwoTo15 <= e.diff < 0 && g == Forward16(tested, e.current)
    requires budget == CounterMask2 + e.diff - g && -TwoTo15 <= budget
    requires next == CorrectedNextTicks(e, tested)
    ensures -1 <= next < TwoTo16 + TwoTo15
    ensures Offset(next, e.current) == budget
  {
    var next := CounterMask2 + e.diff + tested;
    Int16Of(next - tested, CounterMask2 + e.diff);
    NextBudget(next, tested, e.current, CounterMask2 + e.diff, g);
  }

  /** The outer loop with each deadline carried from the count the exit test used. */
  function CorrectedOuterWait(times: int, ticks: int32, current: uint16, latches: seq<uint16>): (r: Option<PitRun>)
    ensures r.Some? ==> r.value.passes == (if times > 0 then times + 1 else 1)
    ensures r.Some? ==> r.value.taken <= |latches|
    decreases |latches|
  {
    match InnerWait(ticks, current, latches)
    case None => None
    case Some(e) =>
      if times > 0 then
        var tested := Tested(current, latches, e.taken - 1);
        match CorrectedOuterWait(times - 1, CorrectedNextTicks(e, tested), e.current, latches[e.taken..])
        case None => None
        case Some(run) => Some(PitRun(run.passes + 1, run.taken + e.taken))
      else Some(PitRun(1, e.taken))
  }

  /** All reads of the wait with the corrected carry; it starts as `PITClkWait` does. */
  function CorrectedPitWait(delay: int32, latches: seq<uint16>): (r: Option<PitRun>)
    ensures r.Some? ==> r.value.taken <= |latches|
    ensures r.Some? ==> r.value.passes == PitSplit(delay).0 + 1
  {
    if latches == [] then None
    else
      var split := PitSplit(delay);
      var current := PitCount(latches[0]);
      match CorrectedOuterWait(split.0, FirstDeadline(split.1, current), current, latches[1..])
      case None => None
      case Some(run) => Some(run.(taken := run.taken + 1))
  }

  /** The first pass of the corrected outer loop, and the reads the rest take after it. */
  lemma CorrectedOuterWaitFirst(times: int, ticks: int32, current: uint16, latches: seq<uint16>)
    requires CorrectedOuterWait(times, ticks, current, latches).Some?
    ensures InnerWait(ticks, current, latches).Some?
    ensures var e := InnerWait(ticks, current, latches).value;
      var next := CorrectedNextTicks(e, Tested(current, latches, e.taken - 1));
      var total := CorrectedOuterWait(times, ticks, current, latches).value.taken;
      && e.taken <= total
      && (times <= 0 ==> total == e.taken)
      && (times > 0 ==> CorrectedOuterWait(times - 1, next, e.current, latches[e.taken..]).Some?
                        && CorrectedOuterWait(times - 1, next, e.current, latches[e.taken..]).value.taken == total - e.taken)
  {
  }

  /** The reads of the corrected wait are the count read first and then those of its outer loop. */
  lemma CorrectedPitWaitStart(delay: int32, latches: seq<uint16>, rest: seq<uint16>)
    requires latches != [] && rest == latches[1..]
    ensures var split, current := PitSplit(delay), PitCount(latches[0]);
      var run := CorrectedOuterWait(split.0, FirstDeadline(split.1, current), current, rest);
      && (CorrectedPitWait(delay, latches).Some? <==> run.Some?)
      && (run.Some? ==> CorrectedPitWait(delay, latches).value.taken == run.value.taken + 1)
  {
  }

  /** The corrected outer loop after its first pass. */
  lemma CorrectedOuterWaitNext(times: int, ticks: int32, current: uint16, latches: seq<uint16>,
                               e: PitExit, tested: uint16, next: int32)
    requires times > 0 && CorrectedOuterWait(times, ticks, current, latches).Some?
    requires InnerWait(ticks, current, latches) == Some(e) && 1 <= e.taken
    requires tested == Tested(current, latches, e.taken - 1) && next == CorrectedNextTicks(e, tested)
    ensures CorrectedOuterWait(times - 1, next, e.current, latches[e.taken..]).Some?
    ensures CorrectedOuterWait(times, ticks, current, latches).value.taken
      == e.taken + CorrectedOuterWait(times - 1, next, e.current, latches[e.taken..]).value.taken
  {
  }

  /** The deadline the corrected loop carries into its next pass, as an offset from the fresh count. */
  lemma CorrectedPassNext(times: int, ticks: int32, current: uint16, latches: seq<uint16>, total: nat,
                          b: int, e: PitExit, s: int, f: int)
      returns (next: int32)
    requires times > 0 && CorrectedOuterWait(times, ticks, current, latches).Some?
    requires CorrectedOuterWait(times, ticks, current, latches).value.taken == total
    requires InnerWait(ticks, current, latches) == Some(e) && 1 <= e.taken
    requires e.diff == b - s && -TwoTo15 < e.diff < 0 && 0 <= f - s < TwoTo15
    requires f - s == Forward16(Tested(current, latches, e.taken - 1), e.current)
    ensures CorrectedOuterWait(times - 1, next, e.current, latches[e.taken..]).Some?
    ensures CorrectedOuterWait(times - 1, next, e.current, latches[e.taken..]).value.taken == total - e.taken
    ensures -1 <= next < TwoTo16 + TwoTo15 && Offset(next, e.current) == CounterMask2 + b - f
  {
    var tested := Tested(current, latches, e.taken - 1);
    next := CorrectedNextTicks(e, tested);
    CorrectedOuterWaitNext(times, ticks, current, latches, e, tested, next);
    CorrectedNextTicksBudget(e, tested, f - s, CounterMask2 + b - f, next);
  }

  /**
    The corrected outer loop measured in ticks: every deadline lies exactly
    32767 ticks after the previous one, so the overshoot does not build up.
  */
  lemma {:induction false} CorrectedOuterWaitSpan(times: int, ticks: int32, current: uint16, latches: seq<uint16>,
                                                  total: nat, b: int, lo: int, hi: int)
    requires CorrectedOuterWait(times, ticks, current, latches).Some?
    requires CorrectedOuterWait(times, ticks, current, latches).value.taken == total
    requires StepsWithin(current, latches[..total], lo, hi)
    requires 0 <= lo && 1 <= hi < TwoTo15 && -1 <= ticks < TwoTo16 + TwoTo15
    requires b == Offset(ticks, current) && -hi <= b
    ensures var n := if times > 0 then times else 0;
      b + 1 + n * CounterMask2 + lo <= Span(current, latches[..total]) <= b + n * CounterMask2 + 2 * hi
    decreases |latches|, 1
  {
    if times > 0 {
      CorrectedOuterWaitSpanMore(times, ticks, current, latches, total, b, lo, hi);
    } else {
      CorrectedOuterWaitFirst(times, ticks, current, latches);
      var e, s, f := PassSpan(ticks, current, latches, total, b, lo, hi);
    }
  }

  /** `CorrectedOuterWaitSpan` when at least one more pass follows the first. */
  lemma {:induction false} CorrectedOuterWaitSpanMore(times: int, ticks: int32, current: uint16, latches: seq<uint16>,
                                                      total: nat, b: int, lo: int, hi: int)
    requires times > 0 && CorrectedOuterWait(times, ticks, current, latches).Some?
    requires CorrectedOuterWait(times, ticks, current, latches).value.taken == total
    requires StepsWithin(current, latches[..total], lo, hi)
    requires 0 <= lo && 1 <= hi < TwoTo15 && -1 <= ticks < TwoTo16 + TwoTo15
    requires b == Offset(ticks, current) && -hi <= b
    ensures b + 1 + times * CounterMask2 + lo <= Span(current, latches[..total]) <= b + times * CounterMask2 + 2 * hi
    decreases |latches|, 0
  {
    CorrectedOuterWaitFirst(times, ticks, current, latches);
    var e, s, f := PassSpan(ticks, current, latches, total, b, lo, hi);
    var next := CorrectedPassNext(times, ticks, current, latches, total, b, e, s, f);
    var rest := latches[e.taken..];
    RestSteps(current, latches, e.taken, total, lo, hi);
    CorrectedOuterWaitSpan(times - 1, next, e.current, rest, total - e.taken, CounterMask2 + b - f, lo, hi);
  }

  /** The corrected outer loop from the first deadline, measured against the whole request. */
  lemma CorrectedOuterWaitElapsed(request: int, times: int, remainder: int, current: uint16, latches: seq<uint16>,
                                  total: nat, lo: int, hi: int)
    requires 0 <= times && 0 <= remainder < CounterMask2 && request == times * CounterMask2 + remainder
    requires CorrectedOuterWait(times, FirstDeadline(remainder, current), current, latches).Some?
    requires CorrectedOuterWait(times, FirstDeadline(remainder, current), current, latches).value.taken == total
    requires StepsWithin(current, latches[..total], lo, hi)
    requires 0 <= lo && 1 <= hi < TwoTo15
    ensures request + lo <= Span(current, latches[..total]) <= request + 2 * hi - 1
  {
    StartBudget(remainder, current);
    CorrectedOuterWaitSpan(times, FirstDeadline(remainder, current), current, latches, total, remainder - 1, lo, hi);
  }

  /**
    With the deadline carried from the count the exit test used the wait lasts at least
    the request `Delay/3` whatever the reads' speed, and overshoots it by
    less than two reads however many subintervals it takes.
  */
  lemma CorrectedPitWaitElapsed(delay: int32, latches: seq<uint16>, lo: int, hi: int)
    requires CorrectedPitWait(delay, latches).Some?
    requires StepsWithin(PitCount(latches[0]), latches[1..CorrectedPitWait(delay, latches).value.taken], lo, hi)
    requires 0 <= lo && 1 <= hi < TwoTo15
    ensures var request := ToUint32(CDiv(delay, 3));
      var span := Span(PitCount(latches[0]), latches[1..CorrectedPitWait(delay, latches).value.taken]);
      request + lo <= span <= request + 2 * hi - 1
  {
    CorrectedPitWaitStart(delay, latches, latches[1..]);
    var total := CorrectedPitWait(delay, latches).value.taken - 1;
    assert latches[1..][..total] == latches[1..total + 1];
    CorrectedOuterWaitElapsed(ToUint32(CDiv(delay, 3)), PitSplit(delay).0, PitSplit(delay).1, PitCount(latches[0]),
                              latches[1..], total, lo, hi);
  }

  // ---------------------------------------------------------------------------
  // _osifIbmAtGetTscPer62799
  // ---------------------------------------------------------------------------

  /** The calibration length in channel-2 ticks. */
  const CalibrationTicks: int := 62799
  /** Polling goes on while the raw count is above `65535 - 62799`. */
  const PollLimit: int := 0xFFFF - CalibrationTicks

  /**
    The polling `do ... while (*pwCount > 65535 - 62799)`: how many counts are
    latched until the first one at or below the limit. None: the trace ran out.
  */
  function PollReads(latches: seq<uint16>): (r: Option<nat>)
    ensures r.Some? ==> 1 <= r.value <= |latches| && latches[r.value - 1] <= PollLimit
    decreases |latches|
  {
    if latches == [] then None
    else if latches[0] <= PollLimit then Some(1)
    else
      match PollReads(latches[1..])
      case None => None
      case Some(n) => Some(n + 1)
  }

  /** Polling stops at the first count at or below the limit: every earlier count is above it. */
  lemma {:induction false} PollReadsFirst(latches: seq<uint16>)
    requires PollReads(latches).Some?
    ensures forall j | 0 <= j < PollReads(latches).value - 1 :: latches[j] > PollLimit
    decreases |latches|
  {
    if latches[0] > PollLimit {
      PollReadsFirst(latches[1..]);
    }
  }

  /** `65535 - *pwCount`: the ticks that went by, at least the 62799 waited for. */
  function ElapsedTicks(raw: uint16): (n: int)
    requires raw <= PollLimit
    ensures CalibrationTicks <= n <= CounterMask
  {
    CounterMask - raw
  }

  /**
    `wCountDrift`: the ticks past 62799, less 22 when there are more than 22.
    It never exceeds the excess and is never negative.
  */
  function DriftTicks(raw: uint16): (d: int)
    requires raw <= PollLimit
    ensures 0 <= d <= ElapsedTicks(raw) - CalibrationTicks
  {
    var drift := ToUint16(ElapsedTicks(raw) - CalibrationTicks);
    if drift > 22 then drift - 22 else drift
  }

  /**
    The drift adjustment is not monotone: an excess of 22 ticks is kept as 22,
    while an excess of 23 ticks counts as 1.
  */
  lemma DriftTicksNotMonotone()
    ensures DriftTicks(PollLimit - 22) == 22
    ensures DriftTicks(PollLimit - 23) == 1
  {
  }

  /**
    The calibrated count: the time-stamp difference less `wCountDrift` times
    the cycles per tick. It stays within `[0, tscDiff]`, and what it removes is
    at most the drift's proportional share `tscDiff * drift / elapsed`.
  */
  function TscPer62799(tscDiff: nat, raw: uint16): (r: int)
    requires raw <= PollLimit
    ensures 0 <= r <= tscDiff
    ensures (tscDiff - r) * ElapsedTicks(raw) <= tscDiff * DriftTicks(raw)
  {
    var n := ElapsedTicks(raw);
    var d := DriftTicks(raw);
    var perTick := tscDiff / n;
    DivBounds(tscDiff, n);
    ScaledShare(d, n, perTick, tscDiff);
    tscDiff - d * perTick
  }

  /** `d <= n` and `n * q <= t` give `d * q <= t` and `d * q * n <= t * d`. */
  lemma ScaledShare(d: nat, n: nat, q: nat, t: nat)
    requires d <= n && n * q <= t
    ensures d * q <= t
    ensures d * q * n <= t * d
  {
    assert d * q <= n * q;
    assert d * q * n == d * (n * q);
    assert d * (n * q) <= d * t;
  }

  /** The polling loop of `_osifIbmAtGetTscPer62799`: latch until the count is at or below the limit. */
  method PollCalibration(m: Machine) returns (raw: uint16)
    requires m.pitPos <= |m.pitLatch|
    requires PollReads(m.pitLatch[m.pitPos..]).Some?
    modifies m`pitPos
    ensures var n := PollReads(m.pitLatch[old(m.pitPos)..]).value;
      m.pitPos == old(m.pitPos) + n && raw == m.pitLatch[old(m.pitPos) + n - 1]
  {
    ghost var start := m.pitPos;
    ghost var n := PollReads(m.pitLatch[start..]).value;
    ghost var left;
    raw, left := PollOnce(m, n);
    while raw > PollLimit
      invariant start < m.pitPos <= |m.pitLatch| && raw == m.pitLatch[m.pitPos - 1]
      invariant raw > PollLimit ==> m.pitPos + left == start + n && PollReads(m.pitLatch[m.pitPos..]) == Some(left)
      invariant raw <= PollLimit ==> m.pitPos == start + n
      decreases |m.pitLatch| - m.pitPos
    {
      raw, left := PollOnce(m, left);
    }
  }

  /** One pass of the polling `do` body, stated against the reads polling has left to take. */
  method PollOnce(m: Machine, ghost left: nat) returns (raw: uint16, ghost leftAfter: nat)
    requires m.pitPos <= |m.pitLatch| && PollReads(m.pitLatch[m.pitPos..]) == Some(left)
    modifies m`pitPos
    ensures m.pitPos == old(m.pitPos) + 1 <= |m.pitLatch| && raw == m.pitLatch[old(m.pitPos)]
    ensures raw <= PollLimit ==> left == 1
    ensures raw > PollLimit ==> leftAfter + 1 == left && PollReads(m.pitLatch[m.pitPos..]) == Some(leftAfter)
  {
    assert m.pitLatch[m.pitPos..][1..] == m.pitLatch[m.pitPos + 1..];
    raw := m.ReadPitLatch();
    leftAfter := left - 1;
  }

  /**
    `_osifIbmAtGetTscPer62799(delay)`: with interrupts masked, poll channel 2
    until 62799 ticks have gone by and return the time-stamp difference with
    the drift subtracted. The `delay` argument is not used.
  */
  method GetTscPer62799(m: Machine, delay: uint32) returns (r: int)
    requires m.pitPos <= |m.pitLatch|
    requires PollReads(m.pitLatch[m.pitPos..]).Some?
    requires m.tscPos + 2 <= |m.tsc|
    modifies m`pitPos, m`tscPos, m`interruptsEnabled
    ensures m.interruptsEnabled == old(m.interruptsEnabled)
    ensures var n := PollReads(m.pitLatch[old(m.pitPos)..]).value;
      && m.pitPos == old(m.pitPos) + n
      && m.tscPos == old(m.tscPos) + 2
      && r == TscPer62799(m.tsc[old(m.tscPos) + 1] - m.tsc[old(m.tscPos)], m.pitLatch[old(m.pitPos) + n - 1])
  {
    var savedInterrupts := m.interruptsEnabled;   // bit 0x200 of the saved EFLAGS
    m.Disable();
    var tscStart := m.ReadTsc();

    var raw := PollCalibration(m);

    var tscEnd := m.ReadTsc();
    r := TscPer62799(tscEnd - tscStart, raw);
    if savedInterrupts {
      m.Enable();
    }
  }
}
