/**
  The ACPI PM timer waits of AcpiClkWait.c.

  `AcpiClkWait` is the frequency estimator: it counts a signed number of
  ticks remaining down by the 16-bit wraparound-safe delta of successive
  timer reads, then rescales the elapsed time-stamp counter cycles by
  Delay / (Delay - count) to cancel the overshoot. `InternalAcpiDelay` is the
  plain delay: the request is split into a remainder and whole 2^22-tick
  windows, and each window waits until bit 23 of (target - timer) is set.
*/
module AcpiClk {
  import opened Bits
  import opened Wrappers
  import opened Platform

  /** `gCOUNTER_WIDTH`: the PM timer is taken to be 24 bits wide. */
  const CounterWidth: nat := 24
  /** `1 << (gCOUNTER_WIDTH - 2)`: the length of one whole window. */
  const Bit22: int := 0x40_0000
  /** `1 << (gCOUNTER_WIDTH - 1)`: the sign bit of a 24-bit difference. */
  const Bit23: int := 0x80_0000
  const TwoTo24: int := 0x100_0000
  /** The ACPI PM timer ticks the program counts per second: 3 * 1193181. */
  const AcpiTicksPerSecond: int := 3579543

  // ---------------------------------------------------------------------------
  // Wraparound arithmetic on the low 16 bits of the PM timer
  // ---------------------------------------------------------------------------

  /** `(uint16_t)GetACPICount(...)`: the 24-bit timer value truncated to 16 bits. */
  function Low16(raw: uint32): uint16
  {
    raw % TwoTo16
  }

  /**
    The delta of one poll: `current - previous` when the timer did not pass
    2^16 between the reads, otherwise `~(previous - current) + 1` stored in a
    `uint16_t`. Both branches give the forward distance, and advancing
    `previous` by it reaches `current`.
  */
  function Delta16(previous: uint16, current: uint16): (d: uint16)
    ensures d == Forward16(previous, current)
    ensures (previous + d) % TwoTo16 == current
  {
    if current >= previous then current - previous
    else ToUint16(BitNot(previous - current) + 1)
  }

  /** The ticks that elapse over a run of reads: the sum of their 16-bit deltas. */
  function Elapsed(previous: uint16, readings: seq<uint32>): nat
    decreases |readings|
  {
    if readings == [] then 0
    else Forward16(previous, Low16(readings[0])) + Elapsed(Low16(readings[0]), readings[1..])
  }

  // ---------------------------------------------------------------------------
  // The countdown loop of AcpiClkWait
  // ---------------------------------------------------------------------------

  /** Where the countdown stops: the ticks still remaining (zero or negative) and the reads it took. */
  datatype Poll = Poll(remaining: int, taken: nat)

  /**
    The `while (count > 0)` loop: each read subtracts its delta from `count`.
    None when the readings run out while ticks remain.
  */
  function CountDown(count: int, previous: uint16, readings: seq<uint32>): (r: Option<Poll>)
    ensures r.Some? ==> r.value.taken <= |readings|
    ensures r.Some? ==> r.value.remaining <= 0 && (count > 0 ==> r.value.taken >= 1)
    decreases |readings|
  {
    if count <= 0 then Some(Poll(count, 0))
    else if readings == [] then None
    else
      var current := Low16(readings[0]);
      match CountDown(count - Forward16(previous, current), current, readings[1..])
      case None => None
      case Some(p) => Some(Poll(p.remaining, p.taken + 1))
  }

  /**
    The reads of one `AcpiClkWait` call: a discarded read, the read that seeds
    `previous`, then the countdown.
  */
  function AcpiWaitPoll(delay: int, readings: seq<uint32>): (r: Option<Poll>)
    ensures r.Some? ==> 2 + r.value.taken <= |readings| && r.value.remaining <= 0
  {
    if |readings| < 2 then None
    else CountDown(delay, Low16(readings[1]), readings[2..])
  }

  /**
    A positive request stops with at most zero ticks remaining, and the
    overshoot `-remaining` is below the largest possible delta 2^16 - 1:
    the correction's denominator `Delay - count` is never zero.
  */
  lemma {:induction false} CountDownOvershoot(count: int, previous: uint16, readings: seq<uint32>)
    requires count > 0 && CountDown(count, previous, readings).Some?
    ensures var p := CountDown(count, previous, readings).value;
      p.taken >= 1 && -(TwoTo16 - 1) < p.remaining <= 0 && count - p.remaining >= count
    decreases |readings|
  {
    var current := Low16(readings[0]);
    var next := count - Forward16(previous, current);
    if next > 0 {
      CountDownOvershoot(next, current, readings[1..]);
    }
  }

  /** A request that is not positive skips the loop: `count` stays at `Delay`. */
  lemma CountDownSkipped(count: int, previous: uint16, readings: seq<uint32>)
    requires count <= 0
    ensures CountDown(count, previous, readings) == Some(Poll(count, 0))
  {
  }

  /**
    The countdown stops at the first read at which the elapsed ticks reach
    the request: `remaining` is the request minus the ticks elapsed over the
    reads taken, and every shorter run of reads had elapsed fewer ticks.
  */
  lemma {:induction false} CountDownStopsFirst(count: int, previous: uint16, readings: seq<uint32>)
    requires CountDown(count, previous, readings).Some?
    ensures var p := CountDown(count, previous, readings).value;
      && p.remaining == count - Elapsed(previous, readings[..p.taken])
      && forall k | 0 <= k < p.taken :: Elapsed(previous, readings[..k]) < count
    decreases |readings|
  {
    var p := CountDown(count, previous, readings).value;
    if count <= 0 {
      assert readings[..0] == [];
    } else {
      var current := Low16(readings[0]);
      var d := Forward16(previous, current);
      var q := CountDown(count - d, current, readings[1..]).value;
      CountDownStopsFirst(count - d, current, readings[1..]);
      assert readings[..p.taken][1..] == readings[1..][..q.taken];
      forall k | 0 <= k < p.taken
        ensures Elapsed(previous, readings[..k]) < count
      {
        if k == 0 {
          assert readings[..k] == [];
        } else {
          assert readings[..k][1..] == readings[1..][..k - 1];
        }
      }
    }
  }

  /** A trace over which at least `count` ticks elapse lets the countdown finish. */
  lemma {:induction false} CountDownFinishes(count: int, previous: uint16, readings: seq<uint32>)
    requires Elapsed(previous, readings) >= count
    ensures CountDown(count, previous, readings).Some?
    decreases |readings|
  {
    if count > 0 {
      var current := Low16(readings[0]);
      CountDownFinishes(count - Forward16(previous, current), current, readings[1..]);
    }
  }

  // ---------------------------------------------------------------------------
  // The ratio correction
  // ---------------------------------------------------------------------------

  /**
    The correction of `AcpiClkWait` with the product computed exactly: with `gfErrorCorrection == 1`
    the cycles are rescaled to exactly `delay` ticks, otherwise returned raw.
  */
  function CorrectedCycles(tscDiff: int, delay: int, remaining: int, errorCorrection: int): (r: int)
    requires errorCorrection == 1 ==> delay - remaining != 0
    ensures errorCorrection != 1 ==> r == tscDiff
    ensures errorCorrection == 1 ==> Abs(tscDiff * delay - (delay - remaining) * r) < Abs(delay - remaining)
    ensures errorCorrection == 1 && tscDiff * delay >= 0 ==> 0 <= (delay - remaining) * r <= tscDiff * delay
    ensures errorCorrection == 1 && tscDiff * delay <= 0 ==> tscDiff * delay <= (delay - remaining) * r <= 0
  {
    if errorCorrection == 1 then CDivTruncates(tscDiff * delay, delay - remaining);
    CDiv(tscDiff * delay, delay - remaining) else tscDiff
  }

  /** The correction as written: the product `(qwTSCEnd - qwTSCStart) * Delay` is an `int64_t`. */
  function CorrectedCyclesInt64(tscDiff: int, delay: int, remaining: int): (r: int)
    requires delay - remaining != 0
    ensures Abs(ToInt64(tscDiff * delay) - (delay - remaining) * r) < Abs(delay - remaining)
    ensures ToInt64(tscDiff * delay) >= 0 ==> 0 <= (delay - remaining) * r <= ToInt64(tscDiff * delay)
    ensures ToInt64(tscDiff * delay) <= 0 ==> ToInt64(tscDiff * delay) <= (delay - remaining) * r <= 0
  {
    CDivTruncates(ToInt64(tscDiff * delay), delay - remaining);
    CDiv(ToInt64(tscDiff * delay), delay - remaining)
  }

  /** Without overshoot the correction changes nothing. */
  lemma NoOvershootNoCorrection(tscDiff: int, delay: int, errorCorrection: int)
    requires delay != 0
    ensures CorrectedCycles(tscDiff, delay, 0, errorCorrection) == tscDiff
  {
    if errorCorrection == 1 {
      var q := CDiv(tscDiff * delay, delay);
      CDivTruncates(tscDiff * delay, delay);
      MultipleWithinDivisor(tscDiff, q, delay);
    }
  }

  /** If |a·b - b·q| < |b| then q == a. */
  lemma MultipleWithinDivisor(a: int, q: int, b: int)
    requires b != 0 && Abs(a * b - b * q) < Abs(b)
    ensures q == a
  {
    assert a * b - b * q == b * (a - q);
    assert Abs(b * (a - q)) == Abs(b) * Abs(a - q);
    ProductAtLeast(Abs(b), Abs(a - q), 1);
  }

  /** Multiplying by a positive factor keeps order. */
  lemma ProductAtLeast(x: int, y: int, z: int)
    ensures x > 0 && y >= z ==> x * y >= x * z
  {
    if x > 0 && y >= z {
      assert x * y - x * z == x * (y - z);
    }
  }

  /**
    For a non-decreasing time-stamp counter and a positive request the
    corrected count lies between zero and the raw difference; it is the
    number of cycles that `delay` ticks take at the measured rate
    `tscDiff / (delay - remaining)`, rounded down.
  */
  lemma CorrectionBounds(tscDiff: int, delay: int, remaining: int, errorCorrection: int)
    requires tscDiff >= 0 && delay > 0 && remaining <= 0
    ensures var r := CorrectedCycles(tscDiff, delay, remaining, errorCorrection);
      && 0 <= r <= tscDiff
      && (errorCorrection != 1 ==> r == tscDiff)
      && (errorCorrection == 1 ==> r * (delay - remaining) <= tscDiff * delay < (r + 1) * (delay - remaining))
  {
    if errorCorrection == 1 {
      var n, e := delay - remaining, tscDiff * delay;
      var r := CDiv(e, n);
      CDivNonNegative(e, n);
      DivBounds(e, n);
      assert r * n <= e < (r + 1) * n;
      assert e <= tscDiff * n by {
        assert tscDiff * n == tscDiff * delay + tscDiff * (-remaining);
      }
      ProductAtLeast(n, r, tscDiff + 1);
    }
  }

  /** Whenever the product fits in 64 bits the code as written gives the exact value. */
  lemma Int64ProductAgrees(tscDiff: int, delay: int, remaining: int)
    requires delay - remaining != 0
    requires -TwoTo63 <= tscDiff * delay < TwoTo63
    ensures CorrectedCyclesInt64(tscDiff, delay, remaining) == CorrectedCycles(tscDiff, delay, remaining, 1)
  {
  }

  /**
    A 30-second ACPI reference on a 3 GHz processor: 9·10^10 cycles times
    30 · 3579543 ticks exceeds 2^63, and the code as written returns a negative
    cycle count where the exact correction returns the cycles measured.
  */
  lemma ThirtySecondReferenceOverflows()
    ensures CorrectedCyclesInt64(90_000_000_000, 30 * AcpiTicksPerSecond, 0) < 0
    ensures CorrectedCycles(90_000_000_000, 30 * AcpiTicksPerSecond, 0, 1) == 90_000_000_000
  {
    NoOvershootNoCorrection(90_000_000_000, 30 * AcpiTicksPerSecond, 1);
  }

  // ---------------------------------------------------------------------------
  // AcpiClkWait
  // ---------------------------------------------------------------------------

  /**
    `AcpiClkWait(Delay)`: wait until `Delay` ticks have elapsed with interrupts
    masked and return the time-stamp counter cycles, corrected for the
    overshoot when `gfErrorCorrection == 1`. The correction divides by
    `Delay - count`, so with the correction on a request must be positive.
  */
  method AcpiClkWait(m: Machine, delay: int32) returns (cycles: int)
    requires m.pmPos <= |m.pmTimer|
    requires AcpiWaitPoll(delay, m.pmTimer[m.pmPos..]).Some?
    requires m.tscPos + 2 <= |m.tsc|
    requires m.errorCorrection == 1 ==> delay > 0
    modifies m`pmPos, m`tscPos, m`interruptsEnabled
    ensures m.interruptsEnabled == old(m.interruptsEnabled)
    ensures var p := AcpiWaitPoll(delay, m.pmTimer[old(m.pmPos)..]).value;
      && m.pmPos == old(m.pmPos) + 2 + p.taken
      && m.tscPos == old(m.tscPos) + 2
      && (m.errorCorrection == 1 ==> delay - p.remaining != 0)
      && cycles == CorrectedCycles(m.tsc[old(m.tscPos) + 1] - m.tsc[old(m.tscPos)], delay, p.remaining, m.errorCorrection)
  {
    var savedInterrupts := m.interruptsEnabled;   // bit 0x200 of the saved EFLAGS
    m.Disable();
    var _ := m.ReadPmTimer();
    var raw := m.ReadPmTimer();
    var previous := Low16(raw);
    var tscStart := m.ReadTsc();
    if delay > 0 {
      CountDownOvershoot(delay, previous, m.pmTimer[m.pmPos..]);
    }
    var count := PollCountDown(m, delay, previous);

    var tscEnd := m.ReadTsc();
    if m.errorCorrection == 1 {
      cycles := CDiv((tscEnd - tscStart) * delay, delay - count);
    } else {
      cycles := tscEnd - tscStart;
    }
    if savedInterrupts {
      m.Enable();
    }
  }

  /**
    The `while (count > 0)` loop of `AcpiClkWait`: reads the timer until the
    ticks counted down reach zero and returns what remains of `count`.
  */
  method PollCountDown(m: Machine, count0: int, previous0: uint16) returns (count: int)
    requires m.pmPos <= |m.pmTimer| && CountDown(count0, previous0, m.pmTimer[m.pmPos..]).Some?
    modifies m`pmPos
    ensures var p := CountDown(count0, previous0, m.pmTimer[old(m.pmPos)..]).value;
      count == p.remaining && m.pmPos == old(m.pmPos) + p.taken
  {
    ghost var start := m.pmPos;
    ghost var final := CountDown(count0, previous0, m.pmTimer[start..]).value;
    count := count0;
    var previous := previous0;
    while count > 0
      invariant start <= m.pmPos <= start + final.taken
      invariant CountDown(count, previous, m.pmTimer[m.pmPos..]) == Some(Poll(final.remaining, final.taken - (m.pmPos - start)))
      decreases |m.pmTimer| - m.pmPos
    {
      assert m.pmTimer[m.pmPos..][1..] == m.pmTimer[m.pmPos + 1..];
      var raw := m.ReadPmTimer();
      var current := Low16(raw);
      var diff := Delta16(previous, current);
      previous := current;
      count := count - diff;
    }
  }

  // ---------------------------------------------------------------------------
  // InternalAcpiDelay
  // ---------------------------------------------------------------------------

  /** The sign of a 24-bit difference: `x` read as a signed 24-bit value. */
  function Signed24(x: int): int
  {
    var v := x % TwoTo24;
    if v >= Bit23 then v - TwoTo24 else v
  }

  /**
    The exit test of the wait loop: bit 23 of the `uint32_t` difference
    `Ticks - current` is set. It holds exactly when the target lies behind
    the timer as a signed 24-bit difference, so a timer that wraps past
    2^24 between target and read is handled.
  */
  predicate DeadlinePassed(ticks: uint32, current: uint32)
    ensures DeadlinePassed(ticks, current) <==> Signed24(ticks - current) < 0
  {
    BelowTwoTo32KeepsLow24(ticks - current);
    Bit23OfLow24(ToUint32(ticks - current));
    ToUint32(ticks - current) / Bit23 % 2 == 1
  }

  lemma BelowTwoTo32KeepsLow24(x: int)
    ensures ToUint32(x) % TwoTo24 == x % TwoTo24
  {
    var q, r := x / 0x1_0000_0000, x % 0x1_0000_0000;
    assert ToUint32(x) == r;
    assert x == q * 0x1_0000_0000 + r;
    assert x == (q * 0x100) * 0x100_0000 + r;
  }

  lemma Bit23OfLow24(q: int)
    requires 0 <= q
    ensures q / Bit23 % 2 == (q % TwoTo24) / Bit23
  {
    var a, v := q / TwoTo24, q % TwoTo24;
    assert q == a * TwoTo24 + v;
    assert q == (2 * a) * Bit23 + v;
    assert q / Bit23 == 2 * a + v / Bit23;
  }

  /** The sum of a sequence of tick counts. */
  function Sum(s: seq<int>): int
  {
    if s == [] then 0 else s[0] + Sum(s[1..])
  }

  /**
    The windows `InternalAcpiDelay` waits, in order: `Delay & (BIT22 - 1)`
    ticks first, then `Delay >> 22` windows of 2^22 ticks. The decomposition
    is exact: there are `(Delay >> 22) + 1` windows, every window after the
    first is 2^22 ticks, and together they are `Delay` ticks.
  */
  function Windows(delay: uint32): (w: seq<int>)
    ensures |w| == delay / Bit22 + 1 && w[0] == delay % Bit22 < Bit22
    ensures forall i | 1 <= i < |w| :: w[i] == Bit22
    ensures Sum(w) == delay
  {
    SumOfRepeats(delay / Bit22);
    assert ([delay % Bit22] + Whole(delay / Bit22))[1..] == Whole(delay / Bit22);
    [delay % Bit22] + Whole(delay / Bit22)
  }

  /** `n` whole windows of 2^22 ticks. */
  function Whole(n: nat): (w: seq<int>)
    ensures |w| == n && forall i | 0 <= i < n :: w[i] == Bit22
  {
    seq(n, _ => Bit22)
  }

  lemma {:induction false} SumOfRepeats(n: nat)
    ensures Sum(Whole(n)) == n * Bit22
  {
    if n > 0 {
      assert Whole(n)[1..] == Whole(n - 1);
      SumOfRepeats(n - 1);
    }
  }

  /** The inner `while` of `InternalAcpiDelay`: the number of reads until one is past `ticks`. */
  function WaitPassed(ticks: uint32, readings: seq<uint32>): (r: Option<nat>)
    ensures r.Some? ==> 1 <= r.value <= |readings|
    decreases |readings|
  {
    if readings == [] then None
    else if DeadlinePassed(ticks, readings[0]) then Some(1)
    else
      match WaitPassed(ticks, readings[1..])
      case None => None
      case Some(k) => Some(k + 1)
  }

  /** The wait ends at the first read that is past the target. */
  lemma {:induction false} WaitPassedFirst(ticks: uint32, readings: seq<uint32>)
    requires WaitPassed(ticks, readings).Some?
    ensures var k := WaitPassed(ticks, readings).value;
      && DeadlinePassed(ticks, readings[k - 1])
      && forall j | 0 <= j < k - 1 :: !DeadlinePassed(ticks, readings[j])
    decreases |readings|
  {
    if !DeadlinePassed(ticks, readings[0]) {
      WaitPassedFirst(ticks, readings[1..]);
    }
  }

  /**
    The reads of one window: one read fixes the target `Ticks = timer + window`
    (modulo 2^32), then the wait reads until the target is passed.
  */
  function WindowReads(window: int, readings: seq<uint32>): (r: Option<nat>)
    ensures r.Some? ==> 2 <= r.value <= |readings|
  {
    if readings == [] then None
    else
      match WaitPassed(ToUint32(readings[0] + window), readings[1..])
      case None => None
      case Some(k) => Some(1 + k)
  }

  /** The reads of the `do ... while (Times-- > 0)` loop for the given windows. */
  function DelayReads(windows: seq<int>, readings: seq<uint32>): (r: Option<nat>)
    ensures r.Some? ==> r.value <= |readings|
    decreases |windows|
  {
    if windows == [] then Some(0)
    else
      match WindowReads(windows[0], readings)
      case None => None
      case Some(k) =>
        match DelayReads(windows[1..], readings[k..])
        case None => None
        case Some(n) => Some(k + n)
  }

  // ---------------------------------------------------------------------------
  // Ticks elapsed over InternalAcpiDelay
  // ---------------------------------------------------------------------------

  /** The ticks a 24-bit timer advances from `previous` to `current`. */
  function Forward24(previous: uint32, current: uint32): nat
  {
    (current - previous) % TwoTo24
  }

  /**
    The ticks a 24-bit timer advances from the first read of `rs` to the last,
    as the sum of the forward distances of successive reads.
  */
  function Span24(rs: seq<uint32>): nat
    decreases |rs|
  {
    if |rs| <= 1 then 0 else Forward24(rs[0], rs[1]) + Span24(rs[1..])
  }

  /** Adding a multiple of 2^24 leaves the residue unchanged. */
  lemma ModShift(x: int, y: int)
    requires y % TwoTo24 == 0
    ensures (x + y) % TwoTo24 == x % TwoTo24
  {
    var q := y / TwoTo24;
    assert y == q * TwoTo24;
    assert x + y == x / TwoTo24 * TwoTo24 + x % TwoTo24 + q * TwoTo24;
    assert x + y == (x / TwoTo24 + q) * TwoTo24 + x % TwoTo24;
  }

  /** The elapsed ticks carry the first read onto the last one, modulo 2^24. */
  lemma {:induction false} Span24Lands(rs: seq<uint32>)
    requires rs != []
    ensures (rs[0] + Span24(rs) - rs[|rs| - 1]) % TwoTo24 == 0
    decreases |rs|
  {
    if |rs| > 1 {
      var rest := rs[1..];
      Span24Lands(rest);
      var f := Forward24(rs[0], rs[1]);
      // rs[0] + f - rs[1] is a multiple of 2^24, and so is rs[1] + Span24(rest) - last
      assert (rs[0] + f - rs[1]) % TwoTo24 == 0 by {
        ModShift(0, rs[0] + f - rs[1]);
        var d := rs[1] as int - rs[0] as int;
        assert d == d / TwoTo24 * TwoTo24 + f;
      }
      var a, b := rs[0] + f - rs[1], rest[0] + Span24(rest) - rest[|rest| - 1];
      assert rs[0] + Span24(rs) - rs[|rs| - 1] == a + b;
      ModShift(a, b);
      ModShift(0, a);
    }
  }

  /** The elapsed ticks of a run split at any read into the ticks before and after it. */
  lemma {:induction false} Span24Split(rs: seq<uint32>, k: nat)
    requires k < |rs|
    ensures Span24(rs) == Span24(rs[..k + 1]) + Span24(rs[k..])
    decreases k
  {
    if k > 0 {
      Span24Split(rs[1..], k - 1);
      assert rs[1..][..k] == rs[..k + 1][1..];
      assert rs[1..][k - 1..] == rs[k..];
    }
  }

  /**
    Whatever the timer does between reads, a window of at most 2^22 ticks
    ends only once its reads have advanced the timer by more than the
    window: were the elapsed ticks `e` at most the window, the target would
    lie `window - e` ticks ahead, below 2^23, and bit 23 of the difference
    would be clear.
  */
  lemma WindowSpan(window: int, readings: seq<uint32>)
    requires 0 <= window <= Bit22 && WindowReads(window, readings).Some?
    ensures Span24(readings[..WindowReads(window, readings).value]) > window
  {
    var k := WindowReads(window, readings).value;
    var ticks := ToUint32(readings[0] + window);
    WaitPassedFirst(ticks, readings[1..]);
    assert DeadlinePassed(ticks, readings[k - 1]);
    var run := readings[..k];
    Span24Lands(run);
    if Span24(run) <= window {
      TargetAhead(readings[0], window, Span24(run), readings[k - 1]);
      assert false;
    }
  }

  /**
    A target `window` ticks past `base`, read `e <= window` ticks after `base`,
    is still ahead: its signed 24-bit difference from the read is not negative.
  */
  lemma TargetAhead(base: int, window: int, e: int, r: int)
    requires 0 <= e <= window <= Bit22 && (base + e - r) % TwoTo24 == 0
    ensures Signed24(ToUint32(base + window) - r) == window - e
  {
    var wrap := ToUint32(base + window) - (base + window);
    WrapKeepsLow24(base + window);
    ModShift(wrap, base + e - r);
    ModShift(0, wrap + (base + e - r));
    ModShift(window - e, wrap + (base + e - r));
  }

  /** Truncating to 32 bits changes a value by a multiple of 2^24. */
  lemma WrapKeepsLow24(x: int)
    ensures (ToUint32(x) - x) % TwoTo24 == 0
  {
    BelowTwoTo32KeepsLow24(x);
    var a := ToUint32(x);
    var k := a / TwoTo24 - x / TwoTo24;
    assert a - x == k * TwoTo24;
  }


  /** A run of reads advances the timer at least as far as the same run without its first read. */
  lemma Span24Tail(rs: seq<uint32>)
    requires rs != []
    ensures Span24(rs) >= Span24(rs[1..])
  {
  }

  /**
    Over the reads of all windows the timer advances by more than each
    window, so by at least the sum of the windows plus one tick per window.
  */
  lemma {:induction false} DelaySpan(windows: seq<int>, readings: seq<uint32>)
    requires forall i | 0 <= i < |windows| :: 0 <= windows[i] <= Bit22
    requires DelayReads(windows, readings).Some?
    ensures Span24(readings[..DelayReads(windows, readings).value]) >= Sum(windows) + |windows|
    decreases |windows|
  {
    if windows != [] {
      var n := DelayReads(windows, readings).value;
      var k := WindowReads(windows[0], readings).value;
      var rest := readings[k..];
      var n' := DelayReads(windows[1..], rest).value;
      WindowSpan(windows[0], readings);
      DelaySpan(windows[1..], rest);
      var run := readings[..n];
      Span24Split(run, k - 1);
      assert run[..k] == readings[..k];
      Span24Tail(run[k - 1..]);
      assert run[k - 1..][1..] == rest[..n'];
    }
  }

  /**
    `InternalAcpiDelay` stalls for at least the requested ticks: from the read
    that fixes the first target to the read that passes the last one, the
    timer advances by more than `Delay`.
  */
  lemma DelayStallsAtLeast(delay: uint32, all: seq<uint32>, from: nat, to: nat)
    requires from <= |all| && DelayReads(Windows(delay), all[from..]).Some?
    requires to == from + DelayReads(Windows(delay), all[from..]).value
    ensures to <= |all| && Span24(all[from..to]) > delay
  {
    DelaySpan(Windows(delay), all[from..]);
    assert all[from..][..to - from] == all[from..to];
  }

  /**
    The inner `while` of `InternalAcpiDelay`: read the timer until a reading is
    past `ticks`, with interrupts masked.
  */
  method WaitUntilPassed(m: Machine, ticks: uint32)
    requires m.pmPos <= |m.pmTimer|
    requires WaitPassed(ticks, m.pmTimer[m.pmPos..]).Some?
    requires !m.interruptsEnabled
    modifies m`pmPos
    ensures m.pmPos == old(m.pmPos) + WaitPassed(ticks, m.pmTimer[old(m.pmPos)..]).value
  {
    ghost var end := m.pmPos + WaitPassed(ticks, m.pmTimer[m.pmPos..]).value;
    while true
      invariant m.pmPos < end <= |m.pmTimer|
      invariant WaitPassed(ticks, m.pmTimer[m.pmPos..]) == Some(end - m.pmPos)
      decreases end - m.pmPos
    {
      assert m.pmTimer[m.pmPos..][1..] == m.pmTimer[m.pmPos + 1..];
      var current := m.ReadPmTimer();
      if DeadlinePassed(ticks, current) {
        break;
      }
    }
  }

  /** One pass of the `do` body: fix the target from one read, then wait until it is passed. */
  method WaitWindow(m: Machine, window: int)
    requires m.pmPos <= |m.pmTimer|
    requires WindowReads(window, m.pmTimer[m.pmPos..]).Some?
    requires !m.interruptsEnabled
    modifies m`pmPos
    ensures m.pmPos == old(m.pmPos) + WindowReads(window, m.pmTimer[old(m.pmPos)..]).value
  {
    ghost var here := m.pmPos;
    assert m.pmTimer[here..][1..] == m.pmTimer[here + 1..];
    var base := m.ReadPmTimer();
    var ticks := ToUint32(base + window);
    WaitUntilPassed(m, ticks);
  }

  /** The first window of a run of windows, and the reads that the rest take after it. */
  lemma DelayReadsFirst(windows: seq<int>, readings: seq<uint32>)
    requires windows != [] && DelayReads(windows, readings).Some?
    ensures WindowReads(windows[0], readings).Some?
    ensures var k := WindowReads(windows[0], readings).value;
      DelayReads(windows[1..], readings[k..]) == Some(DelayReads(windows, readings).value - k)
  {
  }

  /**
    The `do ... while (Times-- > 0)` loop of `InternalAcpiDelay`: the
    remainder window `Delay & (BIT22 - 1)`, then `Delay >> 22` whole windows.
  */
  method WaitWindows(m: Machine, delay: uint32)
    requires m.pmPos <= |m.pmTimer|
    requires DelayReads(Windows(delay), m.pmTimer[m.pmPos..]).Some?
    requires !m.interruptsEnabled
    modifies m`pmPos
    ensures m.pmPos == old(m.pmPos) + DelayReads(Windows(delay), m.pmTimer[old(m.pmPos)..]).value
    ensures Span24(m.pmTimer[old(m.pmPos)..m.pmPos]) > delay
  {
    var times: uint32 := delay / Bit22;           // Delay >> 22
    var window: int := delay % Bit22;             // Delay &= BIT22 - 1

    ghost var done := DelayReads(Windows(delay), m.pmTimer[m.pmPos..]).value + m.pmPos;
    ghost var rest := Windows(delay);
    ghost var pending := done - m.pmPos;
    while true
      invariant rest == [window] + Whole(times)
      invariant m.pmPos <= |m.pmTimer| && m.pmPos + pending == done
      invariant DelayReads(rest, m.pmTimer[m.pmPos..]) == Some(pending)
      decreases times
    {
      pending := WaitNextWindow(m, window, rest, pending);
      window := Bit22;
      if times == 0 {   // `Times-- > 0` fails; the wrapped-around decrement is never used
        assert rest[1..] == [];
        break;
      }
      RepeatsFirst(times);
      rest := rest[1..];
      times := times - 1;
    }
    DelayStallsAtLeast(delay, m.pmTimer, old(m.pmPos), m.pmPos);
  }

  /** A run of whole windows is one whole window followed by the others. */
  lemma RepeatsFirst(n: nat)
    requires n > 0
    ensures Whole(n) == [Bit22] + Whole(n - 1)
  {
    assert Whole(n)[1..] == Whole(n - 1);
  }

  /** One window of the `do` loop, stated against the reads the remaining windows take. */
  method WaitNextWindow(m: Machine, window: int, ghost windows: seq<int>, ghost pending: nat)
    returns (ghost pendingAfter: nat)
    requires windows != [] && window == windows[0] && !m.interruptsEnabled
    requires m.pmPos <= |m.pmTimer| && DelayReads(windows, m.pmTimer[m.pmPos..]) == Some(pending)
    modifies m`pmPos
    ensures m.pmPos <= |m.pmTimer| && m.pmPos + pendingAfter == old(m.pmPos) + pending
    ensures DelayReads(windows[1..], m.pmTimer[m.pmPos..]) == Some(pendingAfter)
  {
    ghost var here := m.pmPos;
    DelayReadsFirst(windows, m.pmTimer[here..]);
    ghost var k := WindowReads(window, m.pmTimer[here..]).value;
    WaitWindow(m, window);
    assert m.pmTimer[here..][k..] == m.pmTimer[m.pmPos..];
    pendingAfter := pending - k;
  }

  /**
    `InternalAcpiDelay(Delay)`: stall for the remainder window and then
    `Delay >> 22` whole windows, with interrupts masked, and return the
    time-stamp counter cycles taken.
  */
  method InternalAcpiDelay(m: Machine, delay: uint32) returns (cycles: int)
    requires m.pmPos <= |m.pmTimer|
    requires DelayReads(Windows(delay), m.pmTimer[m.pmPos..]).Some?
    requires m.tscPos + 2 <= |m.tsc|
    modifies m`pmPos, m`tscPos, m`interruptsEnabled
    ensures m.interruptsEnabled == old(m.interruptsEnabled)
    ensures m.pmPos == old(m.pmPos) + DelayReads(Windows(delay), m.pmTimer[old(m.pmPos)..]).value
    ensures Span24(m.pmTimer[old(m.pmPos)..m.pmPos]) > delay
    ensures m.tscPos == old(m.tscPos) + 2
    ensures cycles == m.tsc[old(m.tscPos) + 1] - m.tsc[old(m.tscPos)]
  {
    var savedInterrupts := m.interruptsEnabled;   // bit 0x200 of the saved EFLAGS
    m.Disable();
    var tscStart := m.ReadTsc();
    WaitWindows(m, delay);
    var tscEnd := m.ReadTsc();
    if savedInterrupts {
      m.Enable();
    }
    cycles := tscEnd - tscStart;
  }
}
