/**
  The back-to-back read profiles taken at start-up: 1250 consecutive reads of
  the ACPI PM timer and of i8254 channel 2, then the minimum, maximum and
  average step between neighbouring reads.
*/
module Jitter {
  import opened Bits
  import opened Platform

  /** `MAXNUM`: the number of back-to-back reads. */
  const MaxNum: int := 1250
  /** `(uint64_t)~0`: the minimum before any difference is counted. */
  const NoMinimum: int := TwoTo64 - 1

  /** The sum of a sequence of differences. */
  function SumOf(ds: seq<int>): int
  {
    if ds == [] then 0 else SumOf(ds[..|ds| - 1]) + ds[|ds| - 1]
  }

  lemma SumOfSnoc(ds: seq<int>, d: int)
    ensures SumOf(ds + [d]) == SumOf(ds) + d
  {
    assert (ds + [d])[..|ds|] == ds;
  }

  /**
    What a scan reports: `min` and `max` of the counted differences (`~0` and
    0 when none is counted), their `sum`, and `sum / MAXNUM`.
  */
  datatype Summary = Summary(min: int, max: int, sum: int, average: int)

  /** `s` holds the minimum, maximum and sum of the counted differences `ds`. */
  predicate Tracks(s: Summary, ds: seq<int>)
  {
    && s.sum == SumOf(ds)
    && (ds == [] ==> s.min == NoMinimum && s.max == 0)
    && (ds != [] ==> s.min in ds && s.max in ds)
    && (forall d | d in ds :: s.min <= d <= s.max)
  }

  /** `s` describes the counted differences `ds`, averaged over `MAXNUM`. */
  predicate Describes(s: Summary, ds: seq<int>)
  {
    Tracks(s, ds) && s.average == s.sum / MaxNum
  }

  /** Folding in a new difference keeps the summary in step with the counted differences. */
  lemma IncludeTracks(s: Summary, ds: seq<int>, d: int)
    requires Tracks(s, ds) && 0 <= d < NoMinimum
    ensures Tracks(Include(s, d), ds + [d])
  {
    SumOfSnoc(ds, d);
  }

  // ---------------------------------------------------------------------------
  // ACPI PM timer
  // ---------------------------------------------------------------------------

  /**
    The ACPI differences that count: `a[i] - a[i - 1]` in `int32_t` for each
    later read, kept when not negative.
  */
  function AcpiCounted(a: seq<int32>): (ds: seq<int>)
    ensures |ds| <= |a|
    ensures forall d | d in ds :: 0 <= d < TwoTo31
    decreases |a|
  {
    if |a| < 2 then []
    else
      var d := ToInt32(a[|a| - 1] as int - a[|a| - 2]);
      AcpiCounted(a[..|a| - 1]) + (if d >= 0 then [d] else [])
  }

  /** Fold one counted difference into the running minimum, maximum and sum. */
  function Include(s: Summary, d: int): Summary
  {
    Summary(if d < s.min then d else s.min, if d > s.max then d else s.max, s.sum + d, s.average)
  }

  /** One more read adds its difference to the counted ones when it is not negative. */
  lemma AcpiCountedPrefix(a: seq<int32>, i: int)
    requires 1 <= i < |a|
    ensures var d := ToInt32(a[i] as int - a[i - 1]);
      AcpiCounted(a[..i + 1]) == if d >= 0 then AcpiCounted(a[..i]) + [d] else AcpiCounted(a[..i])
  {
    assert a[..i + 1][..i] == a[..i];
    assert AcpiCounted(a[..i]) + [] == AcpiCounted(a[..i]);
  }

  /** One step of the ACPI scan keeps the summary in step with the counted differences. */
  lemma AcpiScanStep(s: Summary, a: seq<int32>, i: int)
    requires 1 <= i < |a| && Tracks(s, AcpiCounted(a[..i]))
    ensures var d := ToInt32(a[i] as int - a[i - 1]);
      Tracks(if d >= 0 then Include(s, d) else s, AcpiCounted(a[..i + 1]))
  {
    AcpiCountedPrefix(a, i);
    var d := ToInt32(a[i] as int - a[i - 1]);
    if d >= 0 {
      IncludeTracks(s, AcpiCounted(a[..i]), d);
    }
  }

  /** The scan of `ACPIB2BStat`: only non-negative differences are counted. */
  method ScanAcpi(a: array<int32>) returns (s: Summary)
    requires a.Length == MaxNum
    ensures Describes(s, AcpiCounted(a[..]))
  {
    s := Summary(NoMinimum, 0, 0, 0);
    var i := 1;
    assert a[..1][..0] == [];
    while i < MaxNum
      invariant 1 <= i <= MaxNum
      invariant Tracks(s, AcpiCounted(a[..i]))
    {
      var diff := ToInt32(a[i] as int - a[i - 1]);
      AcpiScanStep(s, a[..], i);
      if diff >= 0 {
        s := Include(s, diff);
      }
      i := i + 1;
    }
    assert a[..MaxNum] == a[..];
    s := s.(average := s.sum / MaxNum);
  }

  /** Fill `ACPIB2BStat` with `MAXNUM` consecutive timer reads, stored as `int32_t`. */
  method RecordAcpi(m: Machine, a: array<int32>)
    requires a.Length == MaxNum && m.pmPos + MaxNum <= |m.pmTimer|
    modifies a, m`pmPos
    ensures m.pmPos == old(m.pmPos) + MaxNum
    ensures forall i | 0 <= i < MaxNum :: a[i] == ToInt32(m.pmTimer[old(m.pmPos) + i])
  {
    var i := 0;
    while i < MaxNum
      invariant 0 <= i <= MaxNum && m.pmPos == old(m.pmPos) + i
      invariant forall j | 0 <= j < i :: a[j] == ToInt32(m.pmTimer[old(m.pmPos) + j])
    {
      var v := m.ReadPmTimer();
      a[i] := ToInt32(v);
      i := i + 1;
    }
  }

  /** The ACPI profile: mask interrupts, record, scan. Interrupts are left masked. */
  method ProfileAcpi(m: Machine, a: array<int32>) returns (s: Summary)
    requires a.Length == MaxNum && m.pmPos + MaxNum <= |m.pmTimer|
    modifies a, m`pmPos, m`interruptsEnabled
    ensures !m.interruptsEnabled
    ensures m.pmPos == old(m.pmPos) + MaxNum
    ensures forall i | 0 <= i < MaxNum :: a[i] == ToInt32(m.pmTimer[old(m.pmPos) + i])
    ensures Describes(s, AcpiCounted(a[..]))
  {
    m.Disable();
    RecordAcpi(m, a);
    s := ScanAcpi(a);
  }

  /**
    A timer that advances by the same `step` between every two reads has every
    difference counted: `|a| - 1` differences of `step`.
  */
  lemma {:induction false} EvenAcpiSteps(a: seq<int32>, step: int)
    requires 1 <= |a| && 0 <= step < TwoTo31
    requires forall i | 1 <= i < |a| :: a[i] as int - a[i - 1] == step
    ensures AcpiCounted(a) == seq(|a| - 1, _ => step)
    ensures SumOf(AcpiCounted(a)) == (|a| - 1) * step
    decreases |a|
  {
    if |a| >= 2 {
      var front := a[..|a| - 1];
      EvenAcpiSteps(front, step);
      LastAcpiStep(a, step);
      ConstantSnoc(|a| - 2, step);
    }
  }

  /** The last read of a timer that advanced by `step` adds `step` to the counted differences. */
  lemma LastAcpiStep(a: seq<int32>, step: int)
    requires 2 <= |a| && 0 <= step < TwoTo31
    requires a[|a| - 1] as int - a[|a| - 2] == step
    ensures AcpiCounted(a) == AcpiCounted(a[..|a| - 1]) + [step]
  {
    assert ToInt32(a[|a| - 1] as int - a[|a| - 2]) == step;
  }

  /** One more `step` extends a constant sequence and its sum by `step`. */
  lemma ConstantSnoc(n: nat, step: int)
    ensures seq(n, _ => step) + [step] == seq(n + 1, _ => step)
    ensures SumOf(seq(n, _ => step)) == n * step ==> SumOf(seq(n + 1, _ => step)) == (n + 1) * step
  {
    SumOfSnoc(seq(n, _ => step), step);
    assert seq(n, _ => step) + [step] == seq(n + 1, _ => step);
  }

  /**
    For `MAXNUM` reads of such a timer the reported average is below the step,
    though every difference equals the step.
  */
  lemma EvenAcpiAverageBelowStep(a: seq<int32>, step: int)
    requires |a| == MaxNum && 0 < step < TwoTo31
    requires forall i | 1 <= i < |a| :: a[i] as int - a[i - 1] == step
    ensures forall d | d in AcpiCounted(a) :: d == step
    ensures SumOf(AcpiCounted(a)) / MaxNum < step
  {
    EvenAcpiSteps(a, step);
  }

  // ---------------------------------------------------------------------------
  // i8254 channel 2
  // ---------------------------------------------------------------------------

  /**
    The PIT differences that count: `a[i - 1] - a[i]` in `uint16_t` (the count
    descends), kept when its `int16_t` reading is not negative.
  */
  function PitCounted(a: seq<uint16>): (ds: seq<int>)
    ensures |ds| <= |a|
    ensures forall d | d in ds :: 0 <= d < TwoTo15
    decreases |a|
  {
    if |a| < 2 then []
    else
      var d := ToUint16(a[|a| - 2] as int - a[|a| - 1]);
      PitCounted(a[..|a| - 1]) + (if ToInt16(d) >= 0 then [d] else [])
  }

  /** One more read adds its difference to the counted ones when its `int16_t` reading is not negative. */
  lemma PitCountedPrefix(a: seq<uint16>, i: int)
    requires 1 <= i < |a|
    ensures var d := ToUint16(a[i - 1] as int - a[i]);
      PitCounted(a[..i + 1]) == if ToInt16(d) >= 0 then PitCounted(a[..i]) + [d] else PitCounted(a[..i])
  {
    assert a[..i + 1][..i] == a[..i];
    assert PitCounted(a[..i]) + [] == PitCounted(a[..i]);
  }

  /** One step of the PIT scan keeps the summary in step with the counted differences. */
  lemma PitScanStep(s: Summary, a: seq<uint16>, i: int)
    requires 1 <= i < |a| && Tracks(s, PitCounted(a[..i]))
    ensures var d := ToUint16(a[i - 1] as int - a[i]);
      Tracks(if ToInt16(d) >= 0 then Include(s, d) else s, PitCounted(a[..i + 1]))
  {
    PitCountedPrefix(a, i);
    var d := ToUint16(a[i - 1] as int - a[i]);
    if ToInt16(d) >= 0 {
      IncludeTracks(s, PitCounted(a[..i]), d);
    }
  }

  /** The scan of `PITB2BStat`. */
  method ScanPit(a: array<uint16>) returns (s: Summary)
    requires a.Length == MaxNum
    ensures Describes(s, PitCounted(a[..]))
  {
    s := Summary(NoMinimum, 0, 0, 0);
    var i := 1;
    assert a[..1][..0] == [];
    while i < MaxNum
      invariant 1 <= i <= MaxNum
      invariant Tracks(s, PitCounted(a[..i]))
    {
      var diff := ToUint16(a[i - 1] as int - a[i]);
      PitScanStep(s, a[..], i);
      if ToInt16(diff) >= 0 {
        s := Include(s, diff);
      }
      i := i + 1;
    }
    assert a[..MaxNum] == a[..];
    s := s.(average := s.sum / MaxNum);
  }

  /** Fill `PITB2BStat` with `MAXNUM` consecutive latched counts. */
  method RecordPit(m: Machine, a: array<uint16>)
    requires a.Length == MaxNum && m.pitPos + MaxNum <= |m.pitLatch|
    modifies a, m`pitPos
    ensures m.pitPos == old(m.pitPos) + MaxNum
    ensures a[..] == m.pitLatch[old(m.pitPos)..old(m.pitPos) + MaxNum]
  {
    var i := 0;
    while i < MaxNum
      invariant 0 <= i <= MaxNum && m.pitPos == old(m.pitPos) + i
      invariant a[..i] == m.pitLatch[old(m.pitPos)..old(m.pitPos) + i]
    {
      var v := m.ReadPitLatch();
      a[i] := v;
      i := i + 1;
    }
  }

  /** The PIT profile: mask interrupts, record, scan. Interrupts are left masked. */
  method ProfilePit(m: Machine, a: array<uint16>) returns (s: Summary)
    requires a.Length == MaxNum && m.pitPos + MaxNum <= |m.pitLatch|
    modifies a, m`pitPos, m`interruptsEnabled
    ensures !m.interruptsEnabled
    ensures m.pitPos == old(m.pitPos) + MaxNum
    ensures a[..] == m.pitLatch[old(m.pitPos)..old(m.pitPos) + MaxNum]
    ensures Describes(s, PitCounted(a[..]))
  {
    m.Disable();
    RecordPit(m, a);
    s := ScanPit(a);
  }

  /**
    A step of less than 2^15 between two reads of the descending count is
    counted as exactly that step, also when the counter wraps from 0 to 65535
    in between.
  */
  lemma PitStepAcrossWrap(previous: uint16, step: int)
    requires 0 <= step < TwoTo15
    ensures var current := ToUint16(previous - step);
      ToUint16(previous - current) == step && ToInt16(step) >= 0
  {
    var current := ToUint16(previous - step);
    if previous >= step {
      assert current == previous - step;
    } else {
      assert (previous - step) % TwoTo16 == previous - step + TwoTo16;
      assert current == previous - step + TwoTo16;
      assert (step - TwoTo16) % TwoTo16 == step;
    }
  }
}
