/**
  The drift measurement of `main`: the `parms` table of ACPI request lengths,
  the number of samples, the per-sample loop that stores the cycles each
  request takes, and the scaling of each sample to seconds of drift per day
  with optional deburring. Drift values are `double` in the program and
  `real` here.
*/
module Drift {
  import opened Bits
  import opened Wrappers
  import opened Platform
  import opened AcpiClk
  import Jitter

  /** `MAXNUM`: the length of each entry's slice of the shared sample buffers. */
  const MaxNum: int := Jitter.MaxNum
  /** The shared buffers `statbuf4DiffTSC` and `statbuf4DriftSecPerDay` hold `MAXNUM * 10` entries. */
  const BufferLength: int := 10 * MaxNum

  // ---------------------------------------------------------------------------
  // The parms table
  // ---------------------------------------------------------------------------

  /** One `parms` entry: the ACPI request `delay` and the factor that scales it to one second. */
  datatype Config = Config(delay: int32, multiplier: int)

  /** The five ACPI entries; entry `i` owns the buffer slice starting at `i * MAXNUM`. */
  const Parms: seq<Config> := [
    Config(3 * 1193181, 1),
    Config(3 * 62799, 19),
    Config(3 * 3287, 363),
    Config(3 * 173, 6897),
    Config(3 * 121, 9861)
  ]

  /** Every entry requests a positive number of ticks that, multiplied up, is one ACPI second. */
  lemma ParmsSpanOneSecond()
    ensures |Parms| == 5
    ensures forall i | 0 <= i < |Parms| ::
      Parms[i].delay > 0 && Parms[i].delay * Parms[i].multiplier == AcpiTicksPerSecond
  {
  }

  // ---------------------------------------------------------------------------
  // Number of samples
  // ---------------------------------------------------------------------------

  /**
    The `switch (gidxCfgMngMnuItm_Config_NumSamples)` as written: 0..4 select
    10, 50, 250, 1250 and 62500 samples; any other index keeps the previous count.
  */
  function SampleCountAsWritten(index: int, previous: int): (n: int)
    ensures 0 <= index <= 4 ==> 10 <= n <= 62500
    ensures !(0 <= index <= 4) ==> n == previous
  {
    if index == 0 then 10
    else if index == 1 then 50
    else if index == 2 then 250
    else if index == 3 then 1250
    else if index == 4 then 62500
    else previous
  }

  /**
    Index 4, which the configuration file can still select, asks for 62500
    samples: more than one entry's slice, and more than the whole buffer.
  */
  lemma SampleCountFourOverruns()
    ensures SampleCountAsWritten(4, 0) > MaxNum
    ensures 0 * MaxNum + SampleCountAsWritten(4, 0) > BufferLength
  {
  }

  /**
    The sample count restricted to the four choices the menu offers: it never
    exceeds `MAXNUM`, so every entry's writes stay in its own slice.
  */
  function SampleCount(index: int, previous: int): (n: int)
    ensures 0 <= previous <= MaxNum ==> 0 <= n <= MaxNum
    ensures 0 <= index < 4 ==> n == SampleCountAsWritten(index, previous) && n > 0
    ensures !(0 <= index < 4) ==> n == previous
  {
    if 0 <= index < 4 then SampleCountAsWritten(index, previous) else previous
  }

  /** Slices of up to `MAXNUM` samples never overlap and stay inside the buffer. */
  lemma SlicesApart(index: nat, count: int)
    requires index < |Parms| && 0 <= count <= MaxNum
    ensures index * MaxNum + count <= (index + 1) * MaxNum <= BufferLength
  {
  }

  // ---------------------------------------------------------------------------
  // Drift in seconds per day
  // ---------------------------------------------------------------------------

  const SecondsPerDay: real := 86400.0

  /**
    `((tsc * multiplier - reference) * 86400) / reference`: how many seconds a
    day the cycles of one second, measured as `tsc` cycles per request, differ
    from the reference. It is zero exactly when the scaled cycle count equals
    the reference, and positive exactly when more cycles were counted.
  */
  function DriftSecPerDay(tsc: real, multiplier: real, reference: real): (d: real)
    requires reference > 0.0
    ensures d == 0.0 <==> tsc * multiplier == reference
    ensures d > 0.0 <==> tsc * multiplier > reference
  {
    QuotientSign((tsc * multiplier - reference) * SecondsPerDay, reference);
    ((tsc * multiplier - reference) * SecondsPerDay) / reference
  }

  /** Dividing by a positive real keeps the sign. */
  lemma QuotientSign(x: real, y: real)
    requires y > 0.0
    ensures x / y == 0.0 <==> x == 0.0
    ensures x / y > 0.0 <==> x > 0.0
  {
    assert (x / y) * y == x;
    if x / y > 0.0 {
      assert (x / y) * y > 0.0;
    } else if x / y < 0.0 {
      assert (x / y) * y < 0.0;
    }
  }

  /** The drift is affine in the cycle count: `tsc * (multiplier * 86400 / reference) - 86400`. */
  lemma DriftAffine(tsc: real, multiplier: real, reference: real)
    requires reference > 0.0
    ensures DriftSecPerDay(tsc, multiplier, reference) == tsc * (multiplier * SecondsPerDay / reference) - SecondsPerDay
  {
  }

  /** The sum of a sequence of reals. */
  function SumReal(xs: seq<real>): real
  {
    if xs == [] then 0.0 else SumReal(xs[..|xs| - 1]) + xs[|xs| - 1]
  }

  /** The arithmetic mean. */
  function Mean(xs: seq<real>): real
    requires |xs| > 0
  {
    SumReal(xs) / (|xs| as real)
  }

  /** Samples as `double`s. */
  function AsReals(xs: seq<int>): seq<real>
  {
    seq(|xs|, i requires 0 <= i < |xs| => xs[i] as real)
  }

  /** The drift of each sample. */
  function Drifts(ts: seq<real>, multiplier: real, reference: real): seq<real>
    requires reference > 0.0
  {
    seq(|ts|, i requires 0 <= i < |ts| => DriftSecPerDay(ts[i], multiplier, reference))
  }

  /** Summing `t * k - c` over a sequence gives `(sum of t) * k - c * n`. */
  lemma {:induction false} SumOfAffine(ts: seq<real>, ds: seq<real>, k: real, c: real)
    requires |ds| == |ts| && forall i | 0 <= i < |ts| :: ds[i] == ts[i] * k - c
    ensures SumReal(ds) == SumReal(ts) * k - c * (|ts| as real)
    decreases |ts|
  {
    if ts != [] {
      var n := |ts| - 1;
      SumOfAffine(ts[..n], ds[..n], k, c);
      var front := SumReal(ts[..n]);
      assert SumReal(ts) == front + ts[n];
      assert SumReal(ds) == front * k - c * (n as real) + (ts[n] * k - c);
      assert (front + ts[n]) * k == front * k + ts[n] * k;
      assert c * (n as real) + c == c * ((n + 1) as real);
    }
  }

  /** Each drift is the cycle count times `multiplier * 86400 / reference`, less a day. */
  lemma DriftsAffine(ts: seq<real>, multiplier: real, reference: real, k: real)
    requires reference > 0.0 && k == multiplier * SecondsPerDay / reference
    ensures forall i | 0 <= i < |ts| :: Drifts(ts, multiplier, reference)[i] == ts[i] * k - SecondsPerDay
  {
    forall i | 0 <= i < |ts|
      ensures Drifts(ts, multiplier, reference)[i] == ts[i] * k - SecondsPerDay
    {
      DriftAffine(ts[i], multiplier, reference);
    }
  }

  /** Summing the drifts is the drift formula applied to the summed cycles. */
  lemma {:induction false} SumOfDrifts(ts: seq<real>, multiplier: real, reference: real, k: real)
    requires reference > 0.0 && k == multiplier * SecondsPerDay / reference
    ensures SumReal(Drifts(ts, multiplier, reference)) == SumReal(ts) * k - SecondsPerDay * (|ts| as real)
  {
    DriftsAffine(ts, multiplier, reference, k);
    SumOfAffine(ts, Drifts(ts, multiplier, reference), k, SecondsPerDay);
  }

  /** `x * n == y` with `n` positive makes `x` the quotient `y / n`. */
  lemma QuotientOf(x: real, n: real, y: real)
    requires n > 0.0 && x * n == y
    ensures x == y / n
  {
    assert (y / n) * n == y;
    assert (x - y / n) * n == 0.0;
  }

  /**
    The drift of a series, taken from its mean cycle count, is the mean of
    the drifts of its samples.
  */
  lemma SeriesDriftIsMeanDrift(ts: seq<real>, multiplier: real, reference: real)
    requires |ts| > 0 && reference > 0.0
    ensures DriftSecPerDay(Mean(ts), multiplier, reference) == Mean(Drifts(ts, multiplier, reference))
  {
    var n := |ts| as real;
    var k := multiplier * SecondsPerDay / reference;
    var mean := Mean(ts);
    SumOfDrifts(ts, multiplier, reference, k);
    DriftAffine(mean, multiplier, reference);
    MeanTimesCount(ts);
    AffineScale(mean, n, k, SecondsPerDay);
    QuotientOf(mean * k - SecondsPerDay, n, SumReal(Drifts(ts, multiplier, reference)));
  }

  /** The mean times the number of values is their sum. */
  lemma MeanTimesCount(xs: seq<real>)
    requires |xs| > 0
    ensures Mean(xs) * (|xs| as real) == SumReal(xs)
  {
  }

  /** `(x * k - c) * n == (x * n) * k - c * n`. */
  lemma AffineScale(x: real, n: real, k: real, c: real)
    ensures (x * k - c) * n == (x * n) * k - c * n
  {
  }

  // ---------------------------------------------------------------------------
  // Deburring
  // ---------------------------------------------------------------------------

  /**
    The value stored for a sample: its drift, or 0.0 when deburring is on and
    the drift is above 5 times the series drift. The comparison is signed.
  */
  function StoredDrift(scaled: real, series: real, deburr: bool): (r: real)
    ensures !deburr ==> r == scaled
    ensures deburr ==> (r == 0.0 || r == scaled)
    ensures deburr && scaled != 0.0 ==> (r == 0.0 <==> scaled > 5.0 * series)
  {
    if deburr && scaled > 5.0 * series then 0.0 else scaled
  }

  /** The sum of `n` copies of `x`. */
  lemma {:induction false} SumOfConstant(xs: seq<real>, x: real)
    requires forall i | 0 <= i < |xs| :: xs[i] == x
    ensures SumReal(xs) == (|xs| as real) * x
    decreases |xs|
  {
    if xs != [] {
      SumOfConstant(xs[..|xs| - 1], x);
    }
  }

  /**
    Because the comparison is signed, a series whose samples all drift by the
    same negative amount has every sample deburred to 0.0, while the same
    series with a positive drift keeps every sample.
  */
  lemma ConstantSeriesDeburring(ts: seq<real>, multiplier: real, reference: real)
    requires |ts| > 0 && reference > 0.0
    requires forall i | 0 <= i < |ts| :: ts[i] == ts[0]
    ensures var series := DriftSecPerDay(Mean(ts), multiplier, reference);
      var drifts := Drifts(ts, multiplier, reference);
      && (series < 0.0 ==> forall i | 0 <= i < |ts| :: StoredDrift(drifts[i], series, true) == 0.0)
      && (series >= 0.0 ==> forall i | 0 <= i < |ts| :: StoredDrift(drifts[i], series, true) == drifts[i])
  {
    SumOfConstant(ts, ts[0]);
    assert Mean(ts) == ts[0];
  }

  // ---------------------------------------------------------------------------
  // The sample loop
  // ---------------------------------------------------------------------------

  /**
    One `AcpiClkWait(delay)` call on the given PM timer and time-stamp counter
    readings: the cycles it returns and the timer reads it takes (it takes two
    counter reads). None: the readings run out, or the correction would divide
    by zero (`gfErrorCorrection == 1` with a request that is not positive).
  */
  function AcpiSample(delay: int32, errorCorrection: int, pm: seq<uint32>, tsc: seq<nat>): (r: Option<(int, nat)>)
    ensures r.Some? ==> |tsc| >= 2 && AcpiWaitPoll(delay, pm).Some? && (errorCorrection == 1 ==> delay > 0)
    ensures r.Some? ==> r.value.1 == 2 + AcpiWaitPoll(delay, pm).value.taken <= |pm|
  {
    if |tsc| < 2 || (errorCorrection == 1 && delay <= 0) then None
    else
      match AcpiWaitPoll(delay, pm)
      case None => None
      case Some(p) => Some((CorrectedCycles(tsc[1] as int - tsc[0], delay, p.remaining, errorCorrection), 2 + p.taken))
  }

  /** What a run of samples returns and reads. */
  datatype Series = Series(values: seq<int>, pmTaken: nat, tscTaken: nat)

  /** `count` successive samples. None: the readings run out or a sample fails. */
  function Samples(delay: int32, errorCorrection: int, count: nat, pm: seq<uint32>, tsc: seq<nat>): (r: Option<Series>)
    ensures r.Some? ==> |r.value.values| == count && r.value.pmTaken <= |pm| && r.value.tscTaken == 2 * count <= |tsc|
    decreases count
  {
    if count == 0 then Some(Series([], 0, 0))
    else
      match AcpiSample(delay, errorCorrection, pm, tsc)
      case None => None
      case Some(first) =>
        match Samples(delay, errorCorrection, count - 1, pm[first.1..], tsc[2..])
        case None => None
        case Some(rest) => Some(Series([first.0] + rest.values, first.1 + rest.pmTaken, 2 + rest.tscTaken))
  }

  /** A run of samples is its first sample followed by a run of one sample fewer. */
  lemma SamplesFirst(delay: int32, errorCorrection: int, count: nat, pm: seq<uint32>, tsc: seq<nat>, s: Series)
    requires count > 0 && Samples(delay, errorCorrection, count, pm, tsc) == Some(s)
    ensures AcpiSample(delay, errorCorrection, pm, tsc).Some?
    ensures var first := AcpiSample(delay, errorCorrection, pm, tsc).value;
      && first.1 <= s.pmTaken && 2 <= s.tscTaken && |s.values| > 0 && s.values[0] == first.0
      && Samples(delay, errorCorrection, count - 1, pm[first.1..], tsc[2..])
         == Some(Series(s.values[1..], s.pmTaken - first.1, s.tscTaken - 2))
  {
  }

  /** One `AcpiClkWait(delay)` call, stated as the sample it takes. */
  method Sample(m: Machine, delay: int32) returns (cycles: int)
    requires m.pmPos <= |m.pmTimer| && m.tscPos <= |m.tsc|
    requires AcpiSample(delay, m.errorCorrection, m.pmTimer[m.pmPos..], m.tsc[m.tscPos..]).Some?
    modifies m`pmPos, m`tscPos, m`interruptsEnabled
    ensures m.interruptsEnabled == old(m.interruptsEnabled)
    ensures var first := AcpiSample(delay, m.errorCorrection, m.pmTimer[old(m.pmPos)..], m.tsc[old(m.tscPos)..]).value;
      && cycles == first.0
      && m.pmPos == old(m.pmPos) + first.1
      && m.tscPos == old(m.tscPos) + 2
  {
    assert m.tsc[m.tscPos..][1] == m.tsc[m.tscPos + 1];
    cycles := AcpiClkWait(m, delay);
  }

  /** `a` with the entries from `at` on replaced by `d`. */
  function Splice<T>(a: seq<T>, at: nat, d: seq<T>): (r: seq<T>)
    requires at + |d| <= |a|
    ensures |r| == |a|
    ensures forall k | 0 <= k < |a| :: r[k] == if at <= k < at + |d| then d[k - at] else a[k]
  {
    a[..at] + d + a[at + |d|..]
  }

  /** Writing the next value after a spliced prefix extends the prefix. */
  lemma SpliceNext<T>(a: seq<T>, at: nat, d: seq<T>, x: T)
    requires at + |d| < |a|
    ensures Splice(a, at, d)[at + |d| := x] == Splice(a, at, d + [x])
  {
  }

  /** Moving the first of the pending values to the end of the finished ones. */
  lemma MoveFirst<T>(done: seq<T>, pending: seq<T>)
    requires pending != []
    ensures (done + [pending[0]]) + pending[1..] == done + pending
  {
  }

  /**
    One `AcpiClkWait(delay)` call inside a run of `left` pending samples: it
    returns the first of them and leaves the readings for the rest of the run.
  */
  method NextSample(m: Machine, delay: int32, ghost left: nat, ghost pending: Series)
      returns (cycles: int, ghost leftAfter: nat, ghost pendingAfter: Series)
    requires left > 0 && m.pmPos <= |m.pmTimer| && m.tscPos <= |m.tsc|
    requires Samples(delay, m.errorCorrection, left, m.pmTimer[m.pmPos..], m.tsc[m.tscPos..]) == Some(pending)
    modifies m`pmPos, m`tscPos, m`interruptsEnabled
    ensures m.interruptsEnabled == old(m.interruptsEnabled)
    ensures |pending.values| > 0 && cycles == pending.values[0]
    ensures old(m.pmPos) <= m.pmPos <= |m.pmTimer| && m.tscPos == old(m.tscPos) + 2 <= |m.tsc|
    ensures m.pmPos - old(m.pmPos) <= pending.pmTaken && 2 <= pending.tscTaken
    ensures pendingAfter == Series(pending.values[1..], pending.pmTaken - (m.pmPos - old(m.pmPos)), pending.tscTaken - 2)
    ensures leftAfter == left - 1
    ensures Samples(delay, m.errorCorrection, leftAfter, m.pmTimer[m.pmPos..], m.tsc[m.tscPos..]) == Some(pendingAfter)
  {
    ghost var pm, tsc := m.pmTimer[m.pmPos..], m.tsc[m.tscPos..];
    ghost var errorCorrection := m.errorCorrection;
    SamplesFirst(delay, errorCorrection, left, pm, tsc, pending);
    cycles := Sample(m, delay);
    ghost var taken := m.pmPos - old(m.pmPos);
    SliceOfSlice(m.pmTimer, old(m.pmPos), taken);
    SliceOfSlice(m.tsc, old(m.tscPos), 2);
    leftAfter := left - 1;
    pendingAfter := SamplesRest(delay, errorCorrection, left, leftAfter, pm, tsc, pending, taken,
                                m.pmTimer[m.pmPos..], m.tsc[m.tscPos..]);
  }

  /** The samples after the first, on the readings the first leaves. */
  lemma SamplesRest(delay: int32, errorCorrection: int, left: nat, leftAfter: nat, pm: seq<uint32>, tsc: seq<nat>,
                    pending: Series, taken: nat, pmRest: seq<uint32>, tscRest: seq<nat>)
      returns (pendingAfter: Series)
    requires left > 0 && leftAfter == left - 1
    requires Samples(delay, errorCorrection, left, pm, tsc) == Some(pending)
    requires AcpiSample(delay, errorCorrection, pm, tsc).Some? && taken == AcpiSample(delay, errorCorrection, pm, tsc).value.1
    requires taken <= |pm| && 2 <= |tsc| && pmRest == pm[taken..] && tscRest == tsc[2..]
    ensures taken <= pending.pmTaken && 2 <= pending.tscTaken
    ensures pendingAfter == Series(pending.values[1..], pending.pmTaken - taken, pending.tscTaken - 2)
    ensures Samples(delay, errorCorrection, leftAfter, pmRest, tscRest) == Some(pendingAfter)
  {
    SamplesFirst(delay, errorCorrection, left, pm, tsc, pending);
    pendingAfter := Series(pending.values[1..], pending.pmTaken - taken, pending.tscTaken - 2);
  }

  /** A slice of a slice is a slice. */
  lemma SliceOfSlice<T>(s: seq<T>, i: nat, j: nat)
    requires i + j <= |s|
    ensures s[i..][j..] == s[i + j..]
  {
  }

  /**
    One pass of the measuring loop, `rgDiffTSC[j] = AcpiClkWait(delay)`: of
    a run of `left` pending samples it stores the first after the `done` ones
    and leaves the readings for the rest of the run.
  */
  method StoreSample(m: Machine, delay: int32, diffs: array<int>, at: nat, ghost offset: nat,
                     ghost original: seq<int>, ghost done: seq<int>, ghost left: nat, ghost pending: Series)
      returns (cycles: int, ghost leftAfter: nat, ghost pendingAfter: Series)
    requires at == offset + |done| < diffs.Length == |original| && left > 0
    requires diffs[..] == Splice(original, offset, done)
    requires m.pmPos <= |m.pmTimer| && m.tscPos <= |m.tsc|
    requires Samples(delay, m.errorCorrection, left, m.pmTimer[m.pmPos..], m.tsc[m.tscPos..]) == Some(pending)
    modifies diffs, m`pmPos, m`tscPos, m`interruptsEnabled
    ensures m.interruptsEnabled == old(m.interruptsEnabled)
    ensures |pending.values| > 0 && cycles == pending.values[0]
    ensures diffs[..] == Splice(original, offset, done + [cycles])
    ensures (done + [cycles]) + pending.values[1..] == done + pending.values
    ensures Jitter.SumOf(done + [cycles]) == Jitter.SumOf(done) + cycles
    ensures old(m.pmPos) <= m.pmPos <= |m.pmTimer| && m.tscPos == old(m.tscPos) + 2 <= |m.tsc|
    ensures m.pmPos - old(m.pmPos) <= pending.pmTaken && 2 <= pending.tscTaken
    ensures leftAfter == left - 1
    ensures pendingAfter == Series(pending.values[1..], pending.pmTaken - (m.pmPos - old(m.pmPos)), pending.tscTaken - 2)
    ensures Samples(delay, m.errorCorrection, leftAfter, m.pmTimer[m.pmPos..], m.tsc[m.tscPos..]) == Some(pendingAfter)
  {
    cycles, leftAfter, pendingAfter := NextSample(m, delay, left, pending);
    MoveFirst(done, pending.values);
    SpliceNext(original, offset, done, cycles);
    Jitter.SumOfSnoc(done, cycles);
    diffs[at] := cycles;
  }

  /**
    The measuring loop of one entry: `rgDiffTSC[j] = AcpiClkWait(delay)` for
    each sample, summing the samples as it goes. The program sums in a
    `double`; with doubles read as reals the sum of integer samples is their
    integer sum, which is what `total` holds.
  */
  method MeasureSeries(m: Machine, delay: int32, count: nat, diffs: array<int>, offset: nat) returns (total: int)
    requires offset + count <= diffs.Length
    requires m.pmPos <= |m.pmTimer| && m.tscPos <= |m.tsc|
    requires Samples(delay, m.errorCorrection, count, m.pmTimer[m.pmPos..], m.tsc[m.tscPos..]).Some?
    modifies diffs, m`pmPos, m`tscPos, m`interruptsEnabled
    ensures m.interruptsEnabled == old(m.interruptsEnabled)
    ensures var s := Samples(delay, m.errorCorrection, count, m.pmTimer[old(m.pmPos)..], m.tsc[old(m.tscPos)..]).value;
      && diffs[..] == Splice(old(diffs[..]), offset, s.values)
      && total == Jitter.SumOf(s.values)
      && m.pmPos == old(m.pmPos) + s.pmTaken
      && m.tscPos == old(m.tscPos) + s.tscTaken
  {
    ghost var s := Samples(delay, m.errorCorrection, count, m.pmTimer[m.pmPos..], m.tsc[m.tscPos..]).value;
    ghost var pmStart, tscStart := m.pmPos, m.tscPos;
    ghost var pending := s;
    ghost var done: seq<int> := [];
    ghost var left: nat := count;
    ghost var original := diffs[..];
    assert original == Splice(original, offset, done);
    total := 0;
    var j := 0;
    while j < count
      invariant 0 <= j <= count && |done| == j && left == count - j
      invariant m.interruptsEnabled == old(m.interruptsEnabled)
      invariant pmStart <= m.pmPos <= |m.pmTimer| && m.tscPos == tscStart + 2 * j <= |m.tsc|
      invariant Samples(delay, m.errorCorrection, left, m.pmTimer[m.pmPos..], m.tsc[m.tscPos..]) == Some(pending)
      invariant done + pending.values == s.values
      invariant pending.pmTaken + (m.pmPos - pmStart) == s.pmTaken && pending.tscTaken + 2 * j == s.tscTaken
      invariant diffs[..] == Splice(original, offset, done)
      invariant total == Jitter.SumOf(done)
    {
      var cycles;
      cycles, left, pending := StoreSample(m, delay, diffs, offset + j, offset, original, done, left, pending);
      done := done + [cycles];
      total := total + cycles;
      j := j + 1;
    }
    assert pending == Series([], 0, 0);
    assert done == done + pending.values == s.values;
  }

  /** The value stored for each sample of a series: its drift, deburred when asked. */
  function StoredDrifts(ts: seq<real>, multiplier: real, reference: real, series: real, deburr: bool): seq<real>
    requires reference > 0.0
  {
    seq(|ts|, i requires 0 <= i < |ts| => StoredDrift(DriftSecPerDay(ts[i], multiplier, reference), series, deburr))
  }

  /** Converting sample by sample and summing is converting the sum. */
  lemma {:induction false} SumOfAsReals(xs: seq<int>)
    ensures SumReal(AsReals(xs)) == Jitter.SumOf(xs) as real
    decreases |xs|
  {
    if xs != [] {
      var n := |xs| - 1;
      SumOfAsReals(xs[..n]);
      assert AsReals(xs)[..n] == AsReals(xs[..n]);
    }
  }

  /**
    The scaling loop of one entry: each stored drift is the sample's drift,
    deburred against the series drift when deburring is on.
  */
  method ScaleSeries(diffs: array<int>, drifts: array<real>, offset: nat, count: nat,
                     multiplier: int, reference: int, series: real, deburr: bool)
    requires offset + count <= diffs.Length && offset + count <= drifts.Length && reference > 0
    modifies drifts
    ensures drifts[..] == Splice(old(drifts[..]), offset,
      StoredDrifts(AsReals(diffs[offset..offset + count]), multiplier as real, reference as real, series, deburr))
  {
    ghost var target := StoredDrifts(AsReals(diffs[offset..offset + count]), multiplier as real, reference as real, series, deburr);
    var j := 0;
    while j < count
      invariant 0 <= j <= count
      invariant drifts[..] == Splice(old(drifts[..]), offset, target[..j])
    {
      var tsc := diffs[offset + j] as real;
      var scaled := DriftSecPerDay(tsc, multiplier as real, reference as real);
      if deburr {
        if scaled > 5.0 * series {
          scaled := 0.0;
        }
      }
      assert scaled == target[j];
      assert Splice(old(drifts[..]), offset, target[..j])[offset + j := scaled] == Splice(old(drifts[..]), offset, target[..j + 1]);
      drifts[offset + j] := scaled;
      j := j + 1;
    }
    assert target[..count] == target;
  }

  /**
    One entry of the measurement: take `count` samples into the entry's slice
    of the cycle buffer, derive the series drift from their mean, then store
    each sample's (possibly deburred) drift in the entry's slice of the drift
    buffer. With no samples the program's mean is 0/0; here None is returned
    and the drift buffer is left as it was.
  */
  method RunSeries(m: Machine, index: nat, count: nat, reference: int, deburr: bool,
                   diffs: array<int>, drifts: array<real>) returns (series: Option<real>)
    requires index < |Parms| && count <= MaxNum && reference > 0
    requires diffs.Length == BufferLength && drifts.Length == BufferLength
    requires m.pmPos <= |m.pmTimer| && m.tscPos <= |m.tsc|
    requires Samples(Parms[index].delay, m.errorCorrection, count, m.pmTimer[m.pmPos..], m.tsc[m.tscPos..]).Some?
    modifies diffs, drifts, m`pmPos, m`tscPos, m`interruptsEnabled
    ensures m.interruptsEnabled == old(m.interruptsEnabled)
    ensures var s := Samples(Parms[index].delay, m.errorCorrection, count, m.pmTimer[old(m.pmPos)..], m.tsc[old(m.tscPos)..]).value;
      var ts := AsReals(s.values);
      var multiplier := Parms[index].multiplier as real;
      && diffs[..] == Splice(old(diffs[..]), index * MaxNum, s.values)
      && m.pmPos == old(m.pmPos) + s.pmTaken && m.tscPos == old(m.tscPos) + s.tscTaken
      && (series.None? <==> count == 0)
      && (count == 0 ==> drifts[..] == old(drifts[..]))
      && (count > 0 ==> series.value == Mean(Drifts(ts, multiplier, reference as real)))
      && (count > 0 ==> drifts[..] == Splice(old(drifts[..]), index * MaxNum,
            StoredDrifts(ts, multiplier, reference as real, series.value, deburr)))
  {
    SlicesApart(index, count);
    var offset := index * MaxNum;
    var config := Parms[index];
    ghost var s := Samples(config.delay, m.errorCorrection, count, m.pmTimer[m.pmPos..], m.tsc[m.tscPos..]).value;
    var total := MeasureSeries(m, config.delay, count, diffs, offset);
    if count == 0 {
      series := None;
      return;
    }
    var average := total as real / count as real;
    SumOfAsReals(s.values);
    assert average == Mean(AsReals(s.values));
    var seriesDrift := DriftSecPerDay(average, config.multiplier as real, reference as real);
    SeriesDriftIsMeanDrift(AsReals(s.values), config.multiplier as real, reference as real);
    assert diffs[offset..offset + count] == s.values;
    ScaleSeries(diffs, drifts, offset, count, config.multiplier, reference, seriesDrift, deburr);
    series := Some(seriesDrift);
  }
}
