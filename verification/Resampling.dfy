// The phase code run on every domain tick: a downsampled block runs on some
// ticks, an upsampled block runs several times in each tick. Ghost counters
// record the ticks and the runs of the block's body since the phase was reset.
module Resampling {
  import opened Arith
  import opened RateSchedules

  function CeilDiv(x: int, d: int): int
    requires d > 0
  {
    -((-x) / d)
  }

  // q is the ceiling of x / d.
  lemma CeilDivUnique(x: int, d: int, q: int)
    requires d > 0 && x <= q * d < x + d
    ensures CeilDiv(x, d) == q
  {
    DivModUnique(-x, d, -q, q * d - x);
  }

  // The i32 counter's limit is the factor cast to 32 bits.
  function CounterPeriod(spec: RateSchedule): (period: int)
    ensures period >= 1
  {
    var limit := Wrap32(spec.intFactor);
    if limit <= 1 then 1 else limit
  }

  // Schedules the downsampling code is emitted for.
  ghost predicate CanDownsample(spec: RateSchedule) {
    && 0.0 < spec.chainRate <= spec.domainRate
    && (!spec.isExactInteger && spec.useInt64Phase ==> 0 < spec.stepC <= spec.stepD)
  }

  // Runs of the body after n ticks, in the two integer forms.
  function DownRuns(spec: RateSchedule, n: nat): int
    requires !spec.isExactInteger ==> spec.stepD > 0
  {
    if spec.isExactInteger then CeilDiv(n, CounterPeriod(spec))
    else (n - 1) * spec.stepC / spec.stepD + 1
  }

  class Downsampler {
    const spec: RateSchedule
    var phase: int       // i32 counter or i64 phase
    var realPhase: real  // the phase of the floating-point form
    ghost var ticks: nat
    ghost var runs: nat

    ghost predicate Valid()
      reads this
    {
      && CanDownsample(spec)
      && if spec.isExactInteger then
           CounterAt(CounterPeriod(spec), ticks, runs, phase)
         else if spec.useInt64Phase then
           DownPhaseAt(spec.stepC, spec.stepD, ticks, runs, phase)
         else
           DownRealAt(spec, ticks, runs, realPhase)
    }

    constructor (spec: RateSchedule)
      requires CanDownsample(spec)
      ensures Valid() && this.spec == spec && ticks == runs == 0
    {
      this.spec := spec;
      phase, realPhase, ticks, runs := 0, 0.0, 0, 0;
    }

    method Tick() returns (ran: bool)
      requires Valid()
      modifies this
      ensures Valid()
      ensures ticks == old(ticks) + 1 && runs == old(runs) + (if ran then 1 else 0)
      ensures spec.isExactInteger || spec.useInt64Phase ==> runs == DownRuns(spec, ticks)
    {
      if spec.isExactInteger {
        ran := CounterTick();
      } else if spec.useInt64Phase {
        ran := PhasedTick();
      } else {
        ran := RealTick();
      }
      ticks := ticks + 1;
      if ran {
        runs := runs + 1;
      }
      if spec.isExactInteger {
        CounterRuns(CounterPeriod(spec), ticks, runs, phase);
      } else if spec.useInt64Phase {
        DownPhaseRuns(spec, ticks, runs, phase);
      }
    }

    method CounterTick() returns (ran: bool)
      requires CounterAt(CounterPeriod(spec), ticks, runs, phase)
      modifies this`phase
      ensures CounterAt(CounterPeriod(spec), ticks + 1, runs + (if ran then 1 else 0), phase)
    {
      ran := phase == 0;
      var inc := phase + 1;
      phase := if inc >= Wrap32(spec.intFactor) then 0 else inc;
    }

    method PhasedTick() returns (ran: bool)
      requires 0 < spec.stepC <= spec.stepD && DownPhaseAt(spec.stepC, spec.stepD, ticks, runs, phase)
      modifies this`phase
      ensures DownPhaseAt(spec.stepC, spec.stepD, ticks + 1, runs + (if ran then 1 else 0), phase)
    {
      ran := phase <= 0;
      var merged := if ran then phase + spec.stepD else phase;
      phase := merged - spec.stepC;
    }

    method RealTick() returns (ran: bool)
      requires 0.0 < spec.chainRate <= spec.domainRate && DownRealAt(spec, ticks, runs, realPhase)
      modifies this`realPhase
      ensures DownRealAt(spec, ticks + 1, runs + (if ran then 1 else 0), realPhase)
    {
      DownRealStep(spec, ticks, runs, realPhase);
      ran := realPhase <= PHASE_TOLERANCE;
      var merged := if ran then realPhase + spec.domainRate else realPhase;
      realPhase := merged - spec.chainRate;
    }
  }

  ghost predicate CounterAt(period: int, ticks: nat, runs: nat, phase: int) {
    && 0 <= phase < period
    && runs * period - ticks == if phase == 0 then 0 else period - phase
  }

  // The floating-point form, in exact arithmetic.
  ghost predicate DownRealAt(spec: RateSchedule, ticks: nat, runs: nat, phase: real) {
    && phase == runs as real * spec.domainRate - ticks as real * spec.chainRate
    && -spec.chainRate < phase <= PHASE_TOLERANCE + spec.domainRate - spec.chainRate
  }

  lemma DownRealStep(spec: RateSchedule, ticks: nat, runs: nat, phase: real)
    requires 0.0 < spec.chainRate <= spec.domainRate && DownRealAt(spec, ticks, runs, phase)
    ensures phase <= PHASE_TOLERANCE ==>
              DownRealAt(spec, ticks + 1, runs + 1, phase + spec.domainRate - spec.chainRate)
    ensures phase > PHASE_TOLERANCE ==> DownRealAt(spec, ticks + 1, runs, phase - spec.chainRate)
  {
    assert (runs + 1) as real * spec.domainRate == runs as real * spec.domainRate + spec.domainRate;
    assert (ticks + 1) as real * spec.chainRate == ticks as real * spec.chainRate + spec.chainRate;
  }

  ghost predicate DownPhaseAt(stepC: int, stepD: int, ticks: nat, runs: nat, phase: int) {
    && phase == runs * stepD - ticks * stepC
    && -stepC < phase <= stepD - stepC
  }

  lemma CounterRuns(period: int, ticks: nat, runs: nat, phase: int)
    requires period >= 1 && CounterAt(period, ticks, runs, phase)
    ensures runs == CeilDiv(ticks, period)
    ensures phase == ticks % period
  {
    CeilDivUnique(ticks, period, runs);
    if phase == 0 {
      DivModUnique(ticks, period, runs, 0);
    } else {
      assert ticks == (runs - 1) * period + phase;
      DivModUnique(ticks, period, runs - 1, phase);
    }
  }

  // The exact count: nothing drifts, whatever the number of ticks.
  lemma DownPhaseRuns(spec: RateSchedule, ticks: nat, runs: nat, phase: int)
    requires !spec.isExactInteger && 0 < spec.stepC <= spec.stepD
    requires DownPhaseAt(spec.stepC, spec.stepD, ticks, runs, phase)
    ensures runs == DownRuns(spec, ticks)
  {
    var c, d := spec.stepC, spec.stepD;
    assert (ticks - 1) * c == ticks * c - c;
    assert (runs - 1) * d == runs * d - d;
    DivModUnique((ticks - 1) * c, d, runs - 1, d - c - phase);
  }

  // Every stepD ticks hold exactly stepC runs, from any starting tick.
  lemma DownRunsPeriodic(spec: RateSchedule, n: nat)
    requires !spec.isExactInteger && 0 < spec.stepC <= spec.stepD
    ensures DownRuns(spec, n + spec.stepD) == DownRuns(spec, n) + spec.stepC
  {
    var c, d := spec.stepC, spec.stepD;
    assert (n + d - 1) * c == (n - 1) * c + c * d;
    DivModShift((n - 1) * c, d, c);
  }

  // The phase is back at 0 after every stepD ticks.
  lemma PhaseReturns(spec: RateSchedule, k: nat, runs: nat, phase: int)
    requires !spec.isExactInteger && 0 < spec.stepC <= spec.stepD
    requires DownPhaseAt(spec.stepC, spec.stepD, k * spec.stepD, runs, phase)
    ensures runs == k * spec.stepC && phase == 0
  {
    WholeRounds(runs, k, spec.stepC, spec.stepD);
    OnlyMultipleNearZero(runs - k * spec.stepC, spec.stepD);
  }

  lemma WholeRounds(runs: int, k: int, c: int, d: int)
    ensures runs * d - k * d * c == (runs - k * c) * d
  {
  }

  lemma OnlyMultipleNearZero(m: int, d: int)
    requires -d < m * d < d
    ensures m == 0
  {
    if m >= 1 {
      MulAtLeast(m, d);
    } else if m <= -1 {
      assert -m * d == -(m * d);
      MulAtLeast(-m, d);
    }
  }

  // A unit chain step fires on the same ticks as the counter form.
  lemma UnitStepIsCounter(phased: RateSchedule, counted: RateSchedule, n: nat)
    requires !phased.isExactInteger && phased.stepC == 1 && phased.stepD >= 1
    requires counted.isExactInteger && counted.intFactor == phased.stepD < 0x8000_0000
    ensures DownRuns(phased, n) == DownRuns(counted, n)
    ensures DownRuns(counted, n + 1) > DownRuns(counted, n) <==> n % counted.intFactor == 0
  {
    var d := phased.stepD;
    FloorIsCeiling(n, d);
    FloorIsCeiling(n + 1, d);
    ModNext(n - 1, d);
    var q, r := (n - 1) / d, (n - 1) % d;
    assert n - 1 == q * d + r;
    if r + 1 == d {
      assert n == (q + 1) * d;
      DivModUnique(n, d, q + 1, 0);
    } else {
      DivModUnique(n, d, q, r + 1);
    }
  }

  lemma FloorIsCeiling(n: int, d: int)
    requires d >= 1
    ensures (n - 1) / d + 1 == CeilDiv(n, d)
  {
    var q, r := (n - 1) / d, (n - 1) % d;
    assert n - 1 == q * d + r;
    assert (q + 1) * d == q * d + d;
    CeilDivUnique(n, d, q + 1);
  }

  // The counter keeps the intended period exactly when the factor survives
  // the cast to 32 bits.
  lemma CounterPeriodExactly(spec: RateSchedule)
    requires spec.isExactInteger && spec.intFactor >= 1
    ensures (forall n: nat :: DownRuns(spec, n) == CeilDiv(n, spec.intFactor))
            <==> spec.intFactor < 0x8000_0000
  {
    var p, f := CounterPeriod(spec), spec.intFactor;
    if f >= 0x8000_0000 {
      assert p < f;
      CeilDivUnique(p + 1, f, 1);
      assert p + 1 <= 2 * p < p + 1 + p;
      CeilDivUnique(p + 1, p, 2);
      assert DownRuns(spec, p + 1) != CeilDiv(p + 1, f);
    }
  }

  // Such factors are built: the ratio of two rates, when it is an integer.
  lemma IntegerRatesGiveFactor(spec: RateSchedule, scale: real, g: nat, factor: nat)
    requires Schedules(spec, scale, g) && factor >= 2
    requires (spec.domainRate == factor as real && spec.chainRate == 1.0)
             || (spec.domainRate == 1.0 && spec.chainRate == factor as real)
    ensures spec.isExactInteger && spec.intFactor == factor
  {
    var ratio := Ratio(spec.domainRate, spec.chainRate);
    assert ratio == factor as real by {
      assert ratio * 1.0 == factor as real;
    }
    assert Round(ratio) == factor;
  }

  // From a factor of 2^31 on, the counter lets the body run on every tick and
  // the fixed-count loop does not run it at all.
  lemma LargeFactorsFail(spec: RateSchedule, scale: real, g: nat, n: nat)
    requires Schedules(spec, scale, g)
    ensures spec.domainRate == 2147483648.0 && spec.chainRate == 1.0 ==>
              spec.isExactInteger && DownRuns(spec, n) == n
    ensures spec.domainRate == 1.0 && spec.chainRate == 2147483648.0 ==>
              spec.isExactInteger && UpRuns(spec, n) == 0
  {
    if (spec.domainRate == 2147483648.0 && spec.chainRate == 1.0)
       || (spec.domainRate == 1.0 && spec.chainRate == 2147483648.0)
    {
      IntegerRatesGiveFactor(spec, scale, g, 2147483648);
      assert Wrap32(spec.intFactor) == -0x8000_0000;
      CeilDivUnique(n, 1, n);
    }
  }

  // ------------------------------------------------------------- upsampling

  ghost predicate CanUpsample(spec: RateSchedule) {
    && spec.chainRate > 0.0 && spec.domainRate > 0.0
    && (!spec.isExactInteger && spec.useInt64Phase ==> spec.stepC > 0 && spec.stepD > 0)
  }

  // Runs of the body after n ticks, in the two integer forms.
  function UpRuns(spec: RateSchedule, n: nat): int
    requires !spec.isExactInteger ==> spec.stepD > 0
  {
    if spec.isExactInteger then n * (if Wrap32(spec.intFactor) < 0 then 0 else Wrap32(spec.intFactor))
    else CeilDiv(n * spec.stepC, spec.stepD)
  }

  lemma OneMoreTick(spec: RateSchedule, n: nat)
    requires spec.isExactInteger
    ensures UpRuns(spec, n + 1) == UpRuns(spec, n) + (if Wrap32(spec.intFactor) < 0 then 0 else Wrap32(spec.intFactor))
  {
  }

  // The fixed-count loop runs the factor's number of times in each tick
  // exactly when the factor survives the cast to 32 bits.
  lemma UpCountExactly(spec: RateSchedule)
    requires spec.isExactInteger && spec.intFactor >= 1
    ensures (forall n: nat :: UpRuns(spec, n) == n * spec.intFactor) <==> spec.intFactor < 0x8000_0000
  {
    if spec.intFactor >= 0x8000_0000 {
      assert UpRuns(spec, 1) != 1 * spec.intFactor;
    }
  }

  ghost predicate UpPhaseAt(stepC: int, stepD: int, ticks: nat, runs: nat, phase: int) {
    && phase == runs * stepD - ticks * stepC
    && 0 <= phase < stepD
  }

  ghost predicate UpRealAt(spec: RateSchedule, ticks: nat, runs: nat, phase: real) {
    && phase == runs as real * spec.domainRate - ticks as real * spec.chainRate
    && -PHASE_TOLERANCE <= phase
    && (phase < spec.domainRate - PHASE_TOLERANCE || phase <= 0.0)
  }

  class Upsampler {
    const spec: RateSchedule
    var phase: int       // i64 phase
    var realPhase: real  // the phase of the floating-point form
    ghost var ticks: nat
    ghost var runs: nat

    ghost predicate Valid()
      reads this
    {
      && CanUpsample(spec)
      && if spec.isExactInteger then
           runs == UpRuns(spec, ticks)
         else if spec.useInt64Phase then
           UpPhaseAt(spec.stepC, spec.stepD, ticks, runs, phase)
         else
           UpRealAt(spec, ticks, runs, realPhase)
    }

    constructor (spec: RateSchedule)
      requires CanUpsample(spec)
      ensures Valid() && this.spec == spec && ticks == runs == 0
    {
      this.spec := spec;
      phase, realPhase, ticks, runs := 0, 0.0, 0, 0;
    }

    // `count` runs of the body in this tick.
    method Tick() returns (count: nat)
      requires Valid()
      modifies this
      ensures Valid()
      ensures ticks == old(ticks) + 1 && runs == old(runs) + count
      ensures spec.isExactInteger || spec.useInt64Phase ==> runs == UpRuns(spec, ticks)
      ensures !spec.isExactInteger && spec.useInt64Phase ==>
                count == spec.stepC / spec.stepD || count == CeilDiv(spec.stepC, spec.stepD)
      ensures !spec.isExactInteger && spec.useInt64Phase && spec.stepD == 1 ==> count == spec.stepC
    {
      hide UpRuns, UpPhaseAt, UpRealAt;
      if spec.isExactInteger {
        count := FixedTick(Wrap32(spec.intFactor));
        OneMoreTick(spec, ticks);
      } else if spec.useInt64Phase {
        count := PhasedTick();
      } else {
        count := RealTick();
      }
      ticks, runs := ticks + 1, runs + count;
      if spec.useInt64Phase && !spec.isExactInteger {
        UpPhaseRuns(spec, ticks, runs, phase);
      }
    }

    method FixedTick(limit: int) returns (count: nat)
      ensures count == if limit < 0 then 0 else limit
    {
      count := 0;
      var idx := 0;
      while idx < limit
        invariant count == idx && (idx <= limit || idx == 0)
      {
        count := count + 1;
        idx := idx + 1;
      }
    }

    method PhasedTick() returns (count: nat)
      requires spec.stepC > 0 && spec.stepD > 0 && UpPhaseAt(spec.stepC, spec.stepD, ticks, runs, phase)
      modifies this`phase
      ensures UpPhaseAt(spec.stepC, spec.stepD, ticks + 1, runs + count, phase)
      ensures count == spec.stepC / spec.stepD || count == CeilDiv(spec.stepC, spec.stepD)
    {
      assert 0 <= phase < spec.stepD;
      hide CeilDiv, UpPhaseAt;
      var p := phase;
      ghost var before := p;
      count := 0;
      while p < spec.stepC
        invariant p == before + count * spec.stepD
        invariant 0 <= p < spec.stepC + spec.stepD
        decreases spec.stepC - p
      {
        assert (count + 1) * spec.stepD == count * spec.stepD + spec.stepD;
        count := count + 1;
        p := p + spec.stepD;
      }
      FloorOrCeiling(spec.stepC, spec.stepD, count, before, p - spec.stepC);
      UpPhaseLeaves(spec.stepC, spec.stepD, ticks, runs, count, before, p);
      phase := p - spec.stepC;
    }

    method RealTick() returns (count: nat)
      requires CanUpsample(spec) && !spec.isExactInteger && !spec.useInt64Phase
      requires UpRealAt(spec, ticks, runs, realPhase)
      modifies this`realPhase
      ensures UpRealAt(spec, ticks + 1, runs + count, realPhase)
    {
      var p := realPhase;
      ghost var before := p;
      count := 0;
      var threshold := spec.chainRate - PHASE_TOLERANCE;
      while p < threshold
        invariant p == (runs + count) as real * spec.domainRate - ticks as real * spec.chainRate
        invariant -PHASE_TOLERANCE <= p && (p < threshold + spec.domainRate || p == before)
        decreases (spec.chainRate - p) / spec.domainRate
      {
        OneStepLess(spec.chainRate - p, spec.domainRate);
        OneMore(runs + count, spec.domainRate);
        count := count + 1;
        p := p + spec.domainRate;
      }
      UpRealLeaves(spec, ticks, runs + count, p, before);
      realPhase := p - spec.chainRate;
    }
  }

  lemma UpPhaseLeaves(
      stepC: int, stepD: int, ticks: nat, runs: nat, count: nat, before: int, p: int)
    requires UpPhaseAt(stepC, stepD, ticks, runs, before)
    requires p == before + count * stepD && stepC <= p < stepC + stepD
    ensures UpPhaseAt(stepC, stepD, ticks + 1, runs + count, p - stepC)
  {
    assert (runs + count) * stepD == runs * stepD + count * stepD;
    assert (ticks + 1) * stepC == ticks * stepC + stepC;
  }

  // The phase p at which the loop stops leaves a remainder in range.
  lemma UpRealLeaves(spec: RateSchedule, ticks: nat, runs: nat, p: real, before: real)
    requires spec.chainRate > 0.0 && spec.domainRate > 0.0
    requires p == runs as real * spec.domainRate - ticks as real * spec.chainRate
    requires p >= spec.chainRate - PHASE_TOLERANCE
    requires p < spec.chainRate - PHASE_TOLERANCE + spec.domainRate || p == before
    requires before < spec.domainRate - PHASE_TOLERANCE || before <= 0.0
    ensures UpRealAt(spec, ticks + 1, runs, p - spec.chainRate)
  {
    OneMore(ticks, spec.chainRate);
  }

  lemma OneMore(k: nat, x: real)
    ensures (k + 1) as real * x == k as real * x + x
  {
  }

  lemma OneStepLess(x: real, d: real)
    requires d > 0.0 && x > 0.0
    ensures (x - d) / d == x / d - 1.0 && x / d > 0.0
  {
    var q, q' := x / d, (x - d) / d;
    assert q * d == x && q' * d == x - d;
    assert q <= 0.0 ==> q * d <= 0.0;
    RealFactor(q - 1.0, q', d);
  }

  lemma RealFactor(x: real, y: real, d: real)
    requires d > 0.0 && x * d == y * d
    ensures x == y
  {
    assert x < y ==> (y - x) * d > 0.0;
    assert y < x ==> (x - y) * d > 0.0;
  }

  lemma FloorOrCeiling(c: int, d: int, count: nat, before: int, after: int)
    requires d > 0 && 0 <= before < d && 0 <= after < d
    requires after == before + count * d - c
    ensures count == c / d || count == CeilDiv(c, d)
  {
    if count * d >= c {
      CeilDivUnique(c, d, count);
    } else {
      DivModUnique(c, d, count, before - after);
    }
  }

  lemma UpPhaseRuns(spec: RateSchedule, ticks: nat, runs: nat, phase: int)
    requires !spec.isExactInteger && 0 < spec.stepC && 0 < spec.stepD
    requires UpPhaseAt(spec.stepC, spec.stepD, ticks, runs, phase)
    ensures runs == UpRuns(spec, ticks)
  {
    CeilDivUnique(ticks * spec.stepC, spec.stepD, runs);
  }

  // -------------------------------------------------------------- no drift

  // The runs are within `slack` of the ideal n * chainRate / domainRate runs,
  // everything scaled by the domain rate: a slack of one domain rate is one run.
  ghost predicate Follows(domainRate: real, chainRate: real, n: nat, runs: nat, slack: real) {
    Distance(runs as real * domainRate, n as real * chainRate) <= slack
  }

  // The integer phase, from the two invariants kept by the ticks.
  ghost predicate WithinOneStep(spec: RateSchedule, n: nat, runs: nat) {
    -spec.stepD < runs * spec.stepD - n * spec.stepC < spec.stepD
  }

  lemma DownWithinOneStep(spec: RateSchedule, n: nat, runs: nat, phase: int)
    requires 0 < spec.stepC <= spec.stepD
    requires DownPhaseAt(spec.stepC, spec.stepD, n, runs, phase)
    ensures WithinOneStep(spec, n, runs) && runs <= n
  {
    var more := runs - n;
    MulAtMost(spec.stepC, spec.stepD, n);
    assert runs * spec.stepD == n * spec.stepD + more * spec.stepD;
    assert n * spec.stepC == spec.stepC * n;
    if more >= 1 {
      MulAtLeast(more, spec.stepD);
    }
  }

  lemma UpWithinOneStep(spec: RateSchedule, n: nat, runs: nat, phase: int)
    requires UpPhaseAt(spec.stepC, spec.stepD, n, runs, phase)
    ensures WithinOneStep(spec, n, runs)
  {
  }

  // The steps, scaled back up, are the scaled rates to within a tolerance.
  ghost predicate FollowsRates(spec: RateSchedule, scale: real, g: nat, tolerance: real) {
    && scale >= 1.0
    && Distance(spec.domainRate * scale, (spec.stepD * g) as real) <= tolerance
    && Distance(spec.chainRate * scale, (spec.stepC * g) as real) <= tolerance
  }

  lemma ReducedFollowsRates(spec: RateSchedule, scale: real, g: nat)
    requires ReducedSteps(spec, scale, g)
    ensures FollowsRates(spec, scale, g, SCALE_TOLERANCE)
    ensures spec.domainRate * scale == (spec.stepD * g) as real && spec.chainRate * scale == (spec.stepC * g) as real
            ==> FollowsRates(spec, scale, g, 0.0)
  {
    hide Round, Coprime;
  }

  // With the integer phase the runs follow the true rates to within one run,
  // plus the tolerance for every tick and run.
  lemma ScaledPhaseError(
      spec: RateSchedule, scale: real, g: nat, tolerance: real, n: nat, runs: nat)
    requires FollowsRates(spec, scale, g, tolerance) && WithinOneStep(spec, n, runs)
    ensures Follows(spec.domainRate, spec.chainRate, n, runs,
                    spec.domainRate + (runs as real * tolerance + n as real * tolerance + tolerance))
  {
    FromSteps(runs, n, spec.stepD, spec.stepC, g, spec.domainRate, spec.chainRate, scale, tolerance);
  }

  lemma FromSteps(
      runs: nat, n: nat, stepD: int, stepC: int, g: nat, d: real, c: real, scale: real, tolerance: real)
    requires -stepD <= runs * stepD - n * stepC <= stepD && scale >= 1.0
    requires Distance(d * scale, (stepD * g) as real) <= tolerance
    requires Distance(c * scale, (stepC * g) as real) <= tolerance
    ensures Follows(d, c, n, runs, d + (runs as real * tolerance + n as real * tolerance + tolerance))
  {
    ScaleSteps(stepD, stepC, g, runs, n);
    Perturbed(runs, n, stepD * g, stepC * g, d, c, scale, tolerance);
  }

  lemma ScaleSteps(stepD: int, stepC: int, g: nat, runs: nat, n: nat)
    requires -stepD <= runs * stepD - n * stepC <= stepD
    ensures -(stepD * g) <= runs * (stepD * g) - n * (stepC * g) <= stepD * g
  {
    var diff := runs * stepD - n * stepC;
    assert runs * (stepD * g) == runs * stepD * g;
    assert n * (stepC * g) == n * stepC * g;
    assert diff * g == runs * stepD * g - n * stepC * g;
    MulAtMost(diff, stepD, g);
    MulAtMost(-stepD, diff, g);
    assert (-stepD) * g == -(stepD * g);
  }

  // Runs that follow two integers follow any rates that scale to about them.
  lemma Perturbed(
      runs: nat, n: nat, dInt: int, cInt: int, d: real, c: real, scale: real, tolerance: real)
    requires scale >= 1.0 && -dInt <= runs * dInt - n * cInt <= dInt
    requires Distance(d * scale, dInt as real) <= tolerance && Distance(c * scale, cInt as real) <= tolerance
    ensures Follows(d, c, n, runs, d + (runs as real * tolerance + n as real * tolerance + tolerance))
  {
    hide Distance;
    var slack := Slack(runs, n, tolerance);
    var a, b := PerturbedScaled(runs, n, dInt, cInt, d * scale, c * scale, tolerance);
    Unscaled(d, c, scale, n, runs, a, b, slack);
  }

  lemma Slack(runs: nat, n: nat, tolerance: real) returns (slack: real)
    requires tolerance >= 0.0
    ensures slack == runs as real * tolerance + n as real * tolerance + tolerance
    ensures slack >= 0.0
  {
    NonNegative(runs as real, tolerance);
    NonNegative(n as real, tolerance);
    slack := runs as real * tolerance + n as real * tolerance + tolerance;
  }

  lemma PerturbedScaled(runs: nat, n: nat, dInt: int, cInt: int, d: real, c: real, tolerance: real)
    returns (a: real, b: real)
    requires -dInt <= runs * dInt - n * cInt <= dInt
    requires Distance(d, dInt as real) <= tolerance && Distance(c, cInt as real) <= tolerance
    ensures a == runs as real * d && b == n as real * c
    ensures Distance(a, b) <= d + (runs as real * tolerance + n as real * tolerance + tolerance)
  {
    a := Spread(runs, d, dInt, tolerance);
    b := Spread(n, c, cInt, tolerance);
  }

  lemma Spread(k: nat, x: real, xInt: int, tolerance: real) returns (product: real)
    requires Distance(x, xInt as real) <= tolerance
    ensures product == k as real * x
    ensures Distance(product, (k * xInt) as real) <= k as real * tolerance
  {
    product := k as real * x;
    var e, r := x - xInt as real, k as real;
    assert (k * xInt) as real == r * xInt as real;
    assert r * x == r * xInt as real + r * e;
    NonNegative(r, tolerance - e);
    NonNegative(r, tolerance + e);
    assert r * (tolerance - e) == r * tolerance - r * e;
    assert r * (tolerance + e) == r * tolerance + r * e;
  }

  lemma NonNegative(x: real, y: real)
    requires x >= 0.0 && y >= 0.0
    ensures x * y >= 0.0
  {
  }

  // Dividing a bound on scaled quantities by the scale.
  lemma Unscaled(d: real, c: real, scale: real, n: nat, runs: nat, a: real, b: real, slack: real)
    requires scale >= 1.0 && slack >= 0.0
    requires a == runs as real * (d * scale) && b == n as real * (c * scale)
    requires Distance(a, b) <= d * scale + slack
    ensures Follows(d, c, n, runs, d + slack)
  {
    var e := runs as real * d - n as real * c;
    assert e * scale == a - b by {
      assert runs as real * d * scale == a;
      assert n as real * c * scale == b;
    }
    NonNegative(slack, scale - 1.0);
    assert (d + slack) * scale == d * scale + slack + slack * (scale - 1.0);
    Cancel(e, d + slack, scale);
    Cancel(-e, d + slack, scale);
  }

  lemma Cancel(x: real, y: real, scale: real)
    requires scale > 0.0 && x * scale <= y * scale
    ensures x <= y
  {
    assert x > y ==> (x - y) * scale > 0.0;
    assert (x - y) * scale == x * scale - y * scale;
  }

  // The counter form, for a downsampling schedule whose factor fits 32 bits.
  lemma CounterError(spec: RateSchedule, scale: real, g: nat, n: nat, runs: nat, phase: int)
    requires Schedules(spec, scale, g) && spec.IsDownsample() && spec.isExactInteger
    requires !Trivial(spec.domainRate, spec.chainRate) && spec.intFactor < 0x8000_0000
    requires CounterAt(CounterPeriod(spec), n, runs, phase)
    ensures Follows(spec.domainRate, spec.chainRate, n, runs,
                    spec.domainRate + (runs as real * FACTOR_TOLERANCE + FACTOR_TOLERANCE) * spec.chainRate)
  {
    var ratio := Ratio(spec.domainRate, spec.chainRate);
    assert CounterPeriod(spec) == spec.intFactor;
    FollowsRatio(spec.intFactor, n, runs, phase, ratio, spec.domainRate, spec.chainRate,
                 FACTOR_TOLERANCE);
  }

  lemma FollowsRatio(
      f: int, n: nat, runs: nat, phase: int, ratio: real, d: real, c: real, tolerance: real)
    requires CounterAt(f, n, runs, phase)
    requires Distance(ratio, f as real) <= tolerance
    requires c > 0.0 && ratio * c == d
    ensures Follows(d, c, n, runs, d + (runs as real * tolerance + tolerance) * c)
  {
    hide CounterAt;
    var product := CounterFollows(f, n, runs, phase, ratio, tolerance);
    RatioError(runs, n, product, ratio, runs as real * tolerance + tolerance, d, c);
  }

  lemma CounterFollows(
      f: int, n: nat, runs: nat, phase: int, ratio: real, tolerance: real) returns (product: real)
    requires CounterAt(f, n, runs, phase) && Distance(ratio, f as real) <= tolerance
    ensures product == runs as real * ratio
    ensures Distance(product, n as real) <= ratio + (runs as real * tolerance + tolerance)
  {
    product := Spread(runs, ratio, f, tolerance);
  }

  // The same bound with the rates' ratio in place of the rates.
  lemma RatioError(runs: nat, n: nat, product: real, ratio: real, slack: real, d: real, c: real)
    requires c > 0.0 && ratio * c == d && product == runs as real * ratio
    requires Distance(product, n as real) <= ratio + slack
    ensures Follows(d, c, n, runs, d + slack * c)
  {
    var bound := ScaledDistance(product, n as real, ratio + slack, c);
    Regroup(product, runs as real, ratio, c, d);
    assert bound == d + slack * c;
    FromProducts(runs, n, d, c, product * c, n as real * c, bound);
  }

  // Rates that differ by less than the tolerance run once on every tick.
  lemma NearlyEqualError(spec: RateSchedule, scale: real, g: nat, n: nat)
    requires Schedules(spec, scale, g) && Trivial(spec.domainRate, spec.chainRate)
    requires spec.domainRate > 0.0 && spec.chainRate > 0.0
    ensures DownRuns(spec, n) == UpRuns(spec, n) == n
    ensures Follows(spec.domainRate, spec.chainRate, n, n, n as real * FACTOR_TOLERANCE)
  {
    hide Schedules, CeilDiv;
    TrivialFactor(spec, scale, g);
    CeilDivUnique(n, 1, n);
    TimesCount(n, spec.domainRate, spec.chainRate, FACTOR_TOLERANCE);
  }

  lemma TrivialFactor(spec: RateSchedule, scale: real, g: nat)
    requires Schedules(spec, scale, g) && Trivial(spec.domainRate, spec.chainRate)
    ensures spec.isExactInteger && spec.intFactor == 1
  {
    hide SchedulesFraction;
  }

  lemma TimesCount(n: nat, x: real, y: real, bound: real)
    requires Distance(x, y) <= bound
    ensures Distance(n as real * x, n as real * y) <= n as real * bound
  {
    if n > 0 {
      var _ := ScaledDistance(x, y, bound, n as real);
      Commutes(x, n as real);
      Commutes(y, n as real);
      Commutes(bound, n as real);
    }
  }

  lemma Commutes(x: real, y: real)
    ensures x * y == y * x
  {
  }

  // The fixed-count upsampling loop.
  lemma FixedUpsamplingError(spec: RateSchedule, scale: real, g: nat, n: nat)
    requires Schedules(spec, scale, g) && spec.IsUpsample() && spec.isExactInteger
    requires !Trivial(spec.domainRate, spec.chainRate) && spec.intFactor < 0x8000_0000
    ensures UpRuns(spec, n) == n * spec.intFactor >= 0
    ensures Follows(spec.domainRate, spec.chainRate, n, UpRuns(spec, n),
                    n as real * FACTOR_TOLERANCE * spec.domainRate)
  {
    MulAtMost(0, n, spec.intFactor);
    FixedFollows(spec.intFactor, n, Ratio(spec.domainRate, spec.chainRate), spec.domainRate, spec.chainRate,
                 FACTOR_TOLERANCE);
  }

  lemma FixedFollows(f: nat, n: nat, ratio: real, d: real, c: real, tolerance: real)
    requires Distance(ratio, f as real) <= tolerance
    requires d > 0.0 && ratio * d == c
    ensures n * f >= 0 && Follows(d, c, n, n * f, n as real * tolerance * d)
  {
    MulAtMost(0, n, f);
    var runs: nat := n * f;
    var product := Spread(n, ratio, f, tolerance);
    var bound := ScaledDistance(runs as real, product, n as real * tolerance, d);
    Regroup(product, n as real, ratio, d, c);
    FromProducts(runs, n, d, c, runs as real * d, product * d, bound);
  }

  lemma FromProducts(runs: nat, n: nat, d: real, c: real, a: real, b: real, bound: real)
    requires a == runs as real * d && b == n as real * c && Distance(a, b) <= bound
    ensures Follows(d, c, n, runs, bound)
  {
  }

  lemma Regroup(product: real, k: real, ratio: real, x: real, y: real)
    requires product == k * ratio && ratio * x == y
    ensures product * x == k * y
  {
    assert k * ratio * x == k * (ratio * x);
  }

  lemma ScaledDistance(x: real, y: real, bound: real, c: real) returns (scaled: real)
    requires Distance(x, y) <= bound && c > 0.0
    ensures scaled == bound * c && Distance(x * c, y * c) <= scaled
  {
    scaled := bound * c;
    TimesRate(x - y, bound, c);
    assert (x - y) * c == x * c - y * c;
  }

  lemma TimesRate(x: real, bound: real, c: real)
    requires -bound <= x <= bound && c > 0.0
    ensures -(bound * c) <= x * c <= bound * c
  {
    assert (bound - x) * c >= 0.0;
    assert (bound + x) * c >= 0.0;
  }

  // The floating-point form, in real arithmetic: within one run for ever.
  lemma RealPhaseError(spec: RateSchedule, ticks: nat, runs: nat, phase: real)
    requires 0.0 < spec.chainRate <= spec.domainRate && DownRealAt(spec, ticks, runs, phase)
    ensures Follows(spec.domainRate, spec.chainRate, ticks, runs, spec.domainRate + PHASE_TOLERANCE)
  {
    assert -spec.domainRate <= phase <= spec.domainRate + PHASE_TOLERANCE;
  }

  lemma RealUpsamplingError(spec: RateSchedule, ticks: nat, runs: nat, phase: real)
    requires spec.domainRate > 0.0 && UpRealAt(spec, ticks, runs, phase)
    ensures Follows(spec.domainRate, spec.chainRate, ticks, runs,
                    if spec.domainRate > PHASE_TOLERANCE then spec.domainRate else PHASE_TOLERANCE)
  {
    assert -PHASE_TOLERANCE <= phase && (phase <= spec.domainRate || phase <= PHASE_TOLERANCE);
  }

  // Whatever `Build` returns for a downsampling pair can drive the emitted
  // code, and its integer phase never leaves the 64-bit range.
  lemma BuiltCanDownsample(spec: RateSchedule, scale: real, g: nat)
    requires Schedules(spec, scale, g) && spec.IsDownsample()
    ensures CanDownsample(spec)
  {
    if !spec.isExactInteger && spec.useInt64Phase {
      StepsKeepOrder(spec, scale, g);
    }
  }

  lemma BuiltCanUpsample(spec: RateSchedule, scale: real, g: nat)
    requires Schedules(spec, scale, g) && spec.IsUpsample()
    ensures CanUpsample(spec)
  {
  }

  lemma StepsKeepOrder(spec: RateSchedule, scale: real, g: nat)
    requires ReducedSteps(spec, scale, g) && spec.chainRate <= spec.domainRate
    ensures 0 < spec.stepC <= spec.stepD
  {
    ScaleKeepsOrder(spec.chainRate, spec.domainRate, scale);
    RoundMonotone(spec.chainRate * scale, spec.domainRate * scale);
    CancelInt(spec.stepC, spec.stepD, g);
  }

  lemma CancelInt(x: int, y: int, g: nat)
    requires g > 0 && x * g <= y * g
    ensures x <= y
  {
    var excess := x - y;
    assert excess * g == x * g - y * g;
    if excess >= 1 {
      MulAtLeast(excess, g);
    }
  }

  lemma ScaleKeepsOrder(x: real, y: real, scale: real)
    requires x <= y && scale >= 0.0
    ensures x * scale <= y * scale
  {
    NonNegative(y - x, scale);
  }

  lemma RoundMonotone(x: real, y: real)
    requires x <= y
    ensures Round(x) <= Round(y)
  {
  }

  lemma PhasesFit64Bits(spec: RateSchedule, scale: real, g: nat, n: nat, runs: nat, phase: int)
    requires ReducedSteps(spec, scale, g)
    requires DownPhaseAt(spec.stepC, spec.stepD, n, runs, phase) || UpPhaseAt(spec.stepC, spec.stepD, n, runs, phase)
    ensures -1000000000000 < phase <= phase + spec.stepD <= 2000000000000
  {
    StepsAreSmall(spec, scale, g);
  }
}
