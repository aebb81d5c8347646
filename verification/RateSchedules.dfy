// Multi-rate scheduling: choosing the phase arithmetic for two rates, and the
// phase code run on every domain tick. Rates are real numbers here; the
// code holds them as doubles.
module RateSchedules {
  import opened Arith

  datatype RateSchedule = RateSchedule(
    domainRate: real,
    chainRate: real,
    isExactInteger: bool,
    intFactor: int,
    useInt64Phase: bool,
    stepD: int,
    stepC: int)
  {
    predicate IsDownsample() {
      domainRate > 0.0 && chainRate > 0.0 && chainRate < domainRate
    }

    predicate IsUpsample() {
      domainRate > 0.0 && chainRate > 0.0 && chainRate > domainRate
    }

    predicate NeedsPersistentPhaseState() {
      if domainRate <= 0.0 || chainRate <= 0.0 || domainRate == chainRate then false
      else !(IsUpsample() && isExactInteger)
    }
  }

  const FACTOR_TOLERANCE: real := 0.000000001
  const SCALE_TOLERANCE: real := 0.000001
  const PHASE_TOLERANCE: real := 0.000000001
  const MAX_INT_RATE: real := 1000000000000.0
  const SCALES: seq<real> := [1.0, 1000.0, 1000000.0]

  // ------------------------------------------------------- integer arithmetic

  predicate Divides(k: nat, x: nat)
    requires k > 0
  {
    x % k == 0
  }

  ghost predicate Coprime(a: nat, b: nat) {
    forall k: nat :: k > 1 && Divides(k, a) ==> !Divides(k, b)
  }

  function Gcd(a: nat, b: nat): (g: nat)
    ensures a > 0 || b > 0 ==> g > 0
    decreases b
  {
    if b == 0 then a else Gcd(b, a % b)
  }

  lemma DividesCombination(k: nat, x: int, y: int, m: int)
    requires k > 0 && x % k == 0 && y % k == 0
    ensures (x + m * y) % k == 0
  {
    assert m * y == m * (y / k) * k;
    DivModShift(x, k, m * (y / k));
  }

  lemma {:induction false} GcdDivides(a: nat, b: nat)
    requires a > 0 || b > 0
    ensures Divides(Gcd(a, b), a) && Divides(Gcd(a, b), b)
    decreases b
  {
    if b > 0 {
      GcdDivides(b, a % b);
      DividesCombination(Gcd(a, b), a % b, b, a / b);
      assert a == a % b + a / b * b;
    } else {
      DivModUnique(a, a, 1, 0);
      DivModUnique(0, a, 0, 0);
    }
  }

  lemma {:induction false} CommonDivisorDividesGcd(a: nat, b: nat, k: nat)
    requires k > 0 && Divides(k, a) && Divides(k, b)
    ensures Divides(k, Gcd(a, b))
    decreases b
  {
    if b > 0 {
      DividesCombination(k, a, b, -(a / b));
      assert a + -(a / b) * b == a % b;
      CommonDivisorDividesGcd(b, a % b, k);
    }
  }

  // Dividing both steps by their gcd leaves no common divisor.
  lemma ReducedAreCoprime(a: nat, b: nat)
    requires a > 0 && b > 0
    ensures var g := Gcd(a, b);
            && a / g > 0 && b / g > 0 && a / g * g == a && b / g * g == b
            && Coprime(a / g, b / g)
  {
    var g := Gcd(a, b);
    GcdDivides(a, b);
    Quotient(a, g);
    Quotient(b, g);
    forall k: nat | k > 1 && Divides(k, a / g)
      ensures !Divides(k, b / g)
    {
      if Divides(k, b / g) {
        ScaledDivides(a, g, k);
        ScaledDivides(b, g, k);
        CommonDivisorDividesGcd(a, b, k * g);
        MulAtLeast(k - 1, g);
        assert k * g == (k - 1) * g + g;
        DivModUnique(g, k * g, 0, g);
      }
    }
  }

  lemma Quotient(a: nat, g: nat)
    requires a > 0 && g > 0 && Divides(g, a)
    ensures a / g > 0 && a / g * g == a
  {
    var q := a / g;
    assert a == q * g;
    if q <= 0 {
      MulAtMost(q, 0, g);
    }
  }

  lemma ScaledDivides(a: nat, g: nat, k: nat)
    requires g > 0 && k > 0 && a / g * g == a && Divides(k, a / g)
    ensures k * g > 0 && Divides(k * g, a)
  {
    MulAtLeast(k, g);
    var q := a / g / k;
    assert a / g == q * k;
    assert a == q * k * g == q * (k * g);
    DivModUnique(a, k * g, q, 0);
  }

  // Rounding to the nearest integer, halves away from zero.
  function Round(x: real): (n: int)
    ensures -0.5 <= x - n as real <= 0.5
  {
    if x >= 0.0 then (x + 0.5).Floor else -((-x + 0.5).Floor)
  }

  // Halves go away from zero, on both sides alike.
  lemma RoundsHalvesAway(x: real)
    ensures Round(-x) == -Round(x)
    ensures x >= 0.0 ==> x - 0.5 < Round(x) as real <= x + 0.5
  {
  }

  function Distance(x: real, y: real): (d: real)
    ensures d >= 0.0
  {
    if x < y then y - x else x - y
  }

  // ----------------------------------------------------------- the schedule

  predicate Trivial(domainRate: real, chainRate: real) {
    domainRate <= 0.0 || chainRate <= 0.0 || Distance(domainRate, chainRate) < FACTOR_TOLERANCE
  }

  function Ratio(domainRate: real, chainRate: real): (ratio: real)
    requires domainRate > 0.0 && chainRate > 0.0
    ensures ratio >= 1.0
    ensures chainRate > domainRate ==> ratio * domainRate == chainRate
    ensures chainRate <= domainRate ==> ratio * chainRate == domainRate
  {
    RatioAtLeastOne(if chainRate > domainRate then domainRate else chainRate,
                    if chainRate > domainRate then chainRate else domainRate);
    if chainRate > domainRate then chainRate / domainRate else domainRate / chainRate
  }

  lemma RatioAtLeastOne(x: real, y: real)
    requires 0.0 < x <= y
    ensures y / x >= 1.0
  {
    var ratio := y / x;
    assert ratio * x == y;
    assert ratio < 1.0 ==> (1.0 - ratio) * x > 0.0;
  }

  predicate NearInteger(ratio: real) {
    Distance(ratio, Round(ratio) as real) < FACTOR_TOLERANCE
  }

  // Two scaled rates are integers, up to the tolerance.
  predicate NearIntegers(d: real, c: real) {
    && d < MAX_INT_RATE && c < MAX_INT_RATE
    && Round(d) > 0 && Round(c) > 0
    && Distance(d, Round(d) as real) < SCALE_TOLERANCE
    && Distance(c, Round(c) as real) < SCALE_TOLERANCE
  }

  predicate Scalable(domainRate: real, chainRate: real, scale: real) {
    NearIntegers(domainRate * scale, chainRate * scale)
  }

  // What a schedule promises about its two rates. `scale` and `g` witness the
  // integer phase: the steps are the scaled rates divided by g.
  ghost predicate Schedules(spec: RateSchedule, scale: real, g: nat) {
    var d, c := spec.domainRate, spec.chainRate;
    if Trivial(d, c) then
      spec.isExactInteger && spec.useInt64Phase && spec.intFactor == 1 && spec.stepD == spec.stepC == 1
    else if NearInteger(Ratio(d, c)) then
      && spec.isExactInteger && spec.useInt64Phase
      && spec.intFactor == Round(Ratio(d, c)) >= 1
      && (c < d ==> spec.stepD == spec.intFactor && spec.stepC == 1)
      && (d < c ==> spec.stepC == spec.intFactor && spec.stepD == 1)
    else
      SchedulesFraction(spec, scale, g)
  }

  ghost predicate SchedulesFraction(spec: RateSchedule, scale: real, g: nat) {
    && !spec.isExactInteger
    && (spec.useInt64Phase <==> exists i :: 0 <= i < |SCALES| && Scalable(spec.domainRate, spec.chainRate, SCALES[i]))
    && (spec.useInt64Phase ==>
          ReducedSteps(spec, scale, g) && FirstScalable(spec.domainRate, spec.chainRate, scale))
  }

  ghost predicate ReducedSteps(spec: RateSchedule, scale: real, g: nat) {
    && scale in SCALES && Scalable(spec.domainRate, spec.chainRate, scale)
    && AreReduced(Round(spec.domainRate * scale), Round(spec.chainRate * scale), g, spec.stepD, spec.stepC)
  }

  // The smallest of the scales that makes both rates integers.
  ghost predicate FirstScalable(domainRate: real, chainRate: real, scale: real) {
    exists i :: FirstScalableAt(domainRate, chainRate, scale, i)
  }

  ghost predicate FirstScalableAt(domainRate: real, chainRate: real, scale: real, i: int) {
    && 0 <= i < |SCALES| && scale == SCALES[i] && Scalable(domainRate, chainRate, scale)
    && forall k :: 0 <= k < i ==> !Scalable(domainRate, chainRate, SCALES[k])
  }

  ghost predicate AreReduced(d: nat, c: nat, g: nat, stepD: int, stepC: int) {
    && g > 0 && stepD > 0 && stepC > 0
    && stepD * g == d && stepC * g == c
    && Coprime(stepD, stepC)
  }

  // The first scale that makes both rates integers, and the reduced steps.
  method ScaledSteps(domainRate: real, chainRate: real)
    returns (found: bool, stepD: int, stepC: int, ghost scale: real, ghost g: nat)
    ensures found <==> exists i :: 0 <= i < |SCALES| && Scalable(domainRate, chainRate, SCALES[i])
    ensures found ==>
              && scale in SCALES && Scalable(domainRate, chainRate, scale)
              && FirstScalable(domainRate, chainRate, scale)
              && AreReduced(Round(domainRate * scale), Round(chainRate * scale), g, stepD, stepC)
  {
    hide NearIntegers, AreReduced;
    found, stepD, stepC, scale, g := false, 0, 0, 1.0, 1;
    for i := 0 to |SCALES|
      invariant forall k :: 0 <= k < i ==> !Scalable(domainRate, chainRate, SCALES[k])
    {
      scale := SCALES[i];
      found, stepD, stepC, g := ReducedAt(domainRate * SCALES[i], chainRate * SCALES[i]);
      if found {
        assert FirstScalableAt(domainRate, chainRate, scale, i);
        return;
      }
    }
  }

  method ReducedAt(dScaled: real, cScaled: real) returns (found: bool, stepD: int, stepC: int, ghost g: nat)
    ensures found <==> NearIntegers(dScaled, cScaled)
    ensures found ==> AreReduced(Round(dScaled), Round(cScaled), g, stepD, stepC)
  {
    found, stepD, stepC, g := false, 0, 0, 1;
    if dScaled < MAX_INT_RATE && cScaled < MAX_INT_RATE {
      var dInt, cInt := Round(dScaled), Round(cScaled);
      if dInt > 0 && cInt > 0 && Distance(dScaled, dInt as real) < SCALE_TOLERANCE
         && Distance(cScaled, cInt as real) < SCALE_TOLERANCE
      {
        ReducedAreCoprime(dInt, cInt);
        var divisor := Gcd(dInt, cInt);
        found, stepD, stepC, g := true, dInt / divisor, cInt / divisor, divisor;
      }
    }
  }

  method Build(domainRate: real, chainRate: real)
    returns (spec: RateSchedule, ghost scale: real, ghost g: nat)
    ensures spec.domainRate == domainRate && spec.chainRate == chainRate
    ensures Schedules(spec, scale, g)
  {
    scale, g := 1.0, 1;
    spec := RateSchedule(domainRate, chainRate, false, 1, true, 1, 1);
    if domainRate <= 0.0 || chainRate <= 0.0 || Distance(domainRate, chainRate) < FACTOR_TOLERANCE {
      spec := spec.(isExactInteger := true, intFactor := 1);
      return;
    }
    var ratio := Ratio(domainRate, chainRate);
    var rounded := Round(ratio);
    if rounded >= 1 && Distance(ratio, rounded as real) < FACTOR_TOLERANCE {
      spec := spec.(isExactInteger := true, intFactor := rounded, useInt64Phase := true,
                    stepD := if chainRate < domainRate then rounded else 1,
                    stepC := if chainRate > domainRate then rounded else 1);
      return;
    }

    spec, scale, g := BuildFractional(domainRate, chainRate);
  }

  method BuildFractional(domainRate: real, chainRate: real)
    returns (spec: RateSchedule, ghost scale: real, ghost g: nat)
    ensures spec.domainRate == domainRate && spec.chainRate == chainRate
    ensures SchedulesFraction(spec, scale, g)
  {
    hide FirstScalable, Scalable, AreReduced;
    spec := RateSchedule(domainRate, chainRate, false, 1, true, 1, 1);
    var canUseInt64, scaledD, scaledC;
    canUseInt64, scaledD, scaledC, scale, g := ScaledSteps(domainRate, chainRate);
    if canUseInt64 {
      spec := spec.(useInt64Phase := true, stepD := scaledD, stepC := scaledC);
    } else {
      spec := spec.(useInt64Phase := false);
    }
  }

  // A schedule keeps a phase between ticks exactly if the rates differ, unless
  // the chain is faster by a whole factor, for which a loop of fixed length
  // needs none. Rates that differ are either slower or faster.
  lemma PhaseIsKeptExactly(spec: RateSchedule, scale: real, g: nat)
    requires Schedules(spec, scale, g)
    ensures var d, c := spec.domainRate, spec.chainRate;
            && (spec.IsDownsample() <==> 0.0 < c < d) && (spec.IsUpsample() <==> 0.0 < d < c)
            && (spec.NeedsPersistentPhaseState() <==>
                0.0 < c < d || (0.0 < d < c && !Trivial(d, c) && !NearInteger(Ratio(d, c))))
  {
  }

  // The steps fit far inside 64 bits.
  lemma StepsAreSmall(spec: RateSchedule, scale: real, g: nat)
    requires ReducedSteps(spec, scale, g)
    ensures 0 < spec.stepD <= 1000000000000 && 0 < spec.stepC <= 1000000000000
  {
    var d, c := Round(spec.domainRate * scale), Round(spec.chainRate * scale);
    assert d <= 1000000000000 && c <= 1000000000000;
    MulAtMost(1, g, spec.stepD);
    MulAtMost(1, g, spec.stepC);
    assert 1 * spec.stepD == spec.stepD && g * spec.stepD == d;
    assert 1 * spec.stepC == spec.stepC && g * spec.stepC == c;
  }
}
