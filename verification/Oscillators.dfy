/**
 The calibration line on an oscillator whose zero is not known: what its error counts at the two ends of the
 DAC range say about its gain and its zero, and how near to that zero the DAC is brought.
 */
module Oscillators {
  import opened CalibrationLine

  /** An error counted over a second, times the gain, is the distance of the DAC count from the zero. */
  datatype Oscillator = Oscillator(gain: real, zero: real)

  /** What measurements may be off by, in DAC counts, for the tuning to work. */
  const OFF_MAX := 1500.0

  /** The error counted over some seconds at a DAC count shows the distance from the zero, up to `off`. */
  predicate Shows(o: Oscillator, error: int, seconds: real, dac: Dac, off: real) {
    Abs(error as real * o.gain - seconds * (dac as real - o.zero)) <= off
  }

  /** The two coarse errors were counted at the two ends of the DAC range, around the oscillator's zero. */
  predicate EndsShown(o: Oscillator, x0: int, x1: int, off: real) {
    && 0.0 <= off <= OFF_MAX && DAC_MIN as real <= o.zero <= DAC_MAX as real
    && Shows(o, x0, 1.0, DAC_MIN, off) && Shows(o, x1, 1.0, DAC_MAX, off)
  }

  const RANGE := (DAC_MAX - DAC_MIN) as real

  /** What the gain makes of the two coarse errors, `above` being how far the zero lies above the lower end. */
  predicate EndsAround(end0: real, end1: real, above: real, off: real) {
    && 0.0 <= off <= OFF_MAX && 0.0 <= above <= RANGE
    && Abs(end0 + above) <= off && Abs(end1 + above - RANGE) <= off
  }

  lemma DifferenceTimes(a: real, b: real, c: real)
    ensures (a - b) * c == a * c - b * c
  {
  }

  lemma SumTimes(a: real, b: real, c: real)
    ensures a * (b + c) == a * b + a * c
  {
  }

  lemma ProductAtMost(a: real, b: real, bound: real)
    requires Abs(b) <= bound
    ensures Abs(a * b) <= Abs(a) * bound
    ensures a >= 0.0 ==> Abs(a * b) <= a * bound
  {
    if a >= 0.0 {
      assert -bound * a <= b * a <= bound * a;
    } else {
      assert -bound * -a <= b * -a <= bound * -a;
    }
  }

  /** The slope scales errors like the gain, by the range over what the gain makes of their difference. */
  lemma SlopeScales(gain: real, s: real, r0: real, r1: real, e: real, end0: real, end1: real)
    requires s * (r1 - r0) == RANGE && end0 == r0 * gain && end1 == r1 * gain
    ensures e * s * (end1 - end0) == e * gain * RANGE
  {
    DifferenceTimes(r1, r0, gain);
    assert e * s * ((r1 - r0) * gain) == e * gain * (s * (r1 - r0));
  }

  /** Scaled from right by the range over a span near it. */
  predicate Scales(got: real, right: real, span: real) {
    got * span == right * RANGE && Abs(span - RANGE) <= 3000.0
  }

  lemma Scaled(got: real, right: real, span: real)
    requires Scales(got, right, span)
    ensures WithinSixteenth(got, right)
  {
    var extra := span - RANGE;
    SumTimes(got, RANGE, extra);
    ProductAtMost(got, extra, 3000.0);
    Solved(got, right, got * extra);
  }

  lemma Solved(got: real, right: real, rest: real)
    requires got * RANGE + rest == right * RANGE && Abs(rest) <= Abs(got) * 3000.0
    ensures WithinSixteenth(got, right)
  {
  }

  /** The two products at the ends, and what the slope makes of the first: their weighted mean is the miss. */
  lemma Weighted(got: real, end0: real, end1: real, above: real, off: real)
    requires EndsAround(end0, end1, above, off)
    requires got * (end1 - end0) == end0 * RANGE
    ensures Abs(got + above) <= 1.0625 * off
  {
    var off0, off1 := end0 + above, end1 + above - RANGE;
    Regrouped(got, end0, end1, above, got + above, off1 - off0, RANGE - above, off0, off1);
    WeightedMean(got + above, off1 - off0, RANGE - above, above, off0, off1, off);
  }

  lemma Regrouped(got: real, end0: real, end1: real, above: real,
                  miss: real, extra: real, below: real, off0: real, off1: real)
    requires off0 == end0 + above && off1 == end1 + above - RANGE && got * (end1 - end0) == end0 * RANGE
    requires miss == got + above && extra == off1 - off0 && below == RANGE - above
    ensures miss * RANGE + miss * extra == below * off0 + above * off1
  {
    assert RANGE + extra == end1 - end0;
    SumTimes(miss, RANGE, extra);
  }

  lemma WeightedMean(miss: real, extra: real, below: real, above: real, off0: real, off1: real, off: real)
    requires 0.0 <= below == RANGE - above && 0.0 <= above && Abs(extra) <= 3000.0
    requires Abs(off0) <= off && Abs(off1) <= off
    requires miss * RANGE + miss * extra == below * off0 + above * off1
    ensures Abs(miss) <= 1.0625 * off
  {
    PartsOf(miss, extra, below, above, off0, off1, off);
    Bounded(miss, miss * extra, below * off0, above * off1, below * off, above * off, off);
  }

  /** The products of the weighted mean, each with its bound. */
  predicate Parts(miss: real, rest: real, low: real, high: real, lowMost: real, highMost: real, off: real) {
    && miss * RANGE + rest == low + high && Abs(rest) <= Abs(miss) * 3000.0
    && Abs(low) <= lowMost && Abs(high) <= highMost && lowMost + highMost == RANGE * off
  }

  lemma PartsOf(miss: real, extra: real, below: real, above: real, off0: real, off1: real, off: real)
    requires 0.0 <= below == RANGE - above && 0.0 <= above && Abs(extra) <= 3000.0
    requires Abs(off0) <= off && Abs(off1) <= off
    requires miss * RANGE + miss * extra == below * off0 + above * off1
    ensures Parts(miss, miss * extra, below * off0, above * off1, below * off, above * off, off)
  {
    ProductAtMost(miss, extra, 3000.0);
    ProductAtMost(below, off0, off);
    ProductAtMost(above, off1, off);
    DifferenceTimes(RANGE, above, off);
  }

  lemma Bounded(miss: real, rest: real, low: real, high: real, lowMost: real, highMost: real, off: real)
    requires Parts(miss, rest, low, high, lowMost, highMost, off)
    ensures Abs(miss) <= 1.0625 * off
  {
  }

  /** The line of slope s through the two ends, as the oscillator shows them. */
  predicate LineShown(gain: real, s: real, r0: real, r1: real, above: real, off: real) {
    s * (r1 - r0) == RANGE && EndsAround(r0 * gain, r1 * gain, above, off)
  }

  predicate WithinSixteenth(got: real, right: real) {
    Abs(got - right) <= Abs(right) / 16.0
  }

  lemma Proportional(gain: real, s: real, r0: real, r1: real, e: real, above: real, off: real)
    requires LineShown(gain, s, r0, r1, above, off)
    ensures Scales(e * s, e * gain, r1 * gain - r0 * gain)
  {
    SlopeScales(gain, s, r0, r1, e, r0 * gain, r1 * gain);
    Spans(r0 * gain, r1 * gain, above, off);
  }

  lemma Spans(end0: real, end1: real, above: real, off: real)
    requires EndsAround(end0, end1, above, off)
    ensures Abs(end1 - end0 - RANGE) <= 3000.0
  {
  }

  /** What the slope makes of the first error misses the zero by little. */
  predicate ZeroNear(got: real, above: real, off: real) {
    Abs(got + above) <= 1.0625 * off
  }

  lemma SlopeIsNear(gain: real, s: real, r0: real, r1: real, error: int, above: real, off: real)
    requires LineShown(gain, s, r0, r1, above, off)
    ensures WithinSixteenth(InDacCounts(error, s), error as real * gain)
  {
    Proportional(gain, s, r0, r1, error as real, above, off);
    Scaled(InDacCounts(error, s), error as real * gain, r1 * gain - r0 * gain);
  }

  lemma ZeroIsNear(gain: real, s: real, x0: int, r1: real, above: real, off: real)
    requires LineShown(gain, s, x0 as real, r1, above, off)
    ensures ZeroNear(InDacCounts(x0, s), above, off)
  {
    var r0 := x0 as real;
    SlopeScales(gain, s, r0, r1, r0, r0 * gain, r1 * gain);
    Weighted(r0 * s, r0 * gain, r1 * gain, above, off);
  }

  /** The errors differ, and the slope measured turns their difference into the range. */
  lemma Measured(o: Oscillator, x0: int, x1: int, off: real)
    requires EndsShown(o, x0, x1, off)
    ensures x0 != x1
    ensures LineShown(o.gain, SlopeOf(x0, x1).value, x0 as real, x1 as real, o.zero - DAC_MIN as real, off)
  {
    AreAround(x0 as real * o.gain, x1 as real * o.gain, o.zero, off);
    if x0 != x1 {
      SlopeTimes((x1 - x0) as real);
    }
  }

  /** An error turned into DAC counts by the measured slope is right up to a sixteenth. */
  lemma GainIsNear(o: Oscillator, x0: int, x1: int, off: real, error: int)
    requires EndsShown(o, x0, x1, off)
    ensures x0 != x1
    ensures WithinSixteenth(InDacCounts(error, SlopeOf(x0, x1).value), error as real * o.gain)
  {
    Measured(o, x0, x1, off);
    SlopeIsNear(o.gain, SlopeOf(x0, x1).value, x0 as real, x1 as real, error, o.zero - DAC_MIN as real, off);
  }

  /** The measured line meets zero where the oscillator does, up to what a measurement is off by and a sixteenth. */
  lemma InterceptIsNear(o: Oscillator, x0: int, x1: int, off: real)
    requires EndsShown(o, x0, x1, off)
    ensures x0 != x1
    ensures ZeroNear(InDacCounts(x0, SlopeOf(x0, x1).value), o.zero - DAC_MIN as real, off)
  {
    Measured(o, x0, x1, off);
    ZeroIsNear(o.gain, SlopeOf(x0, x1).value, x0, x1 as real, o.zero - DAC_MIN as real, off);
  }

  lemma AreAround(end0: real, end1: real, zero: real, off: real)
    requires 0.0 <= off <= OFF_MAX && DAC_MIN as real <= zero <= DAC_MAX as real
    requires Abs(end0 - 1.0 * (DAC_MIN as real - zero)) <= off && Abs(end1 - 1.0 * (DAC_MAX as real - zero)) <= off
    ensures EndsAround(end0, end1, zero - DAC_MIN as real, off) && end0 != end1
  {
  }

  lemma SlopeTimes(d: real)
    requires d != 0.0
    ensures RANGE / d * d == RANGE
  {
  }

  /** Measured without error, the line is the oscillator's own. */
  lemma ExactMeasurement(o: Oscillator, x0: int, x1: int)
    requires EndsShown(o, x0, x1, 0.0)
    ensures SlopeOf(x0, x1) == Slope(o.gain) && ExactIntercept(o.gain, x0) == o.zero
  {
    Measured(o, x0, x1, 0.0);
    DifferenceTimes(x1 as real, x0 as real, o.gain);
    SameFactor(SlopeOf(x0, x1).value, o.gain, x1 as real - x0 as real);
  }

  lemma SameFactor(s: real, gain: real, d: real)
    requires s * d == RANGE == d * gain
    ensures s == gain
  {
    assert (s - gain) * d == 0.0;
  }

  /** How far from the oscillator's zero the tuned DAC may stand. */
  function Near(off: real): real {
    1.1 + 1.2 * off
  }

  lemma InterceptTames(o: Oscillator, x0: int, x1: int, off: real, stray: Dac)
    requires EndsShown(o, x0, x1, off)
    ensures Abs(Intercept(SlopeOf(x0, x1), x0, stray) as real - o.zero) <= 0.5 + 1.0625 * off
  {
    InterceptIsNear(o, x0, x1, off);
    RoundedTames(InDacCounts(x0, SlopeOf(x0, x1).value), o.zero, off);
  }

  lemma RoundedTames(r: real, zero: real, off: real)
    requires ZeroNear(r, zero - DAC_MIN as real, off) && off <= OFF_MAX
    requires DAC_MIN as real <= zero <= DAC_MAX as real
    ensures Abs(((DAC_MIN - Round(r)) % COUNTS) as real - zero) <= 0.5 + 1.0625 * off
  {
    RoundIsNear(r);
    InRange((DAC_MIN - Round(r)) as real, zero, DAC_MIN - Round(r));
  }

  /**
   One adjustment along the measured line, wherever the DAC stands: a sixteenth of the distance from the
   oscillator's zero may remain, a count, and what the measurements are off by.
   */
  lemma AdjustmentTames(o: Oscillator, x0: int, x1: int, off: real, dac: Dac, error: int, p: Period, stray: Dac)
    requires EndsShown(o, x0, x1, off) && Shows(o, error, p.Times(1.0), dac, off)
    ensures Abs(Adjusted(dac, SlopeOf(x0, x1), error, p, stray) as real - o.zero)
            <= 1.0 + Abs(dac as real - o.zero) / 16.0 + 1.0625 * off
  {
    GainIsNear(o, x0, x1, off, error);
    var s, away := SlopeOf(x0, x1).value, dac as real - o.zero;
    var offHere := p.Times(Abs(away) / 16.0) + 1.0625 * off;
    OffHere(InDacCounts(error, s), error as real * o.gain, p, away, off);
    FineStepLands(dac, s, error, p, o.zero, offHere, stray);
  }

  lemma OffHere(got: real, right: real, p: Period, away: real, off: real)
    requires 0.0 <= off <= OFF_MAX && Abs(away) <= 60000.0
    requires WithinSixteenth(got, right) && Abs(right - p.Times(1.0) * away) <= off
    ensures var offHere := p.Times(Abs(away) / 16.0) + 1.0625 * off;
            && Abs(got - p.Times(away)) <= offHere
            && p.Share(offHere) <= Abs(away) / 16.0 + 1.0625 * off <= 6000.0
  {
    OffOver(got, right, p.Times(away), off);
    match p
    case One =>
    case Ten => assert Abs(10.0 * away) / 16.0 == 10.0 * (Abs(away) / 16.0);
    case Hundred => assert Abs(100.0 * away) / 16.0 == 100.0 * (Abs(away) / 16.0);
  }

  lemma OffOver(got: real, right: real, far: real, off: real)
    requires WithinSixteenth(got, right) && Abs(right - far) <= off
    ensures Abs(got - far) <= Abs(far) / 16.0 + 1.0625 * off
  {
  }
}
