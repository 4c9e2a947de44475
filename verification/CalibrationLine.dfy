/**
 The arithmetic of the VCTCXO calibration: a line through two points of (error count, DAC count), its
 intercept, and the fine adjustments along it. Floating-point values are real numbers here.
 */
module CalibrationLine {

  const COUNTS := 0x1_0000
  const DAC_MIN: Dac := 0x1938
  const DAC_MAX: Dac := 0xE2F3

  /** The seconds over which an error is counted. */
  datatype Period = One | Ten | Hundred {
    /** The count over the period, given the count a second. */
    function Times(r: real): real {
      match this
      case One => r
      case Ten => 10.0 * r
      case Hundred => 100.0 * r
    }

    /** The count a second, given the count over the period. */
    function Share(r: real): real {
      match this
      case One => r
      case Ten => r / 10.0
      case Hundred => r / 100.0
    }
  }

  type Dac = x: nat | x < COUNTS

  /** No slope: the division by zero that two equal errors lead to. */
  datatype Slope = Flat | Slope(value: real)

  function Abs(r: real): real {
    if r < 0.0 then -r else r
  }

  /** Rounds half away from zero. */
  function Round(r: real): int {
    if r < 0.0 then -((0.5 - r).Floor) else (r + 0.5).Floor
  }

  /** What a conversion to an integer keeps. */
  function Truncate(r: real): int {
    if r < 0.0 then -((-r).Floor) else r.Floor
  }

  function SlopeOf(x0: int, x1: int): Slope {
    if x0 == x1 then Flat
    else Slope((DAC_MAX - DAC_MIN) as real / (x1 - x0) as real)
  }

  /** The DAC count programmed for zero error; stray is what an undefined conversion yields. */
  function Intercept(slope: Slope, x0: int, stray: Dac): Dac {
    match slope
    case Flat => stray
    case Slope(s) => (DAC_MIN - Round(InDacCounts(x0, s))) % COUNTS
  }

  /** The DAC count after an adjustment by the error counted over a period. */
  function Adjusted(dac: Dac, slope: Slope, error: int, p: Period, stray: Dac): Dac {
    match slope
    case Flat => stray
    case Slope(s) => (dac - Correction(InDacCounts(error, s), p)) % COUNTS
  }

  /** An error count turned into DAC counts. */
  function InDacCounts(error: int, s: real): real {
    error as real * s
  }

  function Correction(e: real, p: Period): int {
    Truncate(p.Share(Round(e) as real))
  }

  /** The errors at the two ends have zero between them. */
  predicate Bracket(x0: int, x1: int) {
    x0 != x1 && (x0 <= 0 <= x1 || x1 <= 0 <= x0)
  }

  function ExactIntercept(s: real, x0: int): real {
    DAC_MIN as real - InDacCounts(x0, s)
  }

  /** To the nearest integer, and of two to the one away from zero. */
  lemma RoundIsNear(r: real)
    ensures Abs(Round(r) as real - r) <= 0.5
    ensures -0.5 < Abs(Round(r) as real) - Abs(r) <= 0.5
  {
  }

  lemma TruncateIsWithin(r: real)
    ensures Abs(Truncate(r) as real) <= Abs(r)
  {
  }

  /** Rounding, taking the share and truncating loses less than a count, and never goes beyond the share. */
  lemma CorrectionIsNear(e: real, p: Period)
    ensures Abs(Correction(e, p) as real - p.Share(e)) <= 1.0 - p.Share(0.5)
    ensures Abs(Correction(e, p) as real) <= p.Share(Abs(Round(e) as real))
  {
    RoundIsNear(e);
    ShareIsNear(Round(e), e, p);
    TruncateIsWithin(p.Share(Round(e) as real));
  }

  lemma ShareIsNear(k: int, e: real, p: Period)
    requires Abs(k as real - e) <= 0.5
    ensures Abs(Truncate(p.Share(k as real)) as real - p.Share(e)) <= 1.0 - p.Share(0.5)
  {
    match p
    case One =>
      TruncateWhole(k);
    case Ten =>
      TruncateTenth(k);
      TenthInReals(Truncate(k as real / 10.0), k);
    case Hundred =>
      TruncateHundredth(k);
      HundredthInReals(Truncate(k as real / 100.0), k);
  }

  lemma TenthInReals(t: int, k: int)
    requires -9 <= 10 * t - k <= 9
    ensures Abs(t as real - k as real / 10.0) <= 0.9
  {
  }

  lemma HundredthInReals(t: int, k: int)
    requires -99 <= 100 * t - k <= 99
    ensures Abs(t as real - k as real / 100.0) <= 0.99
  {
  }

  lemma TruncateWhole(k: int)
    ensures Truncate(k as real) == k
  {
    if k < 0 {
      assert -(k as real) == (-k) as real;
    }
  }

  lemma TruncateTenth(k: int)
    ensures -9 <= 10 * Truncate(k as real / 10.0) - k <= 9
  {
    if k < 0 {
      assert 10.0 * (-(k as real / 10.0)) == (-k) as real;
    } else {
      assert 10.0 * (k as real / 10.0) == k as real;
    }
  }

  lemma TruncateHundredth(k: int)
    ensures -99 <= 100 * Truncate(k as real / 100.0) - k <= 99
  {
    if k < 0 {
      assert 100.0 * (-(k as real / 100.0)) == (-k) as real;
    } else {
      assert 100.0 * (k as real / 100.0) == k as real;
    }
  }

  /** A share of the DAC range. */
  lemma ShareOfRange(x: real, d: real, range: real)
    requires 0.0 < d && 0.0 < range
    ensures 0.0 <= range / d * x <= range <==> 0.0 <= x <= d
  {
    var s := range / d;
    assert s * d == range && 0.0 < s;
    if x < 0.0 {
      Times(s, x, 0.0);
    } else if x <= d {
      TimesAtMost(s, 0.0, x);
      TimesAtMost(s, x, d);
    } else {
      Times(s, d, x);
    }
  }

  lemma Times(s: real, x: real, y: real)
    requires 0.0 < s && x < y
    ensures s * x < s * y
  {
  }

  lemma TimesAtMost(s: real, x: real, y: real)
    requires 0.0 < s && x <= y
    ensures s * x <= s * y
  {
  }

  /** The zero of the line lies between the two DAC settings exactly when the errors bracket zero. */
  lemma InterceptBetweenEndsIffBracket(x0: int, x1: int)
    requires x0 != x1
    ensures DAC_MIN as real <= ExactIntercept(SlopeOf(x0, x1).value, x0) <= DAC_MAX as real <==> Bracket(x0, x1)
  {
    var range := (DAC_MAX - DAC_MIN) as real;
    var d := (x1 - x0) as real;
    if x0 < x1 {
      ShareOfRange((-x0) as real, d, range);
      assert range / d * (-x0) as real == -(range / d * x0 as real);
    } else {
      ShareOfRange(x0 as real, -d, range);
      assert range / -d == -(range / d);
    }
  }

  /** The programmed intercept is the exact one rounded, and within the DAC range the errors were taken over. */
  lemma InterceptWithinHalf(x0: int, x1: int, stray: Dac)
    requires Bracket(x0, x1)
    ensures var y := Intercept(SlopeOf(x0, x1), x0, stray);
            && Abs(y as real - ExactIntercept(SlopeOf(x0, x1).value, x0)) <= 0.5
            && DAC_MIN <= y <= DAC_MAX
  {
    InterceptBetweenEndsIffBracket(x0, x1);
    RoundedWithin(InDacCounts(x0, SlopeOf(x0, x1).value));
  }

  lemma RoundedWithin(r: real)
    requires DAC_MIN as real <= DAC_MIN as real - r <= DAC_MAX as real
    ensures var y := (DAC_MIN - Round(r)) % COUNTS;
            Abs(y as real - (DAC_MIN as real - r)) <= 0.5 && DAC_MIN <= y <= DAC_MAX
  {
    RoundIsNear(r);
    assert -(DAC_MAX - DAC_MIN) <= Round(r) <= 0;
  }

  /**
   One fine adjustment from a setting whose error count, turned into DAC counts, is the distance to
   the intercept up to `off` counts over the period: it lands within a count plus that share.
   */
  lemma FineStepLands(dac: Dac, s: real, error: int, p: Period, intercept: real, off: real, stray: Dac)
    requires DAC_MIN as real <= intercept <= DAC_MAX as real
    requires Abs(InDacCounts(error, s) - p.Times(dac as real - intercept)) <= off && p.Share(off) <= 6000.0
    ensures Abs(Adjusted(dac, Slope(s), error, p, stray) as real - intercept) <= 1.0 - p.Share(0.5) + p.Share(off)
  {
    var e := InDacCounts(error, s);
    CorrectionIsNear(e, p);
    var c := Correction(e, p);
    assert Abs((dac - c) as real - intercept) <= 1.0 - p.Share(0.5) + p.Share(off) by {
      assert Abs(p.Share(e) - (dac as real - intercept)) <= p.Share(off);
      assert Abs(c as real - p.Share(e)) <= 1.0 - p.Share(0.5);
    }
    assert Abs((dac - c) as real - intercept) <= 6001.0;
    InRange((dac - c) as real, intercept, dac - c);
  }

  lemma InRange(r: real, intercept: real, t: int)
    requires r == t as real && Abs(r - intercept) <= 6001.0 && DAC_MIN as real <= intercept <= DAC_MAX as real
    ensures t % COUNTS == t
  {
  }
}
