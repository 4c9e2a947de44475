/**
 The data-mask window search of write deskew. A position x is the strobe's offset from its deskewed
 delay taken relative to the DM delay: the first sweep lowers the DM delay from its maximum to 0 and
 so visits -max, ..., 0; the second raises DQS and visits 0, ..., reach. The test is an arbitrary
 predicate on positions.
 */
module DataMask {

  /** Verdict on the DM pins at a value of dqs - dm. */
  type MaskTester = int -> bool

  /** Every position of [b, e] passes, relative to a base delay. */
  ghost predicate Run(t: MaskTester, base: int, b: int, e: int) {
    forall x | b <= x <= e :: Hit(t, base, x)
  }

  predicate Hit(t: MaskTester, base: int, x: int) {
    t(base + x)
  }

  /** [b, e] is the leftmost of the longest runs inside [lo, hi). */
  ghost predicate LeftmostLongest(t: MaskTester, base: int, lo: int, hi: int, b: int, e: int) {
    && lo <= b <= e < hi && Run(t, base, b, e)
    && forall b', e' | lo <= b' <= e' < hi && Run(t, base, b', e') ::
         e' - b' < e - b || (e' - b' == e - b && b <= b')
  }

  ghost predicate NoHit(t: MaskTester, base: int, lo: int, hi: int) {
    forall x | lo <= x < hi :: !Hit(t, base, x)
  }

  /** What the search knows once it has tested [lo, x): the best run, and the run that ends at x - 1. */
  ghost predicate Scanned(t: MaskTester, base: int, lo: int, x: int, unset: int,
                          bgnCurr: int, endCurr: int, bgnBest: int, endBest: int, winBest: int)
  {
    && lo <= x
    && (if winBest == 0 then NoHit(t, base, lo, x) && bgnBest == endBest == unset
        else winBest == endBest - bgnBest + 1 && LeftmostLongest(t, base, lo, x, bgnBest, endBest))
    && Current(t, base, lo, x, unset, bgnCurr, endCurr)
  }

  ghost predicate Current(t: MaskTester, base: int, lo: int, x: int, unset: int, bgnCurr: int, endCurr: int) {
    if x == lo || !Hit(t, base, x - 1) then bgnCurr == endCurr == unset
    else
      && lo <= bgnCurr <= endCurr == x - 1 && Run(t, base, bgnCurr, x - 1)
      && (bgnCurr == lo || !Hit(t, base, bgnCurr - 1))
  }

  /** Runs that end before x, and a run through x, are the only runs below x + 1. */
  lemma ScanPass(t: MaskTester, base: int, lo: int, x: int, unset: int,
                 bgnCurr: int, endCurr: int, bgnBest: int, endBest: int, winBest: int)
    requires Scanned(t, base, lo, x, unset, bgnCurr, endCurr, bgnBest, endBest, winBest)
    requires x < unset && Hit(t, base, x)
    ensures var b := if bgnCurr == unset then x else bgnCurr;
            if x - b + 1 > winBest then Scanned(t, base, lo, x + 1, unset, b, x, b, x, x - b + 1)
            else Scanned(t, base, lo, x + 1, unset, b, x, bgnBest, endBest, winBest)
  {
    var b := if bgnCurr == unset then x else bgnCurr;
    assert Run(t, base, b, x) && (b == lo || !Hit(t, base, b - 1));
    forall b', e' | lo <= b' <= e' < x + 1 && Run(t, base, b', e')
      ensures e' < x || b <= b'
    {
      assert b' <= b - 1 <= e' ==> Hit(t, base, b - 1);
    }
    if winBest == 0 {
      forall b', e' | lo <= b' <= e' < x ensures !Run(t, base, b', e') {
        assert !Hit(t, base, b');
      }
    }
  }

  lemma ScanFail(t: MaskTester, base: int, lo: int, x: int, unset: int,
                 bgnCurr: int, endCurr: int, bgnBest: int, endBest: int, winBest: int)
    requires Scanned(t, base, lo, x, unset, bgnCurr, endCurr, bgnBest, endBest, winBest)
    requires !Hit(t, base, x)
    ensures Scanned(t, base, lo, x + 1, unset, unset, unset, bgnBest, endBest, winBest)
  {
    forall b', e' | lo <= b' <= e' < x + 1 && Run(t, base, b', e') ensures e' < x {
      assert Hit(t, base, e');
    }
  }

  /** A run longer than everything still to come is the answer. */
  lemma ScanCut(t: MaskTester, base: int, lo: int, x: int, hi: int, unset: int,
                bgnCurr: int, endCurr: int, bgnBest: int, endBest: int, winBest: int)
    requires Scanned(t, base, lo, x, unset, bgnCurr, endCurr, bgnBest, endBest, winBest)
    requires lo < x <= hi && !Hit(t, base, x - 1) && winBest > hi - x
    ensures winBest > 0 && LeftmostLongest(t, base, lo, hi, bgnBest, endBest)
  {
    forall b', e' | lo <= b' < x <= e' < hi ensures !Run(t, base, b', e') {
      assert b' <= x - 1 <= e' && !Hit(t, base, x - 1);
    }
  }

  /** A failing test of the second sweep, which may settle the search. */
  lemma ScanMiss(t: MaskTester, base: int, lo: int, d: nat, hi: int, unset: int,
                 bgnCurr: int, endCurr: int, bgnBest: int, endBest: int, winBest: int)
    requires Scanned(t, base, lo, if d == 0 then 1 else d, unset, bgnCurr, endCurr, bgnBest, endBest, winBest)
    requires lo <= d < hi && !Hit(t, base, d)
    ensures Scanned(t, base, lo, d + 1, unset, unset, unset, bgnBest, endBest, winBest)
    ensures winBest > hi - d - 1 ==> winBest > 0 && LeftmostLongest(t, base, lo, hi, bgnBest, endBest)
  {
    if d > 0 {
      ScanFail(t, base, lo, d, unset, bgnCurr, endCurr, bgnBest, endBest, winBest);
    }
    if winBest > hi - d - 1 {
      ScanCut(t, base, lo, d + 1, hi, unset, unset, unset, bgnBest, endBest, winBest);
    }
  }

  /**
   A passing test at position x: extends or begins the current run, which may become the best.
   Position 0 is tested by both sweeps; the second time changes nothing.
   */
  method NoteHit(ghost t: MaskTester, ghost base: int, ghost lo: int, x: int, unset: int,
                 bgn: int, ghost end: int, bgnBest0: int, endBest0: int, winBest0: int)
    returns (bgnCurr: int, endCurr: int, bgnBest: int, endBest: int, winBest: int)
    requires Scanned(t, base, lo, x, unset, bgn, end, bgnBest0, endBest0, winBest0) ||
             (lo <= x && Scanned(t, base, lo, x + 1, unset, bgn, end, bgnBest0, endBest0, winBest0))
    requires x < unset && Hit(t, base, x)
    ensures Scanned(t, base, lo, x + 1, unset, bgnCurr, endCurr, bgnBest, endBest, winBest)
    ensures endCurr == x
  {
    if Scanned(t, base, lo, x, unset, bgn, end, bgnBest0, endBest0, winBest0) {
      ScanPass(t, base, lo, x, unset, bgn, end, bgnBest0, endBest0, winBest0);
    } else {
      assert Run(t, base, bgn, x);
    }
    bgnCurr, bgnBest, endBest, winBest := bgn, bgnBest0, endBest0, winBest0;
    endCurr := x;
    if bgnCurr == unset {
      bgnCurr := x;
    }
    if endCurr - bgnCurr + 1 > winBest {
      winBest, bgnBest, endBest := endCurr - bgnCurr + 1, bgnCurr, endCurr;
    }
  }

  /** The delay every DM pin of the group is set to, and the tester. */
  class MaskPins {
    const tester: MaskTester
    var dm: int

    constructor (tester: MaskTester, dm: int)
      ensures this.tester == tester && this.dm == dm
    {
      this.tester, this.dm := tester, dm;
    }

    /**
     The first sweep, over positions -max to 0, by the DM delay; `base` is where DQS stands.
     Afterwards the DM delay is 0 and a run that does not reach position 0 has been given up.
     */
    method SweepMask(max: int, base: int)
      returns (bgnCurr: int, endCurr: int, bgnBest: int, endBest: int, winBest: int)
      requires 0 <= max
      modifies this
      ensures dm == 0
      ensures Scanned(tester, base, -max, 1, max + 1, bgnCurr, endCurr, bgnBest, endBest, winBest)
    {
      bgnCurr, endCurr, bgnBest, endBest, winBest := max + 1, max + 1, max + 1, max + 1, 0;
      var d := max;
      while d >= 0
        invariant -1 <= d <= max
        invariant Scanned(tester, base, -max, -d, max + 1, bgnCurr, endCurr, bgnBest, endBest, winBest)
      {
        dm := d;
        if tester(base - dm) {
          bgnCurr, endCurr, bgnBest, endBest, winBest :=
            NoteHit(tester, base, -max, -d, max + 1, bgnCurr, endCurr, bgnBest, endBest, winBest);
        } else {
          assert !Hit(tester, base, -d);
          ScanFail(tester, base, -max, -d, max + 1, bgnCurr, endCurr, bgnBest, endBest, winBest);
          bgnCurr, endCurr := max + 1, max + 1;
        }
        d := d - 1;
      }
      dm := 0;
      if endCurr != 0 {
        bgnCurr, endCurr := max + 1, max + 1;
      }
    }
  }
}
