/**
 Write deskew of one DQS group: find every bit's window, move every DQ to the middle of its own
 window with DQS left where it was (the build does not centre the write strobe), then find and
 centre the data-mask window.
 */
module WritesCenter {
  import opened Eyes
  import opened Lanes
  import opened Centring
  import opened DataMask
  import opened Deskew

  /**
   The second mask sweep, over positions 0 to max - base, by DQS. It goes on with the run that
   reached position 0, if any, and stops early once no longer run can follow. DQS is put back.
   */
  method SweepStrobe(lane: Lane, mask: MaskPins,
                     bgnCurr0: int, endCurr0: int, bgnBest0: int, endBest0: int, winBest0: int)
    returns (bgnBest: int, endBest: int, winBest: int)
    requires 0 <= lane.dqs <= lane.max && mask.dm == 0
    requires Scanned(mask.tester, lane.dqs, -lane.max, 1, lane.max + 1,
                     bgnCurr0, endCurr0, bgnBest0, endBest0, winBest0)
    modifies lane`dqs
    ensures lane.dqs == old(lane.dqs)
    ensures if winBest == 0 then
              NoHit(mask.tester, lane.dqs, -lane.max, lane.max - lane.dqs + 1) && bgnBest == endBest == lane.max + 1
            else
              LeftmostLongest(mask.tester, lane.dqs, -lane.max, lane.max - lane.dqs + 1, bgnBest, endBest)
  {
    var newDqs := lane.dqs;
    var max := lane.max;
    var bgnCurr, endCurr := bgnCurr0, endCurr0;
    bgnBest, endBest, winBest := bgnBest0, endBest0, winBest0;
    var d := 0;
    var cut := false;
    while d <= max - newDqs && !cut
      invariant 0 <= d <= max - newDqs + 1
      invariant !cut ==>
                  Scanned(mask.tester, newDqs, -max, if d == 0 then 1 else d, max + 1,
                          bgnCurr, endCurr, bgnBest, endBest, winBest)
      invariant cut ==> winBest > 0
      invariant cut ==> LeftmostLongest(mask.tester, newDqs, -max, max - newDqs + 1, bgnBest, endBest)
      decreases max - newDqs + 1 - d
    {
      lane.dqs := d + newDqs;
      if mask.tester(lane.dqs - mask.dm) {
        bgnCurr, endCurr, bgnBest, endBest, winBest :=
          NoteHit(mask.tester, newDqs, -max, d, max + 1, bgnCurr, endCurr, bgnBest, endBest, winBest);
      } else {
        ScanMiss(mask.tester, newDqs, -max, d, max - newDqs + 1, max + 1,
                 bgnCurr, endCurr, bgnBest, endBest, winBest);
        bgnCurr, endCurr := max + 1, max + 1;
        cut := winBest - 1 > max - newDqs - d;
      }
      d := d + 1;
    }
    lane.dqs := newDqs;
  }

  /**
   Finds the mask window [-left, right] and puts the DM pins as near its middle as they can get;
   a negative margin means failure.
   */
  method CentreMask(lane: Lane, mask: MaskPins) returns (left: int, right: int, margin: int)
    requires 0 <= lane.dqs <= lane.max
    modifies lane`dqs, mask
    ensures lane.dqs == old(lane.dqs) && 0 <= mask.dm <= lane.max
    ensures NoHit(mask.tester, lane.dqs, -lane.max, lane.max - lane.dqs + 1) ||
            LeftmostLongest(mask.tester, lane.dqs, -lane.max, lane.max - lane.dqs + 1, -left, right)
    ensures margin >= 0 <==>
            left >= 0 && !NoHit(mask.tester, lane.dqs, -lane.max, lane.max - lane.dqs + 1)
    ensures margin >= 0 ==> mask.tester(lane.dqs - mask.dm) && Best(left, right, 0, lane.max, mask.dm)
    ensures margin >= 0 ==> margin == left - mask.dm
    ensures margin >= 0 && mask.dm > 0 ==> 0 <= (left - mask.dm) - (right + mask.dm) <= 1
  {
    var bgnCurr, endCurr, bgnBest, endBest, winBest := mask.SweepMask(lane.max, lane.dqs);
    bgnBest, endBest, winBest := SweepStrobe(lane, mask, bgnCurr, endCurr, bgnBest, endBest, winBest);
    left, right := -1 * bgnBest, endBest;
    var mid := Half(left - right);
    if mid < 0 {
      mid := 0;
    }
    margin := if winBest == 0 then -1 else left - mid;
    mask.dm := mid;
    if winBest != 0 {
      WindowIsHit(mask.tester, lane.dqs, -lane.max, lane.max - lane.dqs + 1, bgnBest, endBest);
      if left >= 0 {
        MiddleIsBest(left, right, lane.max, mid);
        assert Hit(mask.tester, lane.dqs, -mid);
      }
    }
  }

  /** The middle of a mask window that begins at or before 0, or 0 if it lies above. */
  lemma MiddleIsBest(left: int, right: int, max: int, mid: int)
    requires 0 <= left <= max && -left <= right && mid == if left < right then 0 else Half(left - right)
    ensures 0 <= mid <= left && -mid <= right && Best(left, right, 0, max, mid)
    ensures mid > 0 ==> 0 <= (left - mid) - (right + mid) <= 1
  {
  }

  lemma WindowIsHit(t: MaskTester, base: int, lo: int, hi: int, b: int, e: int)
    requires LeftmostLongest(t, base, lo, hi, b, e)
    ensures !NoHit(t, base, lo, hi)
  {
    assert Hit(t, base, b);
  }

  /** The leftmost longest mask window starts where the DM delay can still reach it. */
  ghost predicate MaskReachable(t: MaskTester, base: int, lo: int, hi: int) {
    exists b, e :: LeftmostLongest(t, base, lo, hi, b, e) && b <= 0
  }

  lemma LeftmostLongestIsUnique(t: MaskTester, base: int, lo: int, hi: int, b: int, e: int, b': int, e': int)
    requires LeftmostLongest(t, base, lo, hi, b, e) && LeftmostLongest(t, base, lo, hi, b', e')
    ensures b == b' && e == e'
  {
  }

  lemma MaskVerdict(t: MaskTester, base: int, lo: int, hi: int, left: int, right: int)
    requires NoHit(t, base, lo, hi) || LeftmostLongest(t, base, lo, hi, -left, right)
    ensures left >= 0 && !NoHit(t, base, lo, hi) <==> MaskReachable(t, base, lo, hi)
  {
    if MaskReachable(t, base, lo, hi) {
      var b, e :| LeftmostLongest(t, base, lo, hi, b, e) && b <= 0;
      WindowIsHit(t, base, lo, hi, b, e);
      LeftmostLongestIsUnique(t, base, lo, hi, b, e, -left, right);
    }
  }

  /** Some DQ delay lets bit i pass with DQS where it is. */
  ghost predicate BitReachable(eye: Eye, i: int) {
    exists x | -eye.max <= x <= 0 :: eye.Passes(i, x)
  }

  /** Bit i passes at its programmed delay, its recorded window is the true one, and no delay is better. */
  ghost predicate Settled(eye: Eye, i: int, l: int, r: int, delay: int) {
    && eye.TrueEdges(i, l, r)
    && eye.Passes(i, -delay)
    && Best(l, r, 0, eye.max, delay)
  }

  ghost predicate AllBitsReachable(eye: Eye, bits: nat) {
    forall i | 0 <= i < bits :: BitReachable(eye, i)
  }

  /** All coherent bits are settled at the delays of the group's pins. */
  ghost predicate AllSettled(eye: Eye, l: seq<int>, r: seq<int>, pins: seq<int>) {
    |l| == |r| <= |pins| && forall i | 0 <= i < |l| && eye.Coherent(i) :: Settled(eye, i, l[i], r[i], pins[i])
  }

  /** The clamped move to the middle of the true window passes if any DQ delay does. */
  lemma MoveFindsPass(eye: Eye, i: int, l: int, r: int, smallest: int, delay: int)
    requires eye.Valid() && eye.TrueEdges(i, l, r) && eye.Coherent(i)
    requires l != eye.Unset() && r != eye.Unset() && smallest <= l - r
    requires delay == Clamp(Shift(l, r, smallest, 0), eye.max)
    ensures MarginAt(l, r, 0, delay) >= 0 ==> Settled(eye, i, l, r, delay)
    ensures MarginAt(l, r, 0, delay) >= 0 <==> BitReachable(eye, i)
  {
    ClampedShiftIsBest(l, r, smallest, 0, eye.max);
    if BitReachable(eye, i) {
      var x :| -eye.max <= x <= 0 && eye.Passes(i, x);
      assert MarginAt(l, r, 0, -x) >= 0;
    }
    if MarginAt(l, r, 0, delay) >= 0 {
      WindowPasses(eye, i, l, r, -delay);
    }
  }

  /** Such a bit is left at delay 0, where it fails, with a margin that raises no complaint. */
  lemma FalseSuccessWitness(eye: Eye)
    requires eye.max == eye.dqsMax == 31 && eye.start == 0
    requires forall x | -31 <= x <= 31 :: eye.L(0, x) == (x == 0)
    requires forall x | -31 <= x <= 31 :: eye.R(0, x) == (x == 5)
    ensures Clamp(Shift(0, 5, 0 - 5, 0), 31) == 0 && MarginAt(0, 5, 0, 0) >= 0
    ensures !eye.Passes(0, 0) && !BitReachable(eye, 0)
  {
    forall x | -31 <= x <= 0 ensures !eye.Passes(0, x) {
      assert x < 0 ==> !eye.L(0, x);
    }
  }

  /** A bit whose window was not found passes at no DQ delay. */
  lemma NoWindowNoPass(eye: Eye, i: int, l: int, r: int)
    requires eye.Valid() && eye.TrueEdges(i, l, r)
    requires l == eye.Unset() || r == eye.Unset()
    ensures !BitReachable(eye, i)
  {
  }

  /** Every position between the recorded edges passes. */
  lemma WindowPasses(eye: Eye, i: int, l: int, r: int, x: int)
    requires eye.Valid() && eye.TrueEdges(i, l, r) && eye.Coherent(i)
    requires r != eye.Unset() && -l <= x <= r
    ensures eye.Passes(i, x)
  {
  }

  /** The DQ half: windows, then the moves. `found` is false if some bit has no window. */
  method DeskewDq(lane: Lane, left: array<int>, right: array<int>) returns (found: bool, pass: bool)
    requires lane.Valid(0)
    requires left.Length == right.Length == lane.bits && left != right && left != lane.dq && right != lane.dq
    modifies lane.dq, lane`dqs, left, right
    ensures lane.Valid(0) && (pass ==> found) && (found ==> lane.dqs == old(lane.dqs))
    ensures lane.EyeAt(old(lane.dqs)).AllCoherent(lane.bits) ==>
              (found <==> WindowsMet(lane.EyeAt(old(lane.dqs)), lane.bits))
    ensures lane.EyeAt(old(lane.dqs)).OneBeginsUnseen(lane.bits) ==> !found
    ensures pass ==> AllSettled(lane.EyeAt(lane.dqs), left[..], right[..], lane.dq[..])
    ensures lane.EyeAt(old(lane.dqs)).AllCoherent(lane.bits) ==>
              (pass <==> AllBitsReachable(lane.EyeAt(old(lane.dqs)), lane.bits))
  {
    ghost var eye := lane.EyeAt(lane.dqs);
    var start := lane.dqs;
    found := FindWindows(lane, 0, left, right, true);
    ghost var l, r, pins := left[..], right[..], lane.dq[..];
    assert eye.AllTrueEdges(l, r);
    assert forall p | 0 <= p < lane.bits :: pins[p] == 0;
    pass := false;
    if !found {
      MissingWindow(eye, lane.bits, l, r);
      return;
    }
    var index := SmallestMid(left, right);
    assert forall i | 0 <= i < lane.bits :: l[i] == left[i] && r[i] == right[i];
    ghost var smallest := left[index] - right[index];
    var dqMargin, dqsMargin := MovePins(lane, 0, left, right, index, 0);
    lane.dqs := start;
    pass := dqMargin >= 0 && dqsMargin >= 0;
    assert left[..] == l && right[..] == r && lane.EyeAt(lane.dqs) == eye;
    MovesSettle(eye, lane.bits, l, r, smallest, pins, lane.dq[..]);
  }

  lemma MissingWindow(eye: Eye, bits: nat, l: seq<int>, r: seq<int>)
    requires eye.Valid() && |l| == |r| == bits
    requires eye.AllTrueEdges(l, r)
    requires exists i | 0 <= i < bits :: l[i] == eye.Unset() || r[i] == eye.Unset()
    ensures eye.AllCoherent(bits) ==> !AllBitsReachable(eye, bits)
  {
    var i :| 0 <= i < bits && (l[i] == eye.Unset() || r[i] == eye.Unset());
    if eye.Coherent(i) {
      NoWindowNoPass(eye, i, l[i], r[i]);
    }
  }

  lemma MovesSettle(eye: Eye, bits: nat, l: seq<int>, r: seq<int>, smallest: int, before: seq<int>, after: seq<int>)
    requires eye.Valid() && |l| == |r| == bits <= |before|
    requires eye.AllTrueEdges(l, r)
    requires forall i | 0 <= i < bits :: l[i] != eye.Unset() && r[i] != eye.Unset() && smallest <= l[i] - r[i]
    requires forall p | 0 <= p < bits :: before[p] == 0
    requires after == Program(eye.max, 0, Shifts(l, r, smallest, 0), before, bits)
    ensures AllFit(l, r, 0, after, 0, bits) ==> AllSettled(eye, l, r, after)
    ensures eye.AllCoherent(bits) ==>
              (AllFit(l, r, 0, after, 0, bits) <==> AllBitsReachable(eye, bits))
  {
    ProgramFromPinZero(eye.max, Shifts(l, r, smallest, 0), before, bits);
    forall i | 0 <= i < bits && eye.Coherent(i)
      ensures MarginAt(l[i], r[i], 0, after[0 + i]) >= 0 ==> Settled(eye, i, l[i], r[i], after[i])
      ensures MarginAt(l[i], r[i], 0, after[0 + i]) >= 0 <==> BitReachable(eye, i)
    {
      MoveFindsPass(eye, i, l[i], r[i], smallest, after[i]);
    }
    if !AllFit(l, r, 0, after, 0, bits) {
      var i :| 0 <= i < bits && MarginAt(l[i], r[i], 0, after[0 + i]) < 0;
      assert eye.Coherent(i) ==> !BitReachable(eye, i);
    }
  }

  /**
   Write deskew. Success means that every bit and the mask pass at the delays just programmed; and
   it succeeds whenever some DQ delay lets each bit pass and the mask window is within reach.
   */
  method CalibrateWritesCenter(lane: Lane, mask: MaskPins) returns (ok: bool, left: array<int>, right: array<int>)
    requires lane.Valid(0) && lane.dqsMax == lane.max
    modifies lane.dq, lane`dqs, mask
    ensures lane.Valid(0)
    ensures left.Length == right.Length == lane.bits
    ensures ok ==> lane.dqs == old(lane.dqs) && 0 <= mask.dm <= lane.max
    ensures lane.EyeAt(old(lane.dqs)).AllCoherent(lane.bits) && WindowsMet(lane.EyeAt(old(lane.dqs)), lane.bits) ==>
              lane.dqs == old(lane.dqs) && 0 <= mask.dm <= lane.max
    ensures ok ==> AllSettled(lane.EyeAt(lane.dqs), left[..], right[..], lane.dq[..])
    ensures ok ==> mask.tester(lane.dqs - mask.dm)
    ensures lane.EyeAt(old(lane.dqs)).OneBeginsUnseen(lane.bits) ==> !ok
    ensures lane.EyeAt(old(lane.dqs)).AllCoherent(lane.bits) ==>
              (ok <==>
               && MaskReachable(mask.tester, old(lane.dqs), -lane.max, lane.max - old(lane.dqs) + 1)
               && AllBitsReachable(lane.EyeAt(old(lane.dqs)), lane.bits))
  {
    ghost var eye := lane.EyeAt(lane.dqs);
    left, right := new int[lane.bits], new int[lane.bits];
    var found, pass := DeskewDq(lane, left, right);
    if !found {
      return false, left, right;
    }
    assert lane.EyeAt(lane.dqs) == eye;
    var l, r, dmMargin := CentreMask(lane, mask);
    assert lane.EyeAt(lane.dqs) == eye;
    MaskVerdict(mask.tester, lane.dqs, -lane.max, lane.max - lane.dqs + 1, l, r);
    ok := pass && dmMargin >= 0;
  }
}
