/**
 What the pass/fail tester answers for every bit of one DQS group, and what the two delay sweeps
 are meant to find out about it.

 A position x is the strobe's offset from where the search began, taken relative to the bit's own
 DQ delay: x = (dqs - start) - dq. The first sweep raises the DQ delays and so visits 0, -1, ...,
 -max; the second raises DQS and visits 0, 1, ..., dqsMax - start. Position 0 is tested in both, and
 a marginal bit may answer differently each time; the second answer is the one that counts.
 */
module Eyes {
  import opened BitFields

  /** Verdict on a bit at a value of dqs - dq. */
  type Tester = (int, int) -> bool

  datatype Eye = Eye(max: int, dqsMax: int, start: int, dqSweep: Tester, dqsSweep: Tester) {

    /** The delay ranges agree: no edge the second sweep records can equal the "unset" value. */
    predicate Valid() {
      0 <= start <= dqsMax <= max
    }

    /** The value that marks an edge as not seen yet. */
    function Unset(): int {
      max + 1
    }

    /** The last position of the second sweep. */
    function Reach(): int {
      dqsMax - start
    }

    predicate L(i: int, x: int) {
      dqSweep(i, start + x)
    }

    /** The first sweep's verdict at DQ delay d. */
    predicate AtDelay(i: int, d: int) {
      L(i, -d)
    }

    predicate R(i: int, x: int) {
      dqsSweep(i, start + x)
    }

    /** The bit passes at x; position 0 counts as passing only if the second test passed. */
    predicate Passes(i: int, x: int) {
      if x < 0 then L(i, x) else R(i, x)
    }

    /** The bit's passing positions form one interval. */
    ghost predicate Interval(i: int) {
      forall x, y, z | -max <= x < y < z <= Reach() && Passes(i, x) && Passes(i, z) :: Passes(i, y)
    }

    /**
     What the two tests at position 0 may do to an interval. If the first one passes, whatever passes
     below 0 reaches up to it; if only the first one passes, nothing passes from 0 on; if only the
     second one passes, position -1 passes too.
     */
    ghost predicate Coherent(i: int) {
      && Interval(i)
      && (L(i, 0) ==> forall x, y | -max <= x < y < 0 && L(i, x) :: L(i, y))
      && (L(i, 0) && !R(i, 0) ==> forall x | 0 < x <= Reach() :: !R(i, x))
      && (R(i, 0) && !L(i, 0) ==> 0 < max && L(i, -1))
    }

    /** The window begins at 0, and the first test there failed. */
    ghost predicate BeginsUnseen(i: int) {
      Interval(i) && R(i, 0) && !L(i, 0) && !(0 < max && L(i, -1))
    }

    /** The tester answers the same in both sweeps and passes on one interval. */
    ghost predicate Steady(i: int) {
      (forall x | -max <= x <= Reach() :: L(i, x) == R(i, x)) && Interval(i)
    }

    ghost predicate HasWindow(i: int) {
      exists x | -max <= x <= Reach() :: Passes(i, x)
    }

    /** The recorded edges are the true window; without a window they admit no position at all. */
    ghost predicate TrueEdges(i: int, l: int, r: int) {
      if HasWindow(i) then
        && -max <= -l <= r <= Reach()
        && Passes(i, -l) && Passes(i, r)
        && forall x | -max <= x <= Reach() && Passes(i, x) :: -l <= x <= r
      else if L(i, 0) then l == 0 && r == -1
      else r == Unset()
    }

    /** Both edges are set exactly for a bit with a window and for one that passed the first test at 0. */
    lemma EdgesAreSet(i: int, l: int, r: int)
      requires Valid() && TrueEdges(i, l, r)
      ensures l != Unset() && r != Unset() <==> HasWindow(i) || L(i, 0)
      ensures Steady(i) ==> (HasWindow(i) || L(i, 0) <==> HasWindow(i))
    {
      if L(i, 0) && Steady(i) {
        assert Passes(i, 0);
      }
    }

    // ----- all bits of the group -----

    ghost predicate AllCoherent(bits: nat) {
      forall i | 0 <= i < bits :: Coherent(i)
    }

    ghost predicate AllSteady(bits: nat) {
      forall i | 0 <= i < bits :: Steady(i)
    }

    ghost predicate AllHaveWindows(bits: nat) {
      forall i | 0 <= i < bits :: HasWindow(i)
    }

    ghost predicate OneBeginsUnseen(bits: nat) {
      exists i | 0 <= i < bits :: BeginsUnseen(i)
    }

    /** The edges of all coherent bits are the true ones. */
    ghost predicate AllTrueEdges(l: seq<int>, r: seq<int>)
      requires |l| == |r|
    {
      forall i | 0 <= i < |l| && Coherent(i) :: TrueEdges(i, l[i], r[i])
    }

    // ----- the first sweep, before it tests delay d -----

    /** Bit i failed at every DQ delay below d. */
    ghost predicate LeftUnseen(i: int, d: int) {
      forall x | -d < x <= 0 :: !L(i, x)
    }

    ghost predicate LeftSoFar(i: int, d: int, l: int, r: int) {
      if LeftUnseen(i, d) then
        l == Unset() && r == if d == 0 then Unset() else -d
      else
        && 0 <= l < d && L(i, -l) && (forall x | -d < x < -l :: !L(i, x))
        && if L(i, 0) then r == Unset()
           else -l <= r < 0 && L(i, r) && forall x | r < x <= 0 :: !L(i, x)
    }

    /** What one verdict, at DQ delay d, does to the edges of its bit. */
    lemma LeftStep(i: int, d: int, l: int, r: int)
      requires 0 <= d <= max && LeftSoFar(i, d, l, r)
      ensures L(i, -d) ==> LeftSoFar(i, d + 1, d, r)
      ensures !L(i, -d) ==> LeftSoFar(i, d + 1, l, if l == Unset() then -(d + 1) else r)
    {
      if LeftUnseen(i, d) {
        if L(i, -d) {
          assert !LeftUnseen(i, d + 1);
        } else {
          assert LeftUnseen(i, d + 1);
        }
      } else {
        assert !LeftUnseen(i, d + 1);
      }
    }

    /** What the first sweep knows before it tests delay d: who has passed, and all edges. */
    ghost predicate LeftKnown(bits: nat, d: int, sticky: Field, l: seq<int>, r: seq<int>) {
      && bits <= WIDTH && |l| == |r| == bits
      && (forall k | 0 <= k < WIDTH :: sticky[k] <==> k < bits && !LeftUnseen(k, d))
      && forall j | 0 <= j < bits :: LeftSoFar(j, d, l[j], r[j])
    }

    /** The edges after the verdicts at DQ delay d have been noted. */
    function LeftNoted(d: int, chk: Field, l: seq<int>): (l': seq<int>)
      requires |l| <= WIDTH
    {
      seq(|l|, j requires 0 <= j < |l| => if chk[j] then d else l[j])
    }

    function RightNoted(d: int, chk: Field, l: seq<int>, r: seq<int>): (r': seq<int>)
      requires |l| == |r| <= WIDTH
    {
      seq(|r|, j requires 0 <= j < |r| => if !chk[j] && l[j] == Unset() then -(d + 1) else r[j])
    }

    lemma LeftAdvance(bits: nat, d: int, sticky: Field, chk: Field, l: seq<int>, r: seq<int>)
      requires 0 <= d <= max && LeftKnown(bits, d, sticky, l, r)
      requires forall k | 0 <= k < WIDTH :: chk[k] <==> k < bits && AtDelay(k, d)
      ensures LeftKnown(bits, d + 1, Or(sticky, chk), LeftNoted(d, chk, l), RightNoted(d, chk, l, r))
    {
      forall j | 0 <= j < bits
        ensures LeftSoFar(j, d + 1, LeftNoted(d, chk, l)[j], RightNoted(d, chk, l, r)[j])
        ensures Or(sticky, chk)[j] <==> !LeftUnseen(j, d + 1)
      {
        LeftStep(j, d, l[j], r[j]);
        assert chk[j] <==> AtDelay(j, d);
      }
    }

    lemma LeftHalt(bits: nat, d: int, sticky: Field, chk: Field, l: seq<int>, r: seq<int>)
      requires LeftKnown(bits, d, sticky, l, r)
      requires forall k | 0 <= k < WIDTH :: chk[k] <==> k < bits && AtDelay(k, d)
      requires chk == Zero() && Or(sticky, chk) == Low(bits)
      ensures forall j | 0 <= j < bits :: !AtDelay(j, d) && !LeftUnseen(j, d)
    {
      forall j | 0 <= j < bits ensures !AtDelay(j, d) && !LeftUnseen(j, d) {
        assert !Zero()[j] && Low(bits)[j];
        assert !chk[j] && Or(sticky, chk)[j];
      }
    }

    /** The result of the first sweep once the right edges of unseen bits are unset again. */
    ghost predicate LeftFound(i: int, l: int, r: int) {
      if LeftUnseen(i, max + 1) then l == Unset() && r == Unset()
      else LeftSoFar(i, max + 1, l, r)
    }

    /** Stopping once every bit has passed and none passes any more loses nothing. */
    lemma LeftStop(i: int, d: int, l: int, r: int)
      requires Valid() && Coherent(i) && 0 <= d <= max + 1
      requires LeftSoFar(i, d, l, r)
      requires d == max + 1 || (!L(i, -d) && !LeftUnseen(i, d))
      ensures LeftSoFar(i, max + 1, l, r)
    {
      if d <= max {
        assert -l == 0 || Passes(i, -l);
        assert !Passes(i, -d);
        assert forall x | -max <= x < -d :: L(i, x) == Passes(i, x);
      }
    }

    // ----- the second sweep, before it tests delay d -----

    /** Bit i failed at every DQS offset below d. */
    ghost predicate RightUnseen(i: int, d: int) {
      forall x | 0 <= x < d :: !R(i, x)
    }

    ghost predicate RightSoFar(i: int, d: int, l0: int, r0: int, l: int, r: int) {
      if l0 != Unset() then
        l == l0 &&
        if RightUnseen(i, d) then
          r == if d > 0 && r0 == Unset() then -1 else r0
        else
          0 <= r < d && R(i, r) && forall x | r < x < d :: !R(i, x)
      else if RightUnseen(i, d) then
        r == Unset() && l == if d == 0 then Unset() else -d
      else
        && 0 <= r < d && R(i, r) && (forall x | r < x < d :: !R(i, x))
        && if R(i, 0) then l == Unset()
           else l < 0 && -l <= r && R(i, -l) && forall x | 0 <= x < -l :: !R(i, x)
    }

    /** The edges after the verdicts at DQS offset d have been noted. */
    function LeftNotedDqs(d: int, chk: Field, l: seq<int>, r: seq<int>): (l': seq<int>)
      requires |l| == |r| <= WIDTH
    {
      seq(|l|, j requires 0 <= j < |l| =>
        if !chk[j] && r[j] == Unset() && (d != 0 || l[j] == Unset()) then -(d + 1) else l[j])
    }

    function RightNotedDqs(d: int, chk: Field, l: seq<int>, r: seq<int>): (r': seq<int>)
      requires |l| == |r| <= WIDTH
    {
      seq(|r|, j requires 0 <= j < |r| =>
        if chk[j] then d
        else if d == 0 && r[j] == Unset() && l[j] != Unset() then -1
        else r[j])
    }

    /** What the second sweep knows before it tests offset d; `armed` is the sticky field it began with. */
    ghost predicate RightKnown(bits: nat, d: int, armed: Field, sticky: Field,
                               l0: seq<int>, r0: seq<int>, l: seq<int>, r: seq<int>)
    {
      && bits <= WIDTH && |l0| == |r0| == |l| == |r| == bits
      && (forall k | 0 <= k < WIDTH :: sticky[k] <==> armed[k] || (k < bits && !RightUnseen(k, d)))
      && forall j | 0 <= j < bits :: RightSoFar(j, d, l0[j], r0[j], l[j], r[j])
    }

    lemma RightStep(i: int, d: int, l0: int, r0: int, l: int, r: int)
      requires Valid() && 0 <= d <= Reach() && RightSoFar(i, d, l0, r0, l, r)
      ensures R(i, d) ==> RightSoFar(i, d + 1, l0, r0, l, d)
      ensures !R(i, d) ==>
                RightSoFar(i, d + 1, l0, r0,
                           if r == Unset() && (d != 0 || l == Unset()) then -(d + 1) else l,
                           if d == 0 && r == Unset() && l != Unset() then -1 else r)
    {
      if R(i, d) {
        assert !RightUnseen(i, d + 1);
      } else {
        assert RightUnseen(i, d + 1) == RightUnseen(i, d);
      }
    }

    lemma RightAdvance(bits: nat, d: int, armed: Field, sticky: Field, chk: Field,
                       l0: seq<int>, r0: seq<int>, l: seq<int>, r: seq<int>)
      requires Valid() && 0 <= d <= Reach() && RightKnown(bits, d, armed, sticky, l0, r0, l, r)
      requires forall k | 0 <= k < WIDTH :: chk[k] <==> k < bits && R(k, d)
      ensures RightKnown(bits, d + 1, armed, Or(sticky, chk), l0, r0,
                         LeftNotedDqs(d, chk, l, r), RightNotedDqs(d, chk, l, r))
    {
      forall j | 0 <= j < bits
        ensures RightSoFar(j, d + 1, l0[j], r0[j], LeftNotedDqs(d, chk, l, r)[j], RightNotedDqs(d, chk, l, r)[j])
        ensures RightUnseen(j, d + 1) <==> RightUnseen(j, d) && !chk[j]
      {
        RightStep(j, d, l0[j], r0[j], l[j], r[j]);
        assert chk[j] <==> R(j, d);
      }
    }

    /** Where the second sweep may stop, noting one more round of failures changes no edge after offset 0. */
    lemma RightHalt(bits: nat, d: int, armed: Field, sticky: Field, chk: Field,
                    l0: seq<int>, r0: seq<int>, l: seq<int>, r: seq<int>)
      requires Valid() && 0 <= d <= Reach() && RightKnown(bits, d, armed, sticky, l0, r0, l, r)
      requires forall k | 0 <= k < WIDTH :: chk[k] <==> k < bits && R(k, d)
      requires forall k | 0 <= k < bits && armed[k] :: l0[k] != Unset()
      requires chk == Zero() && Or(sticky, chk) == Low(bits)
      ensures forall j | 0 <= j < bits :: !R(j, d) && (l0[j] != Unset() || !RightUnseen(j, d))
      ensures LeftNotedDqs(d, chk, l, r) == l
      ensures d != 0 || (forall j | 0 <= j < bits && armed[j] :: r0[j] != Unset()) ==> RightNotedDqs(d, chk, l, r) == r
    {
      forall j | 0 <= j < bits
        ensures !R(j, d) && (armed[j] || !RightUnseen(j, d)) && !chk[j]
      {
        assert !Zero()[j] && Low(bits)[j];
        assert !chk[j] && Or(sticky, chk)[j];
      }
    }

    /** The two sweeps together find the true edges. */
    lemma EdgesFound(i: int, d: int, l0: int, r0: int, l: int, r: int)
      requires Valid() && Coherent(i) && 0 < d <= Reach() + 1
      requires LeftFound(i, l0, r0) && RightSoFar(i, d, l0, r0, l, r)
      requires d == Reach() + 1 || (!R(i, d - 1) && (l0 != Unset() || !RightUnseen(i, d - 1)))
      ensures TrueEdges(i, l, r)
    {
      NothingBeyond(i, d, l0, r0);
      if !RightUnseen(i, d) {
        assert Passes(i, r);
      }
      if l0 == Unset() {
        if !RightUnseen(i, d) {
          assert LeftUnseen(i, max + 1);
          assert R(i, 0) ==> !L(i, -1);
          assert Passes(i, -l);
        }
        forall x | -max <= x < 0 ensures !Passes(i, x) {
        }
      } else {
        SeenOnTheLeft(i, d, l0, r0, l, r);
      }
    }

    /** After the second sweep has stopped no later position passes. */
    lemma NothingBeyond(i: int, d: int, l0: int, r0: int)
      requires Valid() && Coherent(i) && 0 < d <= Reach() + 1
      requires LeftFound(i, l0, r0)
      requires d == Reach() + 1 || (!R(i, d - 1) && (l0 != Unset() || !RightUnseen(i, d - 1)))
      ensures forall x | d <= x <= Reach() :: !R(i, x)
    {
      if d <= Reach() {
        // some position before d - 1 passes, d - 1 itself does not
        if !RightUnseen(i, d - 1) {
          var y :| 0 <= y < d - 1 && R(i, y);
          assert Passes(i, y) && !Passes(i, d - 1);
        } else if l0 > 0 {
          assert Passes(i, -l0) && !Passes(i, d - 1);
        } else {
          assert L(i, 0) && !R(i, 0);
        }
        forall x | d <= x <= Reach() ensures !R(i, x) {
          assert R(i, x) == Passes(i, x);
        }
      }
    }

    lemma SeenOnTheLeft(i: int, d: int, l0: int, r0: int, l: int, r: int)
      requires Valid() && Coherent(i) && 0 < d <= Reach() + 1
      requires LeftFound(i, l0, r0) && l0 != Unset() && RightSoFar(i, d, l0, r0, l, r)
      requires forall x | d <= x <= Reach() :: !R(i, x)
      ensures TrueEdges(i, l, r)
    {
      assert forall x | -max <= x < 0 && Passes(i, x) :: -l0 <= x;
      if l0 > 0 {
        assert Passes(i, -l0);
        if RightUnseen(i, d) {
          if L(i, 0) {
            assert L(i, -1);
            assert Passes(i, -1);
          } else {
            assert Passes(i, r0);
          }
        }
      } else {
        assert L(i, 0);
        if RightUnseen(i, d) {
          assert forall x | -max <= x <= Reach() :: !Passes(i, x);
        } else {
          assert Passes(i, r) && R(i, 0);
        }
      }
    }

    lemma SteadyIsCoherent(i: int)
      requires Valid() && Steady(i)
      ensures Coherent(i)
    {
      assert forall x | -max <= x <= Reach() :: Passes(i, x) == L(i, x);
      if L(i, 0) {
        assert Passes(i, 0);
      }
    }

    // ----- the window the sweeps do not see -----

    /** Nothing passes the first sweep, so that it ends with the left edge unset and goes through all delays. */
    lemma UnseenOnTheLeft(i: int)
      requires Valid() && BeginsUnseen(i)
      ensures HasWindow(i) && LeftUnseen(i, max + 1)
    {
      assert Passes(i, 0);
      forall x | -max <= x <= 0 ensures !L(i, x) {
        assert x < -1 && Passes(i, x) ==> Passes(i, -1);
      }
    }

    /** The second sweep passes at once and leaves the left edge unset. */
    lemma LeftEdgeStaysUnset(i: int, d: int, l0: int, r0: int, l: int, r: int)
      requires Valid() && BeginsUnseen(i) && 0 < d
      requires LeftFound(i, l0, r0) && RightSoFar(i, d, l0, r0, l, r)
      ensures l == Unset() && HasWindow(i)
    {
      UnseenOnTheLeft(i);
      assert !RightUnseen(i, d);
    }

    // ----- coherence is needed -----

    /** The first test at 0 passes although the window ends below -1. */
    ghost predicate EndsBefore(i: int) {
      Interval(i) && L(i, 0) && exists x, y | -max <= x < y < 0 :: L(i, x) && !L(i, y)
    }

    /** The first test at 0 passes although the window begins above 0. */
    ghost predicate BeginsAfter(i: int) {
      Interval(i) && L(i, 0) && !R(i, 0) && exists x | 0 < x <= Reach() :: R(i, x)
    }

    /** These and a window that begins unseen are the ways an interval can fail to be coherent. */
    lemma CoherentIff(i: int)
      requires Interval(i)
      ensures Coherent(i) <==> !BeginsUnseen(i) && !EndsBefore(i) && !BeginsAfter(i)
    {
    }

    /** What the first sweep, wherever it stopped, has for a bit that passes its first test. */
    ghost predicate FirstPassed(i: int, l: int, r: int) {
      L(i, 0) ==> l != Unset() && r == Unset() && (BeginsAfter(i) ==> l == 0)
    }

    lemma PassesFirst(i: int, d: int, l: int, r: int)
      requires Valid() && 0 < d <= max + 1 && LeftSoFar(i, d, l, r)
      ensures FirstPassed(i, l, r)
    {
      if L(i, 0) {
        assert !LeftUnseen(i, d);
        if BeginsAfter(i) {
          var x :| 0 < x <= Reach() && R(i, x);
          assert Passes(i, x) && !Passes(i, 0);
          assert l > 0 ==> Passes(i, -l);
        }
      }
    }

    /** The false pass at 0 makes -1 the right edge, beyond the window. */
    lemma EndsBeforeIsMissed(i: int, d: int, l0: int, r0: int, l: int, r: int)
      requires Valid() && EndsBefore(i) && 0 < d <= Reach() + 1
      requires FirstPassed(i, l0, r0) && RightSoFar(i, d, l0, r0, l, r)
      ensures r == -1 && HasWindow(i) && !Passes(i, -1)
    {
      var x, y :| -max <= x < y < 0 && L(i, x) && !L(i, y);
      assert Passes(i, x) && !Passes(i, y);
      forall z | 0 <= z < d ensures !R(i, z) {
        assert R(i, z) == Passes(i, z);
      }
      assert RightUnseen(i, d);
    }

    /** The false pass at 0 makes 0 the left edge, outside the window. */
    lemma BeginsAfterIsMissed(i: int, d: int, l0: int, r0: int, l: int, r: int)
      requires Valid() && BeginsAfter(i) && 0 < d
      requires FirstPassed(i, l0, r0) && RightSoFar(i, d, l0, r0, l, r)
      ensures l == 0 && HasWindow(i) && !Passes(i, 0)
    {
      var x :| 0 < x <= Reach() && R(i, x);
      assert Passes(i, x);
    }

    /** Wherever the sweeps stopped, an interval that is not coherent gets a wrong edge. */
    lemma WrongUnlessCoherent(i: int, d: int, l0: int, r0: int, l: int, r: int)
      requires Valid() && Interval(i) && !Coherent(i) && 0 < d <= Reach() + 1
      requires BeginsUnseen(i) ==> LeftFound(i, l0, r0)
      requires FirstPassed(i, l0, r0) && RightSoFar(i, d, l0, r0, l, r)
      ensures !TrueEdges(i, l, r)
    {
      CoherentIff(i);
      if BeginsUnseen(i) {
        LeftEdgeStaysUnset(i, d, l0, r0, l, r);
      } else if EndsBefore(i) {
        EndsBeforeIsMissed(i, d, l0, r0, l, r);
      } else {
        BeginsAfterIsMissed(i, d, l0, r0, l, r);
      }
    }

    /** For a bit whose window is an interval the full sweeps find the true edges exactly if it is coherent. */
    lemma TrueEdgesIffCoherent(i: int, l0: int, r0: int, l: int, r: int)
      requires Valid() && Interval(i)
      requires LeftFound(i, l0, r0) && RightSoFar(i, Reach() + 1, l0, r0, l, r)
      ensures TrueEdges(i, l, r) <==> Coherent(i)
    {
      if Coherent(i) {
        EdgesFound(i, Reach() + 1, l0, r0, l, r);
      } else {
        if L(i, 0) {
          assert !LeftUnseen(i, max + 1);
          PassesFirst(i, max + 1, l0, r0);
        }
        WrongUnlessCoherent(i, Reach() + 1, l0, r0, l, r);
      }
    }
  }

  /** A bit that passes only at 0 in the first sweep and only at 5 in the second: the sweeps record [0, 5]. */
  lemma FalsePassWitness(eye: Eye)
    requires eye.max == eye.dqsMax == 31 && eye.start == 0
    requires forall x | -31 <= x <= 31 :: eye.L(0, x) == (x == 0)
    requires forall x | -31 <= x <= 31 :: eye.R(0, x) == (x == 5)
    ensures eye.Valid() && eye.BeginsAfter(0) && !eye.BeginsUnseen(0) && eye.HasWindow(0)
    ensures eye.LeftFound(0, 0, 32) && eye.RightSoFar(0, 32, 0, 32, 0, 5)
    ensures !eye.TrueEdges(0, 0, 5) && !eye.Passes(0, 0)
  {
    assert eye.Passes(0, 5) && eye.R(0, 5) && eye.L(0, 0);
    assert !eye.LeftUnseen(0, 32) && !eye.RightUnseen(0, 32);
  }

  /** A bit with the window [0, 5] that fails the first test at 0 and passes the second. */
  lemma UnseenWitness()
    ensures var eye := Eye(31, 31, 0, (i, x) => 0 < x <= 5, (i, x) => 0 <= x <= 5);
            eye.Valid() && eye.BeginsUnseen(0) && eye.HasWindow(0)
  {
    var eye := Eye(31, 31, 0, (i, x) => 0 < x <= 5, (i, x) => 0 <= x <= 5);
    assert eye.Passes(0, 0);
  }
}
