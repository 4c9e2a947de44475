/**
 The scan-chain delay registers of one DQS group and the two window-edge sweeps over them, which
 read and write deskew share.
 */
module Lanes {
  import opened BitFields
  import opened Eyes

  /**
   The DQ delay of every pin, the DQS delay of the group, and the tester. A bit is tested at the
   delays the registers hold: its verdict depends on how far DQS is behind its own DQ.
   */
  class Lane {
    const bits: nat
    const max: int
    const dqsMax: int
    const dqSweep: Tester
    const dqsSweep: Tester
    const dq: array<int>
    var dqs: int

    constructor (bits: nat, max: int, dqsMax: int, dqSweep: Tester, dqsSweep: Tester, dq: array<int>, dqs: int)
      ensures this.bits == bits && this.max == max && this.dqsMax == dqsMax
      ensures this.dqSweep == dqSweep && this.dqsSweep == dqsSweep && this.dq == dq && this.dqs == dqs
    {
      this.bits, this.max, this.dqsMax := bits, max, dqsMax;
      this.dqSweep, this.dqsSweep, this.dq, this.dqs := dqSweep, dqsSweep, dq, dqs;
    }

    /** The group's pins, from pin `first` on, exist and every register holds a legal delay. */
    ghost predicate Valid(first: nat)
      reads this, dq
    {
      && 1 <= bits <= WIDTH
      && first + bits <= dq.Length
      && 0 <= dqs <= dqsMax <= max
      && forall p | 0 <= p < dq.Length :: 0 <= dq[p] <= max
    }

    function EyeAt(start: int): Eye {
      Eye(max, dqsMax, start, dqSweep, dqsSweep)
    }

    /** The tester's verdict on every bit at the current delays. */
    method Test(t: Tester, first: nat) returns (chk: Field)
      requires 1 <= bits <= WIDTH && first + bits <= dq.Length
      ensures forall k | 0 <= k < bits :: chk[k] <==> t(k, dqs - dq[first + k])
      ensures forall k | bits <= k < WIDTH :: !chk[k]
    {
      chk := seq(WIDTH, k requires 0 <= k < WIDTH reads this, dq => k < bits && t(k, dqs - dq[first + k]));
    }

    /** With every DQ at delay d the tester answers for position -d of the first sweep. */
    method TestDelay(first: nat, d: int) returns (chk: Field)
      requires 1 <= bits <= WIDTH && first + bits <= dq.Length
      requires forall p | first <= p < first + bits :: dq[p] == d
      ensures forall k | 0 <= k < WIDTH :: chk[k] <==> k < bits && EyeAt(dqs).AtDelay(k, d)
    {
      chk := Test(dqSweep, first);
      forall k | 0 <= k < bits ensures chk[k] <==> EyeAt(dqs).AtDelay(k, d) {
        assert dq[first + k] == d;
      }
    }

    /** With every DQ at zero the tester answers for the position DQS has been moved by. */
    method TestOffset(first: nat, ghost start: int, d: int) returns (chk: Field)
      requires 1 <= bits <= WIDTH && first + bits <= dq.Length
      requires dqs == start + d && forall p | first <= p < first + bits :: dq[p] == 0
      ensures forall k | 0 <= k < WIDTH :: chk[k] <==> k < bits && EyeAt(start).R(k, d)
    {
      chk := Test(dqsSweep, first);
      forall k | 0 <= k < bits ensures chk[k] <==> EyeAt(start).R(k, d) {
        assert dq[first + k] == 0;
      }
    }

    /** Sets the DQ delay of the group's pins and of no other. */
    method ApplyDq(first: nat, delay: int)
      requires Valid(first) && 0 <= delay <= max
      modifies dq
      ensures Valid(first)
      ensures forall p | 0 <= p < dq.Length ::
                dq[p] == if first <= p < first + bits then delay else old(dq[p])
    {
      var i := 0;
      while i < bits
        invariant 0 <= i <= bits
        invariant forall p | 0 <= p < dq.Length ::
                    dq[p] == if first <= p < first + i then delay else old(dq[p])
      {
        dq[first + i] := delay;
        i := i + 1;
      }
    }

    /**
     Raises all DQ delays step by step, noting per bit the last passing delay as its left edge and,
     while it has not passed yet, a provisional right edge. Stops at the first delay where nothing
     passes although everything has passed before. Leaves the DQ delays at zero.
     */
    method SweepDq(first: nat, left: array<int>, right: array<int>)
      requires Valid(first)
      requires left.Length == right.Length == bits && left != right && left != dq && right != dq
      modifies dq, left, right
      ensures Valid(first)
      ensures forall p | 0 <= p < dq.Length ::
                dq[p] == if first <= p < first + bits then 0 else old(dq[p])
      ensures forall i | 0 <= i < bits && (EyeAt(dqs).Coherent(i) || EyeAt(dqs).BeginsUnseen(i)) ::
                EyeAt(dqs).LeftSoFar(i, max + 1, left[i], right[i])
      ensures forall i | 0 <= i < bits :: EyeAt(dqs).FirstPassed(i, left[i], right[i])
    {
      ghost var eye := EyeAt(dqs);
      ClearEdges(left, right);
      var sticky := Zero();
      var d := 0;
      var stop := false;
      while d <= max && !stop
        invariant 0 <= d <= max + 1
        invariant stop ==> d <= max && forall j | 0 <= j < bits :: !eye.AtDelay(j, d) && !eye.LeftUnseen(j, d)
        invariant stop ==> 0 < d
        invariant Valid(first)
        invariant forall p | 0 <= p < dq.Length && !(first <= p < first + bits) :: dq[p] == old(dq[p])
        invariant eye.LeftKnown(bits, d, sticky, left[..], right[..])
        decreases max + 1 - d, if stop then 0 else 1
      {
        ApplyDq(first, d);
        stop, sticky := StepDq(first, d, sticky, left, right);
        if !stop {
          d := d + 1;
        } else {
          assert !eye.LeftUnseen(0, d);
        }
      }
      ApplyDq(first, 0);
      forall j | 0 <= j < bits && (eye.Coherent(j) || eye.BeginsUnseen(j))
        ensures eye.LeftSoFar(j, max + 1, left[j], right[j])
      {
        assert eye.LeftSoFar(j, d, left[..][j], right[..][j]);
        if eye.Coherent(j) {
          eye.LeftStop(j, d, left[j], right[j]);
        } else {
          eye.UnseenOnTheLeft(j);
        }
      }
      forall j | 0 <= j < bits ensures eye.FirstPassed(j, left[j], right[j]) {
        assert eye.LeftSoFar(j, d, left[..][j], right[..][j]);
        eye.PassesFirst(j, d, left[j], right[j]);
      }
    }

    /** Tests at DQ delay d and notes the verdicts, unless the search may stop here. */
    method StepDq(first: nat, d: int, sticky: Field, left: array<int>, right: array<int>)
      returns (stop: bool, seen: Field)
      requires Valid(first) && 0 <= d <= max
      requires forall p | first <= p < first + bits :: dq[p] == d
      requires left.Length == right.Length == bits && left != right && left != dq && right != dq
      requires EyeAt(dqs).LeftKnown(bits, d, sticky, left[..], right[..])
      modifies left, right
      ensures stop ==> seen == sticky && left[..] == old(left[..]) && right[..] == old(right[..])
      ensures stop ==> forall j | 0 <= j < bits :: !EyeAt(dqs).AtDelay(j, d) && !EyeAt(dqs).LeftUnseen(j, d)
      ensures !stop ==> EyeAt(dqs).LeftKnown(bits, d + 1, seen, left[..], right[..])
    {
      ghost var eye := EyeAt(dqs);
      ghost var l, r := left[..], right[..];
      var chk := TestDelay(first, d);
      seen := Or(sticky, chk);
      stop := chk == Zero() && seen == Low(bits);
      if stop {
        eye.LeftHalt(bits, d, sticky, chk, l, r);
        seen := sticky;
      } else {
        NoteLeft(d, chk, left, right);
        eye.LeftAdvance(bits, d, sticky, chk, l, r);
      }
    }

    /** Marks both edges of every bit as not seen. */
    method ClearEdges(left: array<int>, right: array<int>)
      requires left.Length == right.Length == bits && left != right
      modifies left, right
      ensures forall j | 0 <= j < bits :: left[j] == right[j] == max + 1
    {
      var i := 0;
      while i < bits
        invariant 0 <= i <= bits
        invariant forall j | 0 <= j < i :: left[j] == right[j] == max + 1
      {
        left[i], right[i] := max + 1, max + 1;
        i := i + 1;
      }
    }

    /** One step of the first sweep: the verdicts at DQ delay d, bit by bit. */
    method NoteLeft(d: int, verdicts: Field, left: array<int>, right: array<int>)
      requires 1 <= bits <= WIDTH
      requires left.Length == right.Length == bits && left != right
      modifies left, right
      ensures left[..] == EyeAt(dqs).LeftNoted(d, verdicts, old(left[..]))
      ensures right[..] == EyeAt(dqs).RightNoted(d, verdicts, old(left[..]), old(right[..]))
    {
      var chk := verdicts;
      var i := 0;
      ShrNext(verdicts, 0);
      while i < bits
        invariant 0 <= i <= bits
        invariant chk == Shr(verdicts, i)
        invariant forall j | 0 <= j < bits ::
                    left[j] == if j < i && verdicts[j] then d else old(left[j])
        invariant forall j | 0 <= j < bits ::
                    right[j] == if j < i && !verdicts[j] && old(left[j]) == max + 1 then -(d + 1) else old(right[j])
      {
        ShrNext(verdicts, i);
        if chk[0] {
          left[i] := d;
        } else if left[i] == max + 1 {
          right[i] := -(d + 1);
        }
        chk := Shr(chk, 1);
        i := i + 1;
      }
    }

    /**
     Between the sweeps: unsets the right edges of bits the first sweep never saw pass, and returns
     the bits that need not pass again before the second sweep may stop. Write deskew asks only for
     a left edge, read deskew for both.
     */
    method Rearm(left: array<int>, right: array<int>, both: bool) returns (sticky: Field)
      requires 1 <= bits <= WIDTH && left.Length == right.Length == bits && left != right
      modifies right
      ensures forall j | 0 <= j < bits ::
                right[j] == if left[j] == max + 1 then max + 1 else old(right[j])
      ensures forall k | 0 <= k < WIDTH ::
                sticky[k] <==> k < bits && left[k] != max + 1 && (both ==> right[k] != max + 1)
    {
      sticky := Zero();
      var i := bits - 1;
      while i >= 0
        invariant -1 <= i < bits
        invariant forall j | 0 <= j < bits ::
                    right[j] == if i < j && left[j] == max + 1 then max + 1 else old(right[j])
        invariant forall k | 0 <= k < WIDTH ::
                    sticky[k] <==>
                    && k + i + 1 < bits && left[k + i + 1] != max + 1
                    && (both ==> right[k + i + 1] != max + 1)
      {
        if left[i] == max + 1 && right[i] != max + 1 {
          right[i] := max + 1;
        }
        sticky := Shl(sticky, 1);
        if left[i] != max + 1 && (both ==> right[i] != max + 1) {
          sticky := sticky[0 := true];
        }
        i := i - 1;
      }
    }

    /**
     With the DQ delays at zero, raises DQS step by step from where it is and completes the edges.
     Stops at the first step where nothing passes although every bit is accounted for; if that is
     the very first step, `settle` says whether bits that passed there before get -1 as right edge.
     */
    method SweepDqs(first: nat, left: array<int>, right: array<int>, armed: Field, settle: bool)
      requires Valid(first) && forall p | first <= p < first + bits :: dq[p] == 0
      requires left.Length == right.Length == bits && left != right && left != dq && right != dq
      requires forall k | 0 <= k < WIDTH && armed[k] :: k < bits && left[k] != max + 1
      requires settle || forall k | 0 <= k < bits && armed[k] :: right[k] != max + 1
      requires forall j | 0 <= j < bits && left[j] == max + 1 :: right[j] == max + 1
      modifies `dqs, left, right
      ensures Valid(first)
      ensures forall i | 0 <= i < bits && EyeAt(old(dqs)).Coherent(i) &&
                         EyeAt(old(dqs)).LeftFound(i, old(left[i]), old(right[i])) ::
                EyeAt(old(dqs)).TrueEdges(i, left[i], right[i])
      ensures forall i | 0 <= i < bits && EyeAt(old(dqs)).BeginsUnseen(i) &&
                         EyeAt(old(dqs)).LeftFound(i, old(left[i]), old(right[i])) ::
                left[i] == max + 1
      ensures forall i | 0 <= i < bits && EyeAt(old(dqs)).Interval(i) && !EyeAt(old(dqs)).Coherent(i) &&
                         EyeAt(old(dqs)).FirstPassed(i, old(left[i]), old(right[i])) &&
                         (EyeAt(old(dqs)).BeginsUnseen(i) ==>
                            EyeAt(old(dqs)).LeftFound(i, old(left[i]), old(right[i]))) ::
                !EyeAt(old(dqs)).TrueEdges(i, left[i], right[i])
    {
      ghost var eye := EyeAt(dqs);
      ghost var l0, r0 := left[..], right[..];
      var start := dqs;
      var sticky := armed;
      var d := 0;
      var stop := false;
      while d <= dqsMax - start && !stop
        invariant 0 <= d <= eye.Reach() + 1
        invariant stop ==>
                    0 < d && forall j | 0 <= j < bits ::
                      !eye.R(j, d - 1) && (l0[j] != max + 1 || !eye.RightUnseen(j, d - 1))
        invariant Valid(first)
        invariant eye.RightKnown(bits, d, armed, sticky, l0, r0, left[..], right[..])
        decreases dqsMax - start + 1 - d, if stop then 0 else 1
      {
        dqs := start + d;
        stop, sticky := StepDqs(first, start, d, armed, sticky, l0, r0, left, right, settle);
        d := d + 1;
      }
      forall j | 0 <= j < bits && eye.Coherent(j) && eye.LeftFound(j, l0[j], r0[j])
        ensures eye.TrueEdges(j, left[j], right[j])
      {
        assert eye.RightSoFar(j, d, l0[j], r0[j], left[..][j], right[..][j]);
        eye.EdgesFound(j, d, l0[j], r0[j], left[j], right[j]);
      }
      forall j | 0 <= j < bits && eye.BeginsUnseen(j) && eye.LeftFound(j, l0[j], r0[j])
        ensures left[j] == max + 1
      {
        assert eye.RightSoFar(j, d, l0[j], r0[j], left[..][j], right[..][j]);
        eye.LeftEdgeStaysUnset(j, d, l0[j], r0[j], left[j], right[j]);
      }
      forall j | 0 <= j < bits && eye.Interval(j) && !eye.Coherent(j) && eye.FirstPassed(j, l0[j], r0[j]) &&
                 (eye.BeginsUnseen(j) ==> eye.LeftFound(j, l0[j], r0[j]))
        ensures !eye.TrueEdges(j, left[j], right[j])
      {
        assert eye.RightSoFar(j, d, l0[j], r0[j], left[..][j], right[..][j]);
        eye.WrongUnlessCoherent(j, d, l0[j], r0[j], left[j], right[j]);
      }
    }

    /** Tests at DQS offset d and notes the verdicts; says whether the search may stop here. */
    method StepDqs(first: nat, ghost start: int, d: int, ghost armed: Field, sticky: Field,
                   ghost l0: seq<int>, ghost r0: seq<int>, left: array<int>, right: array<int>, settle: bool)
      returns (stop: bool, seen: Field)
      requires Valid(first) && forall p | first <= p < first + bits :: dq[p] == 0
      requires EyeAt(start).Valid() && 0 <= d <= EyeAt(start).Reach() && dqs == start + d
      requires left.Length == right.Length == bits && left != right && left != dq && right != dq
      requires EyeAt(start).RightKnown(bits, d, armed, sticky, l0, r0, left[..], right[..])
      requires forall k | 0 <= k < bits && armed[k] :: l0[k] != max + 1
      requires settle || forall k | 0 <= k < bits && armed[k] :: r0[k] != max + 1
      modifies left, right
      ensures EyeAt(start).RightKnown(bits, d + 1, armed, seen, l0, r0, left[..], right[..])
      ensures stop ==> forall j | 0 <= j < bits ::
                !EyeAt(start).R(j, d) && (l0[j] != max + 1 || !EyeAt(start).RightUnseen(j, d))
    {
      ghost var eye := EyeAt(start);
      ghost var l, r := left[..], right[..];
      var chk := TestOffset(first, start, d);
      seen := Or(sticky, chk);
      stop := chk == Zero() && seen == Low(bits);
      eye.RightAdvance(bits, d, armed, sticky, chk, l0, r0, l, r);
      if stop {
        eye.RightHalt(bits, d, armed, sticky, chk, l0, r0, l, r);
        if settle && d == 0 {
          Settle(left, right);
        }
      } else {
        NoteRight(d, chk, left, right);
      }
    }

    /** One step of the second sweep: the verdicts at DQS offset d, bit by bit. */
    method NoteRight(d: int, verdicts: Field, left: array<int>, right: array<int>)
      requires 1 <= bits <= WIDTH
      requires left.Length == right.Length == bits && left != right
      modifies left, right
      ensures left[..] == EyeAt(dqs).LeftNotedDqs(d, verdicts, old(left[..]), old(right[..]))
      ensures right[..] == EyeAt(dqs).RightNotedDqs(d, verdicts, old(left[..]), old(right[..]))
    {
      var chk := verdicts;
      var i := 0;
      ShrNext(verdicts, 0);
      ghost var l := EyeAt(dqs).LeftNotedDqs(d, verdicts, left[..], right[..]);
      ghost var r := EyeAt(dqs).RightNotedDqs(d, verdicts, left[..], right[..]);
      while i < bits
        invariant 0 <= i <= bits
        invariant chk == Shr(verdicts, i)
        invariant forall j | 0 <= j < bits :: left[j] == if j < i then l[j] else old(left[j])
        invariant forall j | 0 <= j < bits :: right[j] == if j < i then r[j] else old(right[j])
      {
        ShrNext(verdicts, i);
        if chk[0] {
          right[i] := d;
        } else if d != 0 {
          if right[i] == max + 1 {
            left[i] := -(d + 1);
          }
        } else {
          if right[i] == max + 1 && left[i] != max + 1 {
            right[i] := -1;
          } else if right[i] == max + 1 {
            left[i] := -(d + 1);
          }
        }
        chk := Shr(chk, 1);
        i := i + 1;
      }
      assert left[..] == l && right[..] == r;
    }

    /** The first DQS step failed throughout: bits that had passed there only once are marginal. */
    method Settle(left: array<int>, right: array<int>)
      requires 1 <= bits <= WIDTH
      requires left.Length == right.Length == bits && left != right
      modifies right
      ensures right[..] == EyeAt(dqs).RightNotedDqs(0, Zero(), left[..], old(right[..]))
    {
      var i := 0;
      ghost var r := EyeAt(dqs).RightNotedDqs(0, Zero(), left[..], right[..]);
      while i < bits
        invariant 0 <= i <= bits
        invariant forall j | 0 <= j < bits :: right[j] == if j < i then r[j] else old(right[j])
      {
        if right[i] == max + 1 && left[i] != max + 1 {
          right[i] := -1;
        }
        i := i + 1;
      }
      assert right[..] == r;
    }
  }
}
