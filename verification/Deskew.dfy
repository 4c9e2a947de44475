/** What read and write deskew do with the windows once they have them: move every pin. */
module Deskew {
  import opened Lanes
  import opened Centring
  import opened Eyes

  /**
   Both sweeps and the check that every bit has a window. `forWrite` selects what the two callers
   do differently: write deskew waits for left edges only and settles bits if it stops at once.
   */
  method FindWindows(lane: Lane, first: nat, left: array<int>, right: array<int>, forWrite: bool)
    returns (found: bool)
    requires lane.Valid(first)
    requires left.Length == right.Length == lane.bits && left != right && left != lane.dq && right != lane.dq
    modifies lane.dq, lane`dqs, left, right
    ensures lane.Valid(first)
    ensures forall p | 0 <= p < lane.dq.Length ::
              lane.dq[p] == if first <= p < first + lane.bits then 0 else old(lane.dq[p])
    ensures lane.EyeAt(old(lane.dqs)).AllTrueEdges(left[..], right[..])
    ensures forall i | 0 <= i < lane.bits && lane.EyeAt(old(lane.dqs)).Interval(i) ::
              lane.EyeAt(old(lane.dqs)).TrueEdges(i, left[i], right[i]) <==> lane.EyeAt(old(lane.dqs)).Coherent(i)
    ensures found <==> forall i | 0 <= i < lane.bits :: left[i] != lane.max + 1 && right[i] != lane.max + 1
    ensures lane.EyeAt(old(lane.dqs)).AllCoherent(lane.bits) ==>
              (found <==> WindowsMet(lane.EyeAt(old(lane.dqs)), lane.bits))
    ensures lane.EyeAt(old(lane.dqs)).AllSteady(lane.bits) ==>
              (found <==> lane.EyeAt(old(lane.dqs)).AllHaveWindows(lane.bits))
    ensures lane.EyeAt(old(lane.dqs)).OneBeginsUnseen(lane.bits) ==> !found
  {
    lane.SweepDq(first, left, right);
    ghost var eye := lane.EyeAt(lane.dqs);
    var sticky := lane.Rearm(left, right, !forWrite);
    assert forall i | 0 <= i < lane.bits && (eye.Coherent(i) || eye.BeginsUnseen(i)) ::
             eye.LeftFound(i, left[i], right[i]);
    assert forall i | 0 <= i < lane.bits :: eye.FirstPassed(i, left[i], right[i]);
    lane.SweepDqs(first, left, right, sticky, forWrite);
    found := AllFound(left, right, lane.max + 1);
    EdgesMeetWindows(eye, lane.bits, left[..], right[..]);
    if eye.AllSteady(lane.bits) {
      SteadyWindowsMet(eye, lane.bits);
    }
  }

  /** Every bit has a window in range; one that passed the first test at 0 and nowhere again gets by as well. */
  ghost predicate WindowsMet(eye: Eye, bits: nat) {
    forall i | 0 <= i < bits :: eye.HasWindow(i) || eye.L(i, 0)
  }

  lemma EdgesMeetWindows(eye: Eye, bits: nat, l: seq<int>, r: seq<int>)
    requires eye.Valid() && |l| == |r| == bits
    requires eye.AllTrueEdges(l, r)
    ensures eye.AllCoherent(bits) ==>
              ((forall i | 0 <= i < bits :: l[i] != eye.Unset() && r[i] != eye.Unset()) <==> WindowsMet(eye, bits))
  {
    forall i | 0 <= i < bits && eye.Coherent(i)
      ensures l[i] != eye.Unset() && r[i] != eye.Unset() <==> eye.HasWindow(i) || eye.L(i, 0)
    {
      eye.EdgesAreSet(i, l[i], r[i]);
    }
  }

  /** With a steady tester the check is exactly that every bit has a window in range. */
  lemma SteadyWindowsMet(eye: Eye, bits: nat)
    requires eye.Valid() && eye.AllSteady(bits)
    ensures eye.AllCoherent(bits)
    ensures WindowsMet(eye, bits) <==> eye.AllHaveWindows(bits)
  {
    forall i | 0 <= i < bits ensures eye.Coherent(i) && (eye.L(i, 0) ==> eye.HasWindow(i)) {
      eye.SteadyIsCoherent(i);
      assert eye.L(i, 0) ==> eye.Passes(i, 0);
    }
  }

  /** No edge is left unset. */
  method AllFound(left: array<int>, right: array<int>, unset: int) returns (found: bool)
    requires left.Length == right.Length
    ensures found <==> forall i | 0 <= i < left.Length :: left[i] != unset && right[i] != unset
  {
    var i := 0;
    while i < left.Length
      invariant 0 <= i <= left.Length
      invariant forall j | 0 <= j < i :: left[j] != unset && right[j] != unset
    {
      if left[i] == unset || right[i] == unset {
        return false;
      }
      i := i + 1;
    }
    return true;
  }

  /** The index of the first bit whose l - r is smallest. */
  method SmallestMid(left: array<int>, right: array<int>) returns (index: nat)
    requires left.Length == right.Length > 0
    ensures index < left.Length
    ensures forall j | 0 <= j < left.Length :: left[index] - right[index] <= left[j] - right[j]
  {
    var midMin := left[0] - right[0];
    index := 0;
    var i := 1;
    while i < left.Length
      invariant 1 <= i <= left.Length && 0 <= index < left.Length
      invariant midMin == left[index] - right[index]
      invariant forall j | 0 <= j < i :: midMin <= left[j] - right[j]
    {
      var mid := left[i] - right[i];
      if mid < midMin {
        midMin, index := mid, i;
      }
      i := i + 1;
    }
  }

  /** The move asked of every bit's pin. */
  function Shifts(l: seq<int>, r: seq<int>, smallest: int, moved: int): (s: seq<int>)
    requires |l| == |r|
    ensures |s| == |l|
  {
    seq(|l|, i requires 0 <= i < |l| => Shift(l[i], r[i], smallest, moved))
  }

  /** The first k bits all lie inside their windows. */
  ghost predicate AllFit(l: seq<int>, r: seq<int>, moved: int, pins: seq<int>, first: nat, k: nat)
    requires k <= |l| == |r| && first + |l| <= |pins|
  {
    forall i | 0 <= i < k :: MarginAt(l[i], r[i], moved, pins[first + i]) >= 0
  }

  lemma AllFitNext(l: seq<int>, r: seq<int>, moved: int, before: seq<int>, after: seq<int>, first: nat, k: nat)
    requires k < |l| == |r| && first + |l| <= |before| == |after|
    requires forall p | 0 <= p < |before| && p != first + k :: after[p] == before[p]
    ensures AllFit(l, r, moved, after, first, k + 1) <==>
            AllFit(l, r, moved, before, first, k) && MarginAt(l[k], r[k], moved, after[first + k]) >= 0
  {
    if AllFit(l, r, moved, after, first, k + 1) {
      assert forall i | 0 <= i < k :: MarginAt(l[i], r[i], moved, after[first + i]) >= 0;
    }
  }

  /** Moves one pin, clamping; the upper clamp reads the pin numbered like the bit. */
  method MovePin(lane: Lane, first: nat, i: nat, wish: int) returns (shift: int)
    requires first + i < lane.dq.Length
    modifies lane.dq
    ensures shift == Clamped(lane.max, wish, old(lane.dq[first + i]), old(lane.dq[i]))
    ensures lane.dq[..] == old(lane.dq[..])[first + i := old(lane.dq[first + i]) + shift]
  {
    var p := first + i;
    shift := wish;
    if shift + lane.dq[p] > lane.max {
      shift := lane.max - lane.dq[i];
    } else if shift + lane.dq[p] < 0 {
      shift := -lane.dq[p];
    }
    lane.dq[p] := lane.dq[p] + shift;
  }

  /** Lowers the two margins to what one moved bit has left. */
  method TakeMargins(l: int, r: int, moved: int, shift: int, dqMargin: int, dqsMargin: int)
    returns (dqLeft: int, dqsLeft: int)
    ensures dqLeft == (if l - shift - moved < dqMargin then l - shift - moved else dqMargin)
    ensures dqsLeft == (if r + shift + moved < dqsMargin then r + shift + moved else dqsMargin)
    ensures dqLeft >= 0 && dqsLeft >= 0 <==>
            dqMargin >= 0 && dqsMargin >= 0 && MarginAt(l, r, moved, shift) >= 0
  {
    dqLeft, dqsLeft := dqMargin, dqsMargin;
    if l - shift + -moved < dqLeft {
      dqLeft := l - shift + -moved;
    }
    if r + shift - -moved < dqsLeft {
      dqsLeft := r + shift - -moved;
    }
  }

  /**
   Moves every DQ pin of the group in turn, with DQS moved back by `moved`. The two results are the
   smallest distances from the windows' left and right edges, from a ceiling down.
   */
  method MovePins(lane: Lane, first: nat, left: array<int>, right: array<int>, index: nat, moved: int)
    returns (dqMargin: int, dqsMargin: int)
    requires lane.Valid(first) && forall p | first <= p < first + lane.bits :: lane.dq[p] == 0
    requires left.Length == right.Length == lane.bits && left != lane.dq && right != lane.dq
    requires index < lane.bits
    modifies lane.dq
    ensures lane.Valid(first)
    ensures lane.dq[..] == Program(lane.max, first, Shifts(left[..], right[..], left[index] - right[index], moved),
                                   old(lane.dq[..]), lane.bits)
    ensures dqMargin >= 0 && dqsMargin >= 0 <==>
            AllFit(left[..], right[..], moved, lane.dq[..], first, lane.bits)
  {
    ghost var pins := lane.dq[..];
    ghost var shifts := Shifts(left[..], right[..], left[index] - right[index], moved);
    dqMargin, dqsMargin := MoveInTurn(lane, first, left, right, index, moved, shifts);
    Legal(lane.max, first, shifts, pins, lane.dq[..]);
    assert forall p | 0 <= p < lane.dq.Length :: lane.dq[p] == lane.dq[..][p];
  }

  method MoveInTurn(lane: Lane, first: nat, left: array<int>, right: array<int>, index: nat, moved: int,
                    ghost shifts: seq<int>)
    returns (dqMargin: int, dqsMargin: int)
    requires lane.Valid(first) && forall p | first <= p < first + lane.bits :: lane.dq[p] == 0
    requires left.Length == right.Length == lane.bits && left != lane.dq && right != lane.dq
    requires index < lane.bits && shifts == Shifts(left[..], right[..], left[index] - right[index], moved)
    modifies lane.dq
    ensures lane.dq[..] == Program(lane.max, first, shifts, old(lane.dq[..]), lane.bits)
    ensures dqMargin >= 0 && dqsMargin >= 0 <==>
            AllFit(left[..], right[..], moved, lane.dq[..], first, lane.bits)
  {
    ghost var pins := lane.dq[..];
    ghost var l, r := left[..], right[..];
    assert forall p | 0 <= p < |pins| :: 0 <= pins[p] <= lane.max;
    assert forall p | first <= p < first + lane.bits :: pins[p] == 0;
    var wanted := DqsMove(left[index] - right[index]);
    dqMargin, dqsMargin := lane.max + 1, lane.max + 1;
    var i := 0;
    while i < lane.bits
      invariant 0 <= i <= lane.bits
      invariant left[..] == l && right[..] == r
      invariant lane.dq[..] == Program(lane.max, first, shifts, pins, i)
      invariant dqMargin >= 0 && dqsMargin >= 0 <==> AllFit(l, r, moved, lane.dq[..], first, i)
    {
      var wish := Half(left[i] - right[i] - (left[index] - right[index])) + (wanted - moved);
      var shift := MoveNext(lane, first, pins, shifts, l, r, moved, i, wish);
      dqMargin, dqsMargin := TakeMargins(left[i], right[i], moved, shift, dqMargin, dqsMargin);
      i := i + 1;
    }
  }

  /** Moves pin first + i after its predecessors have been moved from `pins`. */
  method MoveNext(lane: Lane, first: nat, ghost pins: seq<int>, ghost shifts: seq<int>,
                  ghost l: seq<int>, ghost r: seq<int>, ghost moved: int, i: nat, wish: int)
    returns (shift: int)
    requires i < lane.bits == |shifts| == |l| == |r| && first + lane.bits <= lane.dq.Length == |pins|
    requires forall p | 0 <= p < |pins| :: 0 <= pins[p] <= lane.max
    requires forall p | first <= p < first + lane.bits :: pins[p] == 0
    requires lane.dq[..] == Program(lane.max, first, shifts, pins, i) && wish == shifts[i]
    modifies lane.dq
    ensures lane.dq[..] == Program(lane.max, first, shifts, pins, i + 1)
    ensures AllFit(l, r, moved, lane.dq[..], first, i + 1) <==>
            AllFit(l, r, moved, old(lane.dq[..]), first, i) && MarginAt(l[i], r[i], moved, shift) >= 0
  {
    ghost var before := lane.dq[..];
    ProgramStaysLegal(lane.max, first, shifts, pins, i);
    assert before[first + i] == pins[first + i] == 0;
    shift := MovePin(lane, first, i, wish);
    AllFitNext(l, r, moved, before, lane.dq[..], first, i);
    assert lane.dq[..][first + i] == shift;
  }

  lemma Legal(max: int, first: nat, shifts: seq<int>, pins: seq<int>, after: seq<int>)
    requires first + |shifts| <= |pins| && after == Program(max, first, shifts, pins, |shifts|)
    requires forall p | 0 <= p < |pins| :: 0 <= pins[p] <= max
    requires forall p | first <= p < first + |shifts| :: pins[p] == 0
    ensures forall p | 0 <= p < |after| :: 0 <= after[p] <= max
  {
    ProgramStaysLegal(max, first, shifts, pins, |shifts|);
  }
}
