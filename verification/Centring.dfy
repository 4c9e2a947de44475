/**
 Arithmetic of per-bit deskew: where the middle of a window is, how far a pin is moved, and what
 that leaves to the nearest window edge. Windows are given as the sweeps record them, [-l, r].
 */
module Centring {

  /** C's a / 2, which rounds toward zero. */
  function Half(a: int): (q: int)
    ensures if a >= 0 then 2 * q <= a <= 2 * q + 1 else 2 * q - 1 <= a <= 2 * q
  {
    if a >= 0 then a / 2 else -(-a / 2)
  }

  /** How far DQS has to move back for the bit with the smallest l - r: half of it, rounded up. */
  function DqsMove(smallest: int): int {
    Half(if smallest > 0 then smallest + 1 else smallest)
  }

  /** Distance of position x from the nearer edge of [-l, r]; negative outside. */
  function Margin(l: int, r: int, x: int): int {
    if x + l < r - x then x + l else r - x
  }

  /** The margin with DQS moved back by `moved` and the pin's DQ delay at `delay`. */
  function MarginAt(l: int, r: int, moved: int, delay: int): int {
    Margin(l, r, -moved - delay)
  }

  /** No DQ delay the pin can have leaves a larger margin. */
  ghost predicate Best(l: int, r: int, moved: int, max: int, delay: int) {
    && 0 <= delay <= max
    && forall d | 0 <= d <= max :: MarginAt(l, r, moved, d) <= MarginAt(l, r, moved, delay)
  }

  function Clamp(x: int, max: int): int {
    if x > max then max else if x < 0 then 0 else x
  }

  /** The move of a pin's DQ delay when DQS really moved back by `moved` instead of `wanted`. */
  function Shift(l: int, r: int, smallest: int, moved: int): int {
    Half(l - r - smallest) + (DqsMove(smallest) - moved)
  }

  function Abs(a: int): nat {
    if a < 0 then -a else a
  }

  /** Where DQS goes for the smallest l - r of the group. */
  function NewDqs(start: int, smallest: int, dqsMax: int): int {
    Clamp(start - DqsMove(smallest), dqsMax)
  }

  /** Twice how far DQS at q falls short of the middle of the bit with the smallest l - r, its pin at 0. */
  function PastMiddle(start: int, q: int, smallest: int): int {
    2 * (start - q) - smallest
  }

  /** No DQS delay is nearer to that bit's middle; of two as near the one further back is taken. */
  ghost predicate NearestDqs(start: int, dqs: int, smallest: int, dqsMax: int) {
    && 0 <= dqs <= dqsMax
    && forall q | 0 <= q <= dqsMax ::
         && Abs(PastMiddle(start, dqs, smallest)) <= Abs(PastMiddle(start, q, smallest))
         && (0 <= PastMiddle(start, q, smallest) <= 1 ==> q == dqs)
  }

  lemma NewDqsIsNearest(start: int, smallest: int, dqsMax: int)
    requires 0 <= dqsMax
    ensures NearestDqs(start, NewDqs(start, smallest, dqsMax), smallest, dqsMax)
  {
  }

  /** The unclamped move leaves the two margins at most one tap apart, the larger on the side `smallest` says. */
  lemma ShiftBalances(l: int, r: int, smallest: int, moved: int)
    requires smallest <= l - r
    ensures var x := -moved - Shift(l, r, smallest, moved);
            if smallest % 2 == 0 then 0 <= (x + l) - (r - x) <= 1 else -1 <= (x + l) - (r - x) <= 0
  {
  }

  /** No position has a margin above half the width; the unclamped move reaches it, rounded down. */
  lemma UnclampedMargin(l: int, r: int, smallest: int, moved: int)
    requires smallest <= l - r
    ensures forall delay :: MarginAt(l, r, moved, delay) <= (l + r) / 2
    ensures MarginAt(l, r, moved, Shift(l, r, smallest, moved)) == (l + r) / 2
  {
    ShiftBalances(l, r, smallest, moved);
  }

  /** A pin whose move needs no clamp ends with half the width on its shorter side, like any best delay. */
  lemma BestMargin(l: int, r: int, smallest: int, moved: int, max: int, delay: int)
    requires smallest <= l - r && 0 <= Shift(l, r, smallest, moved) <= max && Best(l, r, moved, max, delay)
    ensures MarginAt(l, r, moved, delay) == (l + r) / 2
  {
    UnclampedMargin(l, r, smallest, moved);
  }

  /** The clamped move from zero is the best the pin can do, with DQS where it has been put. */
  lemma ClampedShiftIsBest(l: int, r: int, smallest: int, moved: int, max: int)
    requires smallest <= l - r && 0 <= max
    ensures Best(l, r, moved, max, Clamp(Shift(l, r, smallest, moved), max))
  {
    ShiftBalances(l, r, smallest, moved);
  }

  /**
   The move after clamping. The upper limit subtracts the delay of another pin, `other`; the two
   agree when the group starts at pin 0.
   */
  function Clamped(max: int, shift: int, own: int, other: int): int {
    if shift + own > max then max - other
    else if shift + own < 0 then -own
    else shift
  }

  /** The pins after the first k bits of the group starting at pin `first` have been moved in turn. */
  function Program(max: int, first: nat, shifts: seq<int>, pins: seq<int>, k: nat): (done: seq<int>)
    requires k <= |shifts| && first + |shifts| <= |pins|
    ensures |done| == |pins|
  {
    if k == 0 then pins
    else
      var before := Program(max, first, shifts, pins, k - 1);
      var p := first + k - 1;
      before[p := before[p] + Clamped(max, shifts[k - 1], before[p], before[k - 1])]
  }

  /** Pins not reached yet are untouched, and moving pins that start at zero keeps all delays legal. */
  lemma {:induction false} ProgramStaysLegal(max: int, first: nat, shifts: seq<int>, pins: seq<int>, k: nat)
    requires k <= |shifts| && first + |shifts| <= |pins|
    requires forall p | 0 <= p < |pins| :: 0 <= pins[p] <= max
    requires forall p | first <= p < first + |shifts| :: pins[p] == 0
    ensures forall p | 0 <= p < |pins| :: 0 <= Program(max, first, shifts, pins, k)[p] <= max
    ensures forall p | 0 <= p < |pins| && !(first <= p < first + k) ::
              Program(max, first, shifts, pins, k)[p] == pins[p]
  {
    if k > 0 {
      ProgramStaysLegal(max, first, shifts, pins, k - 1);
      var before := Program(max, first, shifts, pins, k - 1);
      var p := first + k - 1;
      assert before[p] == pins[p];
      assert 0 <= before[k - 1] <= max;
    }
  }

  /** In a group that starts at pin 0 every pin ends at its clamped move. */
  lemma {:induction false} ProgramFromPinZero(max: int, shifts: seq<int>, pins: seq<int>, k: nat)
    requires 0 <= max && k <= |shifts| <= |pins|
    requires forall p | 0 <= p < |shifts| :: pins[p] == 0
    ensures var done := Program(max, 0, shifts, pins, k);
            && (forall i | 0 <= i < k :: done[i] == Clamp(shifts[i], max))
            && (forall p | k <= p < |pins| :: done[p] == pins[p])
  {
    if k > 0 {
      ProgramFromPinZero(max, shifts, pins, k - 1);
    }
  }

  /** What one bit is moved by: the clamp of its shift, short by another pin's delay at the top. */
  lemma {:induction false} ProgrammedPin(max: int, first: nat, shifts: seq<int>, pins: seq<int>, i: nat, k: nat)
    requires i < k <= |shifts| && first + |shifts| <= |pins|
    requires forall p | 0 <= p < |pins| :: 0 <= pins[p] <= max
    requires forall p | first <= p < first + |shifts| :: pins[p] == 0
    ensures Program(max, first, shifts, pins, k)[first + i] ==
            if shifts[i] > max then max - Program(max, first, shifts, pins, i)[i] else Clamp(shifts[i], max)
  {
    if k == i + 1 {
      ProgramStaysLegal(max, first, shifts, pins, i);
    } else {
      ProgrammedPin(max, first, shifts, pins, i, k - 1);
    }
  }

  /**
   The programmed delay is the best one the pin can have exactly when the upper clamp was not
   taken or subtracted nothing.
   */
  lemma BestUnlessMisclamped(l: int, r: int, smallest: int, moved: int, max: int, other: int)
    requires smallest <= l - r && 0 <= other <= max
    ensures var shift := Shift(l, r, smallest, moved);
            var delay := if shift > max then max - other else Clamp(shift, max);
            Best(l, r, moved, max, delay) <==> (shift <= max || other == 0)
  {
    var shift := Shift(l, r, smallest, moved);
    var delay := if shift > max then max - other else Clamp(shift, max);
    ShiftBalances(l, r, smallest, moved);
    ClampedShiftIsBest(l, r, smallest, moved, max);
    if shift > max && other != 0 {
      assert MarginAt(l, r, moved, max) > MarginAt(l, r, moved, delay);
    }
  }

  /**
   The second group of eight pins, behind a first one whose pins stand at 5: the clamp reads pin 0
   and leaves pin 8 five taps short. The first group alone gets the whole move.
   */
  lemma MisclampWitness()
    ensures var shifts := [40, 0, 0, 0, 0, 0, 0, 0];
            && Program(31, 8, shifts, [5, 5, 5, 5, 5, 5, 5, 5, 0, 0, 0, 0, 0, 0, 0, 0], 8)[8] == 26
            && Program(31, 0, shifts, [0, 0, 0, 0, 0, 0, 0, 0, 0, 0, 0, 0, 0, 0, 0, 0], 8)[0] == 31
  {
    var shifts := [40, 0, 0, 0, 0, 0, 0, 0];
    ProgrammedPin(31, 8, shifts, [5, 5, 5, 5, 5, 5, 5, 5, 0, 0, 0, 0, 0, 0, 0, 0], 0, 8);
    ProgrammedPin(31, 0, shifts, [0, 0, 0, 0, 0, 0, 0, 0, 0, 0, 0, 0, 0, 0, 0, 0], 0, 8);
  }
}
