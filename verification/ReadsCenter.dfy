/**
 Read deskew of one DQS group: find every bit's window, move DQS to centre the bit that asks for the
 latest strobe, and move every DQ to the middle of its own window.
 */
module ReadsCenter {
  import opened Eyes
  import opened Lanes
  import opened Centring
  import opened Deskew

  /** Bit i passes at position x, and x is one of the positions the sweeps could test. */
  predicate Sound(eye: Eye, i: int, x: int) {
    -eye.max <= x <= eye.Reach() && eye.Passes(i, x)
  }

  /** Bit i passes with DQS moved back by `moved` and the pins as given. */
  predicate BitSound(eye: Eye, moved: int, pins: seq<int>, first: nat, i: int)
    requires 0 <= i && first + i < |pins|
  {
    Sound(eye, i, -moved - pins[first + i])
  }

  predicate AllSound(eye: Eye, moved: int, pins: seq<int>, first: nat, bits: nat)
    requires first + bits <= |pins|
  {
    forall i | 0 <= i < bits :: BitSound(eye, moved, pins, first, i)
  }

  /** A position is inside the recorded window exactly if it is a tested position that passes. */
  lemma FitIsSound(eye: Eye, i: int, l: int, r: int, moved: int, delay: int)
    requires eye.Valid() && eye.Coherent(i) && eye.TrueEdges(i, l, r) && r != eye.Unset()
    ensures MarginAt(l, r, moved, delay) >= 0 <==> Sound(eye, i, -moved - delay)
  {
  }

  lemma NoWindowIsUnsound(eye: Eye, i: int, l: int, r: int, x: int)
    requires eye.Valid() && eye.TrueEdges(i, l, r)
    requires l == eye.Unset() || r == eye.Unset()
    ensures !Sound(eye, i, x)
  {
  }

  lemma FitsAreSound(eye: Eye, bits: nat, l: seq<int>, r: seq<int>, moved: int, pins: seq<int>, first: nat)
    requires eye.Valid() && |l| == |r| == bits && first + bits <= |pins|
    requires eye.AllTrueEdges(l, r)
    requires forall i | 0 <= i < bits :: l[i] != eye.Unset() && r[i] != eye.Unset()
    ensures AllFit(l, r, moved, pins, first, bits) ==>
              forall i | 0 <= i < bits && eye.Coherent(i) :: BitSound(eye, moved, pins, first, i)
    ensures eye.AllCoherent(bits) ==>
              (AllFit(l, r, moved, pins, first, bits) <==>
               AllSound(eye, moved, pins, first, bits))
  {
    forall i | 0 <= i < bits && eye.Coherent(i)
      ensures MarginAt(l[i], r[i], moved, pins[first + i]) >= 0 <==> BitSound(eye, moved, pins, first, i)
    {
      FitIsSound(eye, i, l[i], r[i], moved, pins[first + i]);
    }
    if !AllFit(l, r, moved, pins, first, bits) {
      var i :| 0 <= i < bits && MarginAt(l[i], r[i], moved, pins[first + i]) < 0;
      assert eye.Coherent(i) ==> !BitSound(eye, moved, pins, first, i);
    }
  }

  /**
   Each pin got the best delay it can have for the DQS delay, unless the upper clamp was taken and
   pin i, which it reads instead of pin first + i, was not at zero then.
   */
  ghost predicate BestUnlessMisread(l: seq<int>, r: seq<int>, smallest: int, moved: int, max: int,
                                    first: nat, before: seq<int>, after: seq<int>, i: nat)
    requires i < |l| == |r| && first + |l| <= |before| == |after|
  {
    Best(l[i], r[i], moved, max, after[first + i]) <==>
    || Shifts(l, r, smallest, moved)[i] <= max
    || Program(max, first, Shifts(l, r, smallest, moved), before, i)[i] == 0
  }

  lemma PinsAreBest(l: seq<int>, r: seq<int>, smallest: int, moved: int, max: int,
                    first: nat, before: seq<int>, after: seq<int>, i: nat)
    requires i < |l| == |r| && first + |l| <= |before| == |after|
    requires smallest <= l[i] - r[i]
    requires forall p | 0 <= p < |before| :: 0 <= before[p] <= max
    requires forall p | first <= p < first + |l| :: before[p] == 0
    requires after == Program(max, first, Shifts(l, r, smallest, moved), before, |l|)
    ensures BestUnlessMisread(l, r, smallest, moved, max, first, before, after, i)
    ensures first == 0 ==> Best(l[i], r[i], moved, max, after[i])
    ensures 0 <= 2 * moved - smallest <= 1 && l[i] - r[i] == smallest ==> after[first + i] == 0
  {
    var shifts := Shifts(l, r, smallest, moved);
    ProgramStaysLegal(max, first, shifts, before, i);
    ProgrammedPin(max, first, shifts, before, i, |l|);
    BestUnlessMisclamped(l[i], r[i], smallest, moved, max, Program(max, first, shifts, before, i)[i]);
  }

  /**
   What the second half of read deskew programs, given the windows and the cleared pins. If DQS could go
   to the middle of the bits with the smallest l - r, those bits' own pins stay at 0.
   */
  ghost predicate Centred(l: seq<int>, r: seq<int>, smallest: int, moved: int, max: int,
                          first: nat, before: seq<int>, after: seq<int>)
    requires |l| == |r| && first + |l| <= |before| == |after|
  {
    && (exists i | 0 <= i < |l| :: smallest == l[i] - r[i])
    && (forall i | 0 <= i < |l| :: smallest <= l[i] - r[i])
    && (forall i | 0 <= i < |l| :: BestUnlessMisread(l, r, smallest, moved, max, first, before, after, i))
    && (first == 0 ==> forall i | 0 <= i < |l| :: Best(l[i], r[i], moved, max, after[i]))
    && (0 <= 2 * moved - smallest <= 1 ==> forall i | 0 <= i < |l| && l[i] - r[i] == smallest :: after[first + i] == 0)
  }

  /** Moves DQS and every pin to centre the windows found. */
  method CentreWindows(lane: Lane, first: nat, left: array<int>, right: array<int>, start: int)
    returns (ok: bool, moved: int, ghost smallest: int)
    requires lane.Valid(first) && forall p | first <= p < first + lane.bits :: lane.dq[p] == 0
    requires left.Length == right.Length == lane.bits && left != lane.dq && right != lane.dq
    modifies lane.dq, lane`dqs
    ensures lane.Valid(first)
    ensures forall p | 0 <= p < lane.dq.Length && !(first <= p < first + lane.bits) :: lane.dq[p] == old(lane.dq[p])
    ensures lane.dqs == NewDqs(start, smallest, lane.dqsMax) == start - moved
    ensures NearestDqs(start, lane.dqs, smallest, lane.dqsMax)
    ensures ok <==> AllFit(left[..], right[..], moved, lane.dq[..], first, lane.bits)
    ensures Centred(left[..], right[..], smallest, moved, lane.max, first, old(lane.dq[..]), lane.dq[..])
  {
    ghost var l, r, before := left[..], right[..], lane.dq[..];
    var index := SmallestMid(left, right);
    smallest := l[index] - r[index];
    assert forall i | 0 <= i < lane.bits :: l[i] == left[i] && r[i] == right[i];
    var newDqs := start - DqsMove(left[index] - right[index]);
    if newDqs > lane.dqsMax {
      newDqs := lane.dqsMax;
    } else if newDqs < 0 {
      newDqs := 0;
    }
    NewDqsIsNearest(start, smallest, lane.dqsMax);
    moved := start - newDqs;
    var dqMargin, dqsMargin := MovePins(lane, first, left, right, index, moved);
    lane.dqs := newDqs;
    ok := dqMargin >= 0 && dqsMargin >= 0;
    assert left[..] == l && right[..] == r;
    PinsAreCentred(l, r, smallest, moved, lane.max, first, before, lane.dq[..]);
    assert forall p | 0 <= p < lane.dq.Length :: lane.dq[p] == lane.dq[..][p];
  }

  lemma PinsAreCentred(l: seq<int>, r: seq<int>, smallest: int, moved: int, max: int,
                       first: nat, before: seq<int>, after: seq<int>)
    requires |l| == |r| && first + |l| <= |before| == |after|
    requires exists i | 0 <= i < |l| :: smallest == l[i] - r[i]
    requires forall i | 0 <= i < |l| :: smallest <= l[i] - r[i]
    requires forall p | 0 <= p < |before| :: 0 <= before[p] <= max
    requires forall p | first <= p < first + |l| :: before[p] == 0
    requires after == Program(max, first, Shifts(l, r, smallest, moved), before, |l|)
    ensures Centred(l, r, smallest, moved, max, first, before, after)
    ensures forall p | 0 <= p < |before| && !(first <= p < first + |l|) :: after[p] == before[p]
  {
    forall i | 0 <= i < |l|
      ensures BestUnlessMisread(l, r, smallest, moved, max, first, before, after, i)
      ensures first == 0 ==> Best(l[i], r[i], moved, max, after[i])
      ensures 0 <= 2 * moved - smallest <= 1 && l[i] - r[i] == smallest ==> after[first + i] == 0
    {
      PinsAreBest(l, r, smallest, moved, max, first, before, after, i);
    }
    ProgramStaysLegal(max, first, Shifts(l, r, smallest, moved), before, |l|);
  }

  /** Some DQ delay makes bit i pass, at a tested position, with DQS moved back by `moved`. */
  ghost predicate PinReachable(eye: Eye, moved: int, i: int) {
    exists d | 0 <= d <= eye.max :: SoundAt(eye, i, moved, d)
  }

  predicate SoundAt(eye: Eye, i: int, moved: int, delay: int) {
    Sound(eye, i, -moved - delay)
  }

  lemma BestIsSoundIfAnyIs(eye: Eye, i: int, l: int, r: int, moved: int, delay: int)
    requires eye.Valid() && eye.Coherent(i) && eye.TrueEdges(i, l, r) && r != eye.Unset()
    requires Best(l, r, moved, eye.max, delay)
    ensures SoundAt(eye, i, moved, delay) <==> PinReachable(eye, moved, i)
  {
    FitIsSound(eye, i, l, r, moved, delay);
    if PinReachable(eye, moved, i) {
      var d :| 0 <= d <= eye.max && SoundAt(eye, i, moved, d);
      FitIsSound(eye, i, l, r, moved, d);
    }
  }

  /** In a group that starts at pin 0, deskew succeeds if the chosen DQS delay leaves any way to. */
  lemma SoundIfReachable(eye: Eye, l: seq<int>, r: seq<int>, smallest: int, moved: int,
                         before: seq<int>, after: seq<int>)
    requires eye.Valid() && |l| == |r| <= |before| == |after|
    requires forall i | 0 <= i < |l| :: eye.Coherent(i) && eye.TrueEdges(i, l[i], r[i]) && r[i] != eye.Unset()
    requires Centred(l, r, smallest, moved, eye.max, 0, before, after)
    ensures AllSound(eye, moved, after, 0, |l|) <==> AllReachable(eye, moved, |l|)
  {
    forall i | 0 <= i < |l|
      ensures BitSound(eye, moved, after, 0, i) <==> PinReachable(eye, moved, i)
    {
      BestIsSoundIfAnyIs(eye, i, l[i], r[i], moved, after[i]);
    }
  }

  /** A pin can follow DQS into its bit's window exactly if the window meets what its delays reach. */
  lemma PinReachableIff(eye: Eye, i: int, l: int, r: int, moved: int)
    requires eye.Valid() && eye.Coherent(i) && eye.TrueEdges(i, l, r)
    ensures PinReachable(eye, moved, i) <==> eye.HasWindow(i) && moved <= l && -eye.max - moved <= r
  {
    if PinReachable(eye, moved, i) {
      var d :| 0 <= d <= eye.max && SoundAt(eye, i, moved, d);
      assert eye.Passes(i, -moved - d);
    }
    if eye.HasWindow(i) && moved <= l && -eye.max - moved <= r {
      var d := if l - moved <= eye.max then l - moved else eye.max;
      FitIsSound(eye, i, l, r, moved, d);
      assert SoundAt(eye, i, moved, d);
    }
  }

  ghost predicate AllReachable(eye: Eye, moved: int, bits: nat) {
    forall i | 0 <= i < bits :: PinReachable(eye, moved, i)
  }

  /** No window ends where no pin can follow once DQS has moved back by `moved`. */
  ghost predicate NoneTooEarly(eye: Eye, r: seq<int>, moved: int) {
    forall i | 0 <= i < |r| :: eye.HasWindow(i) && -eye.max - moved <= r[i]
  }

  /** DQS never moves back past a window's left edge, so only right edges can be out of reach. */
  lemma ChoiceReachesIff(eye: Eye, l: seq<int>, r: seq<int>, smallest: int, moved: int)
    requires eye.Valid() && |l| == |r|
    requires forall i | 0 <= i < |l| :: eye.Coherent(i) && eye.TrueEdges(i, l[i], r[i]) && smallest <= l[i] - r[i]
    requires eye.start - moved == NewDqs(eye.start, smallest, eye.dqsMax)
    ensures AllReachable(eye, moved, |l|) <==> NoneTooEarly(eye, r, moved)
  {
    forall i | 0 <= i < |l|
      ensures PinReachable(eye, moved, i) <==> eye.HasWindow(i) && -eye.max - moved <= r[i]
    {
      PinReachableIff(eye, i, l[i], r[i], moved);
    }
  }

  /**
   Where some DQS setting would let every bit pass, the one chosen does not exactly if it leaves some
   window's right edge more than the longest DQ delay behind.
   */
  lemma ChoiceMissesIff(eye: Eye, l: seq<int>, r: seq<int>, smallest: int, moved: int)
    requires eye.Valid() && |l| == |r|
    requires forall i | 0 <= i < |l| :: eye.Coherent(i) && eye.TrueEdges(i, l[i], r[i]) && smallest <= l[i] - r[i]
    requires eye.start - moved == NewDqs(eye.start, smallest, eye.dqsMax)
    requires exists m | eye.start - eye.dqsMax <= m <= eye.start :: AllReachable(eye, m, |l|)
    ensures !AllReachable(eye, moved, |l|) <==> exists i | 0 <= i < |l| :: r[i] < -eye.max - moved
  {
    ChoiceReachesIff(eye, l, r, smallest, moved);
    var m :| eye.start - eye.dqsMax <= m <= eye.start && AllReachable(eye, m, |l|);
    forall i | 0 <= i < |l| ensures eye.HasWindow(i) {
      assert PinReachable(eye, m, i);
      PinReachableIff(eye, i, l[i], r[i], m);
    }
  }

  /**
   The choice of DQS itself can miss a solution: bit 0 passes from 0 to 31 and bit 1 only at -31, so
   DQS moves to 15 for the sake of bit 0 and bit 1 cannot follow, while with DQS left at 0 both pass.
   */
  lemma DqsChoiceCanMissASolution(eye: Eye)
    requires eye.max == eye.dqsMax == 31 && eye.start == 0
    requires forall x | -31 <= x <= 31 :: eye.L(0, x) == eye.R(0, x) == (0 <= x)
    requires forall x | -31 <= x <= 31 :: eye.L(1, x) == eye.R(1, x) == (x == -31)
    ensures eye.Coherent(0) && eye.Coherent(1) && eye.TrueEdges(0, 0, 31) && eye.TrueEdges(1, 31, -31)
    ensures NewDqs(0, -31, 31) == 15 && !PinReachable(eye, -15, 1)
    ensures PinReachable(eye, 0, 0) && PinReachable(eye, 0, 1)
  {
    assert SoundAt(eye, 0, 0, 0) && SoundAt(eye, 1, 0, 31);
    assert eye.Passes(0, 0) && eye.Passes(0, 31) && eye.Passes(1, -31);
  }

  /** A bit without a window in range passes nowhere. */
  lemma NotFound(eye: Eye, l: seq<int>, r: seq<int>, pins: seq<int>, first: nat)
    requires eye.Valid() && |l| == |r| && first + |l| <= |pins|
    requires eye.AllTrueEdges(l, r)
    requires exists i | 0 <= i < |l| :: l[i] == eye.Unset() || r[i] == eye.Unset()
    ensures eye.AllCoherent(|l|) ==>
              !AllSound(eye, 0, pins, first, |l|) && !AllReachable(eye, 0, |l|) && !NoneTooEarly(eye, r, 0)
  {
    var i :| 0 <= i < |l| && (l[i] == eye.Unset() || r[i] == eye.Unset());
    if eye.Coherent(i) {
      NoWindowIsUnsound(eye, i, l[i], r[i], 0 - pins[first + i]);
      assert !BitSound(eye, 0, pins, first, i);
      PinReachableIff(eye, i, l[i], r[i], 0);
      assert !PinReachable(eye, 0, i);
    }
  }

  /** The pins once the first sweep has put the group's delays back to zero. */
  function Cleared(pins: seq<int>, first: nat, bits: nat): (c: seq<int>)
    ensures |c| == |pins|
  {
    seq(|pins|, p requires 0 <= p < |pins| => if first <= p < first + bits then 0 else pins[p])
  }

  /**
   Read deskew. Success means exactly that every bit passes at the delays just programmed, at a
   position the sweeps could test; if some bit has no window DQS is put back.
   */
  method CalibrateVfifoCenter(lane: Lane, first: nat)
    returns (ok: bool, found: bool, left: array<int>, right: array<int>,
             moved: int, ghost smallest: int)
    requires lane.Valid(first)
    modifies lane.dq, lane`dqs
    ensures lane.Valid(first)
    ensures left.Length == right.Length == lane.bits && (ok ==> found)
    ensures forall p | 0 <= p < lane.dq.Length && !(first <= p < first + lane.bits) :: lane.dq[p] == old(lane.dq[p])
    ensures lane.dqs == if found then NewDqs(old(lane.dqs), smallest, lane.dqsMax) else old(lane.dqs)
    ensures moved == old(lane.dqs) - lane.dqs
    ensures lane.EyeAt(old(lane.dqs)).AllCoherent(lane.bits) ==>
              (found <==> WindowsMet(lane.EyeAt(old(lane.dqs)), lane.bits))
    ensures lane.EyeAt(old(lane.dqs)).OneBeginsUnseen(lane.bits) ==> !found
    ensures ok ==> forall i | 0 <= i < lane.bits && lane.EyeAt(old(lane.dqs)).Coherent(i) ::
              BitSound(lane.EyeAt(old(lane.dqs)), moved, lane.dq[..], first, i)
    ensures lane.EyeAt(old(lane.dqs)).AllCoherent(lane.bits) ==>
              (ok <==> AllSound(lane.EyeAt(old(lane.dqs)), moved, lane.dq[..], first, lane.bits))
    ensures first == 0 && lane.EyeAt(old(lane.dqs)).AllCoherent(lane.bits) ==>
              (ok <==> AllReachable(lane.EyeAt(old(lane.dqs)), moved, lane.bits))
    ensures first == 0 && lane.EyeAt(old(lane.dqs)).AllCoherent(lane.bits) ==>
              (ok <==> NoneTooEarly(lane.EyeAt(old(lane.dqs)), right[..], moved))
    ensures lane.EyeAt(old(lane.dqs)).AllTrueEdges(left[..], right[..])
    ensures found ==> NearestDqs(old(lane.dqs), lane.dqs, smallest, lane.dqsMax)
    ensures !found ==> lane.dq[..] == Cleared(old(lane.dq[..]), first, lane.bits)
    ensures found ==> Centred(left[..], right[..], smallest, moved, lane.max,
                              first, Cleared(old(lane.dq[..]), first, lane.bits), lane.dq[..])
  {
    ghost var eye := lane.EyeAt(lane.dqs);
    var start := lane.dqs;
    ghost var pins := lane.dq[..];
    left, right := new int[lane.bits], new int[lane.bits];
    found := FindWindows(lane, first, left, right, false);
    ghost var l, r := left[..], right[..];
    assert lane.dq[..] == Cleared(pins, first, lane.bits);
    assert forall i | 0 <= i < lane.bits :: l[i] == left[i] && r[i] == right[i];
    if !found {
      lane.dqs := start;
      ok, moved, smallest := false, 0, 0;
      NotFound(eye, l, r, lane.dq[..], first);
      return;
    }
    ok, moved, smallest := CentreWindows(lane, first, left, right, start);
    assert left[..] == l && right[..] == r;
    FitsAreSound(eye, lane.bits, l, r, moved, lane.dq[..], first);
    if first == 0 && eye.AllCoherent(lane.bits) {
      SoundIfReachable(eye, l, r, smallest, moved, Cleared(pins, 0, lane.bits), lane.dq[..]);
      ChoiceReachesIff(eye, l, r, smallest, moved);
    }
  }
}
