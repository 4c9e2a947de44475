/**
 The last step of the DQS-enable search: turning the middle of the working window, a delay, into a
 phase setting and a delay-chain setting. The sums stay far below 32 bits; only the step below zero
 for a middle of 0, which the search does not produce, would wrap around.
 */
module DqsEnable {
  import opened Words

  /** The delay of a phase and a chain setting. */
  function Delay(ptap: int, dtap: int, phase: int, chain: int): int {
    phase * ptap + chain * dtap
  }

  lemma NextMultiple(n: int, tap: int)
    ensures (n + 1) * tap == n * tap + tap
  {
  }

  lemma MultiplesGrow(m: int, n: int, tap: int)
    requires m <= n && 0 <= tap
    ensures m * tap <= n * tap
  {
  }

  /** The value that differs from `mid` by n whole cycles and lies in (0, cycle]. */
  ghost predicate Reduced(mid: int, cycle: int, n: nat, reduced: int) {
    0 < reduced <= cycle && mid == reduced + n * cycle
  }

  /** Reduction by whole cycles has one result. */
  lemma ReducedIsUnique(mid: int, cycle: int, n: nat, a: int, m: nat, b: int)
    requires Reduced(mid, cycle, n, a) && Reduced(mid, cycle, m, b)
    ensures a == b && n == m
  {
    if n < m {
      NextMultiple(n, cycle);
      MultiplesGrow(n + 1, m, cycle);
    } else if m < n {
      NextMultiple(m, cycle);
      MultiplesGrow(m + 1, n, cycle);
    }
  }

  /** Subtracts whole cycles. */
  method Reduce(workMid: nat, cycle: nat) returns (mid: nat, ghost n: nat)
    requires 0 < cycle
    ensures if workMid == 0 then mid == 0 else Reduced(workMid, cycle, n, mid)
    ensures mid <= cycle && mid <= workMid && (mid == 0 <==> workMid == 0)
  {
    mid, n := workMid, 0;
    while mid > cycle
      invariant mid + n * cycle == workMid && mid <= workMid && (workMid > 0 ==> mid > 0)
    {
      NextMultiple(n, cycle);
      mid, n := mid - cycle, n + 1;
    }
  }

  /** Counts taps from `from` up until `target` is reached or the limit passed. */
  method CountTaps(from: nat, target: nat, limit: nat, tap: nat) returns (k: nat, reached: nat)
    requires 0 < tap
    ensures k <= limit + 1 && reached == from + k * tap
    ensures k <= limit ==> target <= reached
    ensures k > 0 ==> reached - tap < target
    ensures k == 0 <==> target <= from
  {
    k, reached := 0, from;
    while k <= limit && reached < target
      invariant k <= limit + 1 && reached == from + k * tap
      invariant k > 0 ==> reached - tap < target && from < target
    {
      NextMultiple(k, tap);
      k, reached := k + 1, reached + tap;
    }
  }

  /**
   A positive middle of the window is met from above by less than one chain tap, in the same cycle,
   with both settings in range; if phase 0 would be used, phase 1 alone is, because phase 0 must not
   be set. The search before it skips phase 0 and so provides a positive middle; of middle 0 the
   contract only says that the phase would be out of range.
   */
  method CentreEnable(workMid: nat, phaseMax: nat, chainMax: nat, ptap: nat, dtap: nat)
    returns (phase: nat, chain: nat, ghost n: nat, ghost reduced: nat)
    requires 0 < dtap && 0 < ptap <= chainMax * dtap && 0 < phaseMax < WORD - 1
    requires ptap < WORD && workMid < WORD
    ensures phase <= phaseMax <==> workMid > 0
    ensures workMid > 0 ==> Reduced(workMid, (phaseMax + 1) * ptap, n, reduced)
    ensures workMid > 0 ==> 0 < phase && chain <= chainMax
    ensures workMid > 0 && reduced > ptap ==> 0 <= Delay(ptap, dtap, phase, chain) - reduced < dtap
    ensures workMid > 0 && reduced > ptap ==> phase * ptap < reduced <= phase * ptap + ptap
    ensures workMid > 0 && reduced <= ptap ==> phase == 1 && chain == 0
  {
    var cycle := CycleOf(phaseMax, ptap);
    MultiplesGrow(1, phaseMax + 1, ptap);
    var mid;
    mid, n := Reduce(workMid, cycle);
    reduced := mid;
    var p, d := MeetMiddle(mid, phaseMax, chainMax, ptap, dtap);
    if workMid > 0 && p > 1 {
      MultiplesGrow(1, p - 1, ptap);
    }
    if p == 1 {
      p, d := 2, 0;
    }
    phase, chain := if p == 0 then WORD - 1 else p - 1, d;
  }

  /** The delay of one whole cycle of phases. */
  method CycleOf(phaseMax: nat, ptap: nat) returns (cycle: nat)
    ensures cycle == (phaseMax + 1) * ptap
  {
    var p := 0;
    cycle := 0;
    while p <= phaseMax
      invariant 0 <= p <= phaseMax + 1 && cycle == p * ptap
    {
      NextMultiple(p, ptap);
      p, cycle := p + 1, cycle + ptap;
    }
  }

  /** Counts whole phases up to the middle, steps back one, and makes up the rest with chain taps. */
  method MeetMiddle(mid: nat, phaseMax: nat, chainMax: nat, ptap: nat, dtap: nat) returns (p: nat, d: nat)
    requires 0 < dtap && 0 < ptap <= chainMax * dtap && mid <= (phaseMax + 1) * ptap && ptap < WORD
    ensures if mid == 0 then p == 0
            else
              && 0 < p <= phaseMax + 1 && d <= chainMax && (p - 1) * ptap < mid <= (p - 1) * ptap + ptap
              && 0 <= Delay(ptap, dtap, p - 1, d) - mid < dtap
  {
    var base;
    p, base := WholePhases(mid, phaseMax, ptap);
    var delay;
    d, delay := CountTaps(base, mid, chainMax, dtap);
    if p > 0 {
      ChainReaches(base, mid, ptap, d, chainMax, dtap, delay);
    }
  }

  /** The last whole phase short of the middle; for middle 0 one phase below zero. */
  method WholePhases(mid: nat, phaseMax: nat, ptap: nat) returns (p: nat, base: nat)
    requires 0 < ptap < WORD && mid <= (phaseMax + 1) * ptap
    ensures if mid == 0 then p == 0 && base == WORD - ptap
            else 0 < p <= phaseMax + 1 && base == (p - 1) * ptap && base < mid <= base + ptap
  {
    p, base := CountTaps(0, mid, phaseMax, ptap);
    if p > 0 {
      PhasesReach(mid, p, phaseMax, ptap, base);
    }
    base := if base >= ptap then base - ptap else base - ptap + WORD;
  }

  lemma PhasesReach(mid: nat, p: nat, phaseMax: nat, ptap: nat, whole: nat)
    requires 0 < p <= phaseMax + 1 && whole == p * ptap && mid <= (phaseMax + 1) * ptap
    requires p <= phaseMax ==> mid <= whole
    ensures mid <= whole && (p - 1) * ptap == whole - ptap
  {
    NextMultiple(p - 1, ptap);
  }

  lemma ChainReaches(base: nat, mid: nat, ptap: nat, d: nat, chainMax: nat, dtap: nat, delay: nat)
    requires base < mid <= base + ptap && ptap <= chainMax * dtap
    requires 0 < d <= chainMax + 1 && delay == base + d * dtap
    requires delay - dtap < mid && (d <= chainMax ==> mid <= delay)
    ensures d <= chainMax && 0 <= delay - mid < dtap
  {
    NextMultiple(chainMax, dtap);
  }
}
