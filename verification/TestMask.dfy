/**
 How the read and write tests turn error words into one flag per data bit: virtual groups are shifted
 together into one word per rank, and the ranks are combined.
 */
module TestMask {
  import opened BitFields

  /** The error word the hardware returns for a rank and a virtual group. */
  type Errors = (nat, nat) -> Field

  /**
   The geometry of one test: `groups` virtual groups, each shifted by `step` bits and masked to
   `maskBits` bits, of which the first `bits` bits of the result must be set.
   */
  datatype Geometry = Geometry(bits: nat, groups: nat, step: nat, maskBits: nat)

  /** Some group from vg on has a good bit at position k, positions counted from group vg. */
  ghost predicate GoodFrom(e: Errors, g: Geometry, r: nat, vg: nat, k: nat)
    requires k < WIDTH
  {
    exists u | vg <= u < g.groups :: GoodAt(e, g, r, vg, u, k)
  }

  predicate GoodAt(e: Errors, g: Geometry, r: nat, vg: nat, u: nat, k: nat)
    requires k < WIDTH && vg <= u
  {
    var at := (u - vg) * g.step;
    at <= k < at + g.maskBits && !e(r, u)[k - at]
  }

  lemma StepProduct(a: int, step: int)
    ensures (a + 1) * step == a * step + step
  {
  }

  /** Shifting by one group and adding group vg below. */
  lemma ShiftIn(e: Errors, g: Geometry, r: nat, vg: nat, tmp: Field, next: Field)
    requires vg < g.groups
    requires forall k | 0 <= k < WIDTH :: tmp[k] <==> GoodFrom(e, g, r, vg + 1, k)
    requires next == Or(Shl(tmp, g.step), And(Low(g.maskBits), Not(e(r, vg))))
    ensures forall k | 0 <= k < WIDTH :: next[k] <==> GoodFrom(e, g, r, vg, k)
  {
    forall k | 0 <= k < WIDTH
      ensures next[k] <==> GoodFrom(e, g, r, vg, k)
    {
      assert GoodAt(e, g, r, vg, vg, k) <==> And(Low(g.maskBits), Not(e(r, vg)))[k];
      forall u | vg < u < g.groups
        ensures GoodAt(e, g, r, vg, u, k) <==> g.step <= k && GoodAt(e, g, r, vg + 1, u, k - g.step)
      {
        StepProduct(u - vg - 1, g.step);
      }
      if g.step <= k && tmp[k - g.step] {
        var u :| vg + 1 <= u < g.groups && GoodAt(e, g, r, vg + 1, u, k - g.step);
        assert GoodAt(e, g, r, vg, u, k);
      }
      if GoodFrom(e, g, r, vg, k) {
        var u :| vg <= u < g.groups && GoodAt(e, g, r, vg, u, k);
        assert u > vg ==> GoodFrom(e, g, r, vg + 1, k - g.step);
      }
    }
  }

  /** One rank: the virtual groups, last one first, shifted together. */
  method TestRank(e: Errors, g: Geometry, r: nat) returns (tmp: Field)
    requires g.groups > 0
    ensures forall k | 0 <= k < WIDTH :: tmp[k] <==> GoodFrom(e, g, r, 0, k)
  {
    tmp := Zero();
    var vg := g.groups - 1;
    while true
      invariant 0 <= vg < g.groups
      invariant forall k | 0 <= k < WIDTH :: tmp[k] <==> GoodFrom(e, g, r, vg + 1, k)
      decreases vg
    {
      var next := Or(Shl(tmp, g.step), And(Low(g.maskBits), Not(e(r, vg))));
      ShiftIn(e, g, r, vg, tmp, next);
      tmp := next;
      if vg == 0 {
        break;
      }
      vg := vg - 1;
    }
  }

  /** Position k is expected and good in every rank tested. */
  ghost predicate AllRanksGood(e: Errors, g: Geometry, skip: seq<bool>, from: nat, to: nat, k: nat)
    requires k < WIDTH && to <= |skip|
  {
    k < g.bits && forall r | from <= r < to && !skip[r] :: GoodFrom(e, g, r, 0, k)
  }

  /** The whole test over ranks [from, to). */
  method Calibrate(e: Errors, g: Geometry, skip: seq<bool>, from: nat, to: nat, allCorrect: bool)
    returns (bitChk: Field, pass: bool)
    requires g.groups > 0 && g.bits <= WIDTH && from <= to <= |skip|
    ensures forall k | 0 <= k < WIDTH :: bitChk[k] <==> AllRanksGood(e, g, skip, from, to, k)
    ensures allCorrect ==> (pass <==> forall k | 0 <= k < g.bits :: bitChk[k])
    ensures !allCorrect ==> (pass <==> exists k | 0 <= k < g.bits :: bitChk[k])
  {
    bitChk := Low(g.bits);
    var r := from;
    while r < to
      invariant from <= r <= to
      invariant forall k | 0 <= k < WIDTH :: bitChk[k] <==> AllRanksGood(e, g, skip, from, r, k)
    {
      if !skip[r] {
        var tmp := TestRank(e, g, r);
        bitChk := And(bitChk, tmp);
      }
      r := r + 1;
    }
    if allCorrect {
      FullMask(bitChk, g.bits);
      pass := bitChk == Low(g.bits);
    } else {
      NonZero(bitChk);
      pass := bitChk != Zero();
    }
  }

  lemma ProductGrows(a: int, b: int, step: int)
    requires a < b && 0 <= step
    ensures a * step + step <= b * step
  {
    assert 0 <= (b - a - 1) * step;
    assert b * step == (b - a - 1) * step + a * step + step;
  }

  /** Position k shows bit k % step of virtual group k / step and nothing else. */
  ghost predicate OwnBit(e: Errors, g: Geometry, r: nat, k: nat)
    requires k < WIDTH && 0 < g.step && k % g.step < WIDTH
  {
    GoodFrom(e, g, r, 0, k) <==> !e(r, k / g.step)[k % g.step]
  }

  lemma Residue(k: nat, step: nat)
    requires 0 < step
    ensures k == k / step * step + k % step && 0 <= k / step && 0 <= k % step <= k
  {
    assert k / step >= 0;
    assert k / step * step >= 0;
  }

  /** A mask that covers the position without reaching into it from the group before. */
  predicate MaskMatches(g: Geometry, k: nat)
    requires 0 < g.step
  {
    k % g.step < g.maskBits && (k < g.step || g.maskBits <= g.step + k % g.step)
  }

  /** Slots before the position's own reach it only through the group just before, or not at all. */
  lemma Covers(g: Geometry, u: nat, k: nat)
    requires 0 < g.step
    ensures u * g.step <= k < u * g.step + g.maskBits && u != k / g.step ==>
              u < k / g.step && g.step + k % g.step < g.maskBits
    ensures u == k / g.step ==> (u * g.step <= k < u * g.step + g.maskBits <==> k % g.step < g.maskBits)
  {
    var q := k / g.step;
    Residue(k, g.step);
    if u < q {
      ProductGrows(u, q, g.step);
    } else if q < u {
      ProductGrows(q, u, g.step);
    }
  }

  lemma MatchingMask(e: Errors, g: Geometry, r: nat, k: nat)
    requires k < WIDTH && 0 < g.step && k / g.step < g.groups && k % g.step < WIDTH && MaskMatches(g, k)
    ensures OwnBit(e, g, r, k)
  {
    var q := k / g.step;
    Residue(k, g.step);
    Covers(g, q, k);
    assert GoodAt(e, g, r, 0, q, k) <==> !e(r, q)[k % g.step];
    forall u | 0 <= u < g.groups ensures GoodAt(e, g, r, 0, u, k) ==> u == q {
      Covers(g, u, k);
      if u < q {
        ProductGrows(0, q, g.step);
      }
    }
  }

  /** A mask too narrow for the position: nothing sets it, not even a test without errors. */
  lemma NarrowMask(e: Errors, g: Geometry, r: nat, k: nat)
    requires k < WIDTH && 0 < g.step && g.maskBits <= k % g.step
    ensures !GoodFrom(e, g, r, 0, k)
  {
    forall u | 0 <= u < g.groups ensures !GoodAt(e, g, r, 0, u, k) {
      Covers(g, u, k);
    }
  }

  /** A mask wider than the shift: the group before hides an error. */
  lemma WideMask(e: Errors, g: Geometry, r: nat, k: nat)
    requires k < WIDTH && 0 < g.step <= k && k / g.step < g.groups && g.step + k % g.step < g.maskBits
    requires e(r, k / g.step - 1) == Zero()
    ensures GoodFrom(e, g, r, 0, k)
  {
    var q := k / g.step;
    Residue(k, g.step);
    StepProduct(q - 1, g.step);
    assert GoodAt(e, g, r, 0, q - 1, k);
  }

  /** Errors everywhere in group q and nowhere else. */
  function OnlyFrom(q: nat, u: nat): Field {
    if u == q then Not(Zero()) else Zero()
  }

  /**
   The aggregation law, that position k of the result is bit k % step of virtual group k / step whatever
   the errors, holds exactly if the mask matches the shift there.
   */
  lemma LawIffMaskMatches(g: Geometry, r: nat, k: nat)
    requires k < WIDTH && 0 < g.step && k / g.step < g.groups && k % g.step < WIDTH
    ensures (forall e: Errors :: OwnBit(e, g, r, k)) <==> MaskMatches(g, k)
  {
    if MaskMatches(g, k) {
      forall e: Errors ensures OwnBit(e, g, r, k) {
        MatchingMask(e, g, r, k);
      }
    } else if g.maskBits <= k % g.step {
      var none: Errors := (_, _) => Zero();
      NarrowMask(none, g, r, k);
      assert !OwnBit(none, g, r, k);
    } else {
      var q := k / g.step;
      Residue(k, g.step);
      var one: Errors := (_, u: nat) => OnlyFrom(q, u);
      assert one(r, q) == Not(Zero()) && one(r, q - 1) == Zero();
      WideMask(one, g, r, k);
      assert one(r, q)[k % g.step];
      assert !OwnBit(one, g, r, k);
    }
  }

  /** Where masks are as wide as shifts the law holds at every position. */
  lemma EqualWidthsMatch(g: Geometry, k: nat)
    requires 0 < g.step == g.maskBits
    ensures MaskMatches(g, k)
  {
    Residue(k, g.step);
  }

  /** The whole word with masks as wide as shifts: bit k is good if every rank's group k / step says so. */
  lemma OneGroupPerBit(e: Errors, g: Geometry, skip: seq<bool>, from: nat, to: nat, k: nat)
    requires k < WIDTH && 0 < g.step == g.maskBits && k < g.bits <= g.groups * g.step && to <= |skip|
    ensures k / g.step < g.groups && k % g.step < WIDTH
    ensures AllRanksGood(e, g, skip, from, to, k) <==>
            forall r | from <= r < to && !skip[r] :: !e(r, k / g.step)[k % g.step]
  {
    var q := k / g.step;
    Residue(k, g.step);
    if g.groups <= q {
      ProductGrows(g.groups - 1, q, g.step);
    }
    EqualWidthsMatch(g, k);
    forall r | from <= r < to && !skip[r] ensures OwnBit(e, g, r, k) {
      MatchingMask(e, g, r, k);
    }
  }

  /** Asking for all bits where the mask is too narrow for one of them always fails. */
  lemma NarrowMaskNeverPasses(e: Errors, g: Geometry, skip: seq<bool>, from: nat, to: nat, k: nat)
    requires k < WIDTH && 0 < g.step && g.maskBits <= k % g.step
    requires to <= |skip| && exists r :: from <= r < to && !skip[r]
    ensures !AllRanksGood(e, g, skip, from, to, k)
  {
    var r :| from <= r < to && !skip[r];
    NarrowMask(e, g, r, k);
  }

  /**
   The write mask takes its width from the read geometry. Written bits in groups of 8 under masks of 4:
   bit 4 never passes. In groups of 4 under masks of 8: bit 4 passes although its group reports an error.
   */
  lemma MaskWitnesses()
    ensures var narrow, wide := Geometry(8, 1, 8, 4), Geometry(8, 2, 4, 8);
            && !MaskMatches(narrow, 4) && !MaskMatches(wide, 4)
            && (forall e: Errors :: !GoodFrom(e, narrow, 0, 0, 4))
            && (forall e: Errors | e(0, 0) == Zero() :: GoodFrom(e, wide, 0, 0, 4))
  {
    var narrow, wide := Geometry(8, 1, 8, 4), Geometry(8, 2, 4, 8);
    forall e: Errors ensures !GoodFrom(e, narrow, 0, 0, 4) {
      NarrowMask(e, narrow, 0, 4);
    }
    forall e: Errors | e(0, 0) == Zero() ensures GoodFrom(e, wide, 0, 0, 4) {
      WideMask(e, wide, 0, 4);
    }
  }
}
