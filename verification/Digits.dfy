/** Positional notation: the shortest digit sequence of a number, and the number of a digit sequence. */
module Digits {

  function Power(base: nat, k: nat): (p: nat)
    requires 2 <= base
    ensures 0 < p
  {
    if k == 0 then 1 else base * Power(base, k - 1)
  }

  /** The digits of v, most significant first, with no leading zero unless v is 0. */
  function Shortest(v: nat, base: nat): (ds: seq<nat>)
    requires 2 <= base
    ensures ds != [] && forall i | 0 <= i < |ds| :: ds[i] < base
    ensures v > 0 ==> ds[0] != 0
    decreases v
  {
    if v < base then [v]
    else
      DivisionShrinks(v, base);
      Shortest(v / base, base) + [v % base]
  }

  /** The number a digit sequence stands for. */
  function Value(ds: seq<nat>, base: nat): nat {
    if ds == [] then 0 else Value(ds[..|ds| - 1], base) * base + ds[|ds| - 1]
  }

  /** The k lowest digits of v, leading zeros included. */
  function Padded(v: nat, base: nat, k: nat): (ds: seq<nat>)
    requires 2 <= base
    ensures |ds| == k && forall i | 0 <= i < k :: ds[i] < base
  {
    if k == 0 then [] else Padded(v / base, base, k - 1) + [v % base]
  }

  // ----- division -----

  lemma DivisionShrinks(v: nat, base: nat)
    requires 2 <= base <= v
    ensures 0 < v / base < v && v % base < base
  {
    var q := v / base;
    assert v == q * base + v % base;
    Monotone(2, base, q);
  }

  lemma Quotient(a: nat, b: nat, q: nat, r: nat)
    requires 0 < b && a == q * b + r && r < b
    ensures a / b == q && a % b == r
  {
    var d, m := a / b, a % b;
    assert a == d * b + m;
    if d < q {
      assert (d + 1) * b <= q * b by { Monotone(d + 1, q, b); }
    } else if q < d {
      assert (q + 1) * b <= d * b by { Monotone(q + 1, d, b); }
    }
  }

  lemma Recompose(v: nat, base: nat)
    requires 0 < base
    ensures v / base * base + v % base == v
  {
  }

  lemma Monotone(a: nat, b: nat, c: nat)
    requires a <= b
    ensures a * c <= b * c
  {
  }

  lemma StepBelow(a: nat, p: nat, base: nat, d: nat)
    requires a < p && d < base
    ensures a * base + d < base * p
  {
    Monotone(a + 1, p, base);
  }

  /** Dividing by b and then by c is dividing by b * c; the remainders fit together. */
  lemma DivideTwice(v: nat, b: nat, c: nat)
    requires 0 < b && 0 < c
    ensures 0 < b * c && v / b / c == v / (b * c)
    ensures v % (b * c) == (v / b % c) * b + v % b
  {
    var q, r := v / b, v % b;
    var q', r' := q / c, q % c;
    Combine(v, b, c, q, r, q', r');
    Quotient(v, b * c, q', r' * b + r);
  }

  lemma Combine(v: nat, b: nat, c: nat, q: nat, r: nat, q': nat, r': nat)
    requires v == q * b + r && q == q' * c + r' && r < b && r' < c
    ensures 0 < b * c && v == q' * (b * c) + (r' * b + r) && r' * b + r < b * c
  {
    assert q * b == q' * (b * c) + r' * b;
    StepBelow(r', c, b, r);
  }

  // ----- round trips -----

  lemma {:induction false} ValueOfShortest(v: nat, base: nat)
    requires 2 <= base
    ensures Value(Shortest(v, base), base) == v
    decreases v
  {
    var ds := Shortest(v, base);
    if v < base {
      assert ds[..0] == [];
    } else {
      DivisionShrinks(v, base);
      ValueOfShortest(v / base, base);
      assert ds[..|ds| - 1] == Shortest(v / base, base);
      Recompose(v, base);
    }
  }

  lemma {:induction false} LeadingDigitCounts(ds: seq<nat>, base: nat)
    requires 2 <= base && ds != [] && ds[0] != 0
    ensures 0 < Value(ds, base)
  {
    if |ds| > 1 {
      LeadingDigitCounts(ds[..|ds| - 1], base);
      Monotone(1, Value(ds[..|ds| - 1], base), base);
    }
  }

  /** No other digit sequence without a leading zero stands for v. */
  lemma {:induction false} ShortestIsUnique(ds: seq<nat>, base: nat)
    requires 2 <= base && ds != [] && forall i | 0 <= i < |ds| :: ds[i] < base
    requires |ds| > 1 ==> ds[0] != 0
    ensures Shortest(Value(ds, base), base) == ds
    decreases |ds|
  {
    var high, low := ds[..|ds| - 1], ds[|ds| - 1];
    var v := Value(ds, base);
    if |ds| == 1 {
      assert high == [];
    } else {
      ShortestIsUnique(high, base);
      LeadingDigitCounts(high, base);
      Monotone(1, Value(high, base), base);
      Quotient(v, base, Value(high, base), low);
      assert ds == high + [low];
    }
  }

  /** Fewer digits than the shortest sequence has do not reach v. */
  lemma {:induction false} ValueBelowPower(ds: seq<nat>, base: nat)
    requires 2 <= base && forall i | 0 <= i < |ds| :: ds[i] < base
    ensures Value(ds, base) < Power(base, |ds|)
  {
    if ds != [] {
      var high := ds[..|ds| - 1];
      ValueBelowPower(high, base);
      StepBelow(Value(high, base), Power(base, |high|), base, ds[|ds| - 1]);
    }
  }

  // ----- the two ways the printers extract digits -----

  /** With as many digits as needed, padding adds nothing. */
  lemma {:induction false} ShortestIsPadded(v: nat, base: nat)
    requires 2 <= base
    ensures Padded(v, base, |Shortest(v, base)|) == Shortest(v, base)
    decreases v
  {
    if v < base {
      assert Padded(v / base, base, 0) == [];
    } else {
      ShortestIsPadded(v / base, base);
    }
  }

  /** The leading digit by division, the others from the remainder. */
  lemma {:induction false} PaddedHead(v: nat, base: nat, k: nat, head: nat, rest: nat)
    requires 2 <= base && v < Power(base, k + 1) && head == v / Power(base, k) && rest == v % Power(base, k)
    ensures Padded(v, base, k + 1) == [head] + Padded(rest, base, k)
    decreases k
  {
    if k == 0 {
      SingleDigit(v, base);
    } else {
      HeadAndRest(v, base, k, head, rest);
      PaddedHead(v / base, base, k - 1, head, rest / base);
      AppendDigit(v, rest, head, base, k);
    }
  }

  lemma SingleDigit(v: nat, base: nat)
    requires 2 <= base && v < Power(base, 1)
    ensures Power(base, 0) == 1 && v / 1 == v
    ensures Padded(v, base, 1) == [v] && Padded(v % 1, base, 0) == []
  {
    assert Power(base, 1) == base * Power(base, 0) == base;
    assert Padded(v, base, 1) == Padded(v / base, base, 0) + [v % base];
    Quotient(v, base, 0, v);
  }

  /** How the leading digit and the remainder of v relate to those of v / base. */
  lemma HeadAndRest(v: nat, base: nat, k: nat, head: nat, rest: nat)
    requires 2 <= base && 0 < k && v < Power(base, k + 1)
    requires head == v / Power(base, k) && rest == v % Power(base, k)
    ensures 0 <= v / base < Power(base, k) && 0 <= rest / base
    ensures head == v / base / Power(base, k - 1) && rest / base == v / base % Power(base, k - 1)
    ensures rest % base == v % base
  {
    QuotientBelow(v, base, Power(base, k));
    SplitRemainder(v, base, Power(base, k - 1));
  }

  lemma SplitRemainder(v: nat, base: nat, p: nat)
    requires 2 <= base && 0 < p
    ensures v / base / p == v / (base * p)
    ensures v % (base * p) / base == v / base % p && v % (base * p) % base == v % base
  {
    DivideTwice(v, base, p);
    Quotient(v % (base * p), base, v / base % p, v % base);
  }

  lemma AppendDigit(v: nat, w: nat, head: nat, base: nat, k: nat)
    requires 2 <= base && 0 < k && v % base == w % base
    requires Padded(v / base, base, k) == [head] + Padded(w / base, base, k - 1)
    ensures Padded(v, base, k + 1) == [head] + Padded(w, base, k)
  {
  }

  lemma QuotientBelow(v: nat, base: nat, p: nat)
    requires 0 < base && v < base * p
    ensures v / base < p
  {
    if p <= v / base {
      Monotone(p, v / base, base);
    }
  }

  /** Digit j counted from the right, by division and remainder. */
  lemma {:induction false} PaddedDigit(v: nat, base: nat, k: nat, j: nat)
    requires 2 <= base && j < k
    ensures Padded(v, base, k)[k - 1 - j] == v / Power(base, j) % base
    decreases k
  {
    if j > 0 {
      PaddedDigit(v / base, base, k - 1, j - 1);
      SplitRemainder(v, base, Power(base, j - 1));
    }
  }

  lemma BigEnough(v: nat, base: nat, p: nat)
    requires 0 < base && 0 < p && 0 < v / base / p
    ensures base <= v
  {
    if v < base {
      Quotient(v, base, 0, v);
      Quotient(0, p, 0, 0);
    }
  }

  /** Each division by the base removes one digit. */
  lemma {:induction false} ShortestLength(v: nat, base: nat, k: nat)
    requires 2 <= base && 0 < v / Power(base, k)
    ensures |Shortest(v, base)| == |Shortest(v / Power(base, k), base)| + k
    decreases k
  {
    if k > 0 {
      DivideTwice(v, base, Power(base, k - 1));
      BigEnough(v, base, Power(base, k - 1));
      ShortestLength(v / base, base, k - 1);
    }
  }
}
