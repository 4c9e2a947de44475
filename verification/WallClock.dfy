/** The wall clock: settimeofday and gettimeofday over a 32-bit tick counter. */
module WallClock {
  import opened Words

  const US := 1_000_000

  datatype TimeVal = TimeVal(sec: int, usec: int)
  datatype TimeZone = TimeZone(minutesWest: int, dstTime: int)
  datatype Errno = OK | ENOSYS | ENOTSUP

  /** A sum stored in a 32-bit signed field. */
  function Wrap(x: int): (w: int)
    ensures -WORD / 2 <= w < WORD / 2
  {
    (x + WORD / 2) % WORD - WORD / 2
  }

  function TickLength(rate: Word): nat
    requires 0 < rate
  {
    US / rate
  }

  function Micros(t: TimeVal): int {
    t.sec * US + t.usec
  }

  function FromMicros(m: int): TimeVal {
    TimeVal(m / US, m % US)
  }

  /** The base time settimeofday keeps; the microseconds of the ticks are computed in 32 bits. */
  function BaseFor(t: TimeVal, nticks: Word, rate: Word): TimeVal
    requires 0 < rate
  {
    TimeVal(Wrap(t.sec - nticks / rate), Wrap(t.usec - nticks * TickLength(rate) % WORD % US))
  }

  /** Base and ticks added up; here the microseconds of the ticks are computed in 64 bits. */
  function Sum(base: TimeVal, nticks: Word, rate: Word): TimeVal
    requires 0 < rate
  {
    TimeVal(Wrap(base.sec + nticks / rate), Wrap(base.usec + nticks * TickLength(rate) % US))
  }

  /** Borrowing from the seconds gives up at zero. */
  predicate Clamps(t: TimeVal) {
    t.usec < 0 && Micros(t) < 0
  }

  function Normalised(t: TimeVal): TimeVal {
    if Clamps(t) then TimeVal(0, 0) else FromMicros(Micros(t))
  }

  function Reading(base: TimeVal, nticks: Word, rate: Word): TimeVal
    requires 0 < rate
  {
    Normalised(Sum(base, nticks, rate))
  }

  method Normalise(t: TimeVal) returns (n: TimeVal)
    ensures n == Normalised(t)
  {
    n := t;
    while n.usec < 0
      invariant t.usec >= 0 ==> n == t
      invariant Micros(n) == Micros(t) && n.usec < (if t.usec < 0 then US else t.usec + 1)
      invariant n == t || 0 <= n.sec
      decreases -n.usec
    {
      if n.sec <= 0 {
        return TimeVal(0, 0);
      }
      n := TimeVal(n.sec - 1, n.usec + US);
    }
    while n.usec >= US
      invariant Micros(n) == Micros(t) && 0 <= n.usec
    {
      n := TimeVal(n.sec + 1, n.usec - US);
    }
  }

  class Clock {
    var nticks: Word
    var tickRate: Word
    var resetTime: TimeVal
    var zone: TimeZone

    constructor (rate: Word)
      ensures nticks == 0 && tickRate == rate && resetTime == TimeVal(0, 0) && zone == TimeZone(0, 0)
    {
      nticks, tickRate := 0, rate;
      resetTime, zone := TimeVal(0, 0), TimeZone(0, 0);
    }

    method SetTimeOfDay(t: TimeVal, tz: TimeZone) returns (status: Errno)
      modifies `resetTime, `zone
      ensures status == if tickRate == 0 then ENOSYS else OK
      ensures tickRate == 0 ==> resetTime == old(resetTime) && zone == old(zone)
      ensures tickRate > 0 ==> resetTime == BaseFor(t, nticks, tickRate) && zone == tz
    {
      if tickRate > 0 {
        resetTime := TimeVal(Wrap(t.sec - nticks / tickRate),
                             Wrap(t.usec - nticks * (US / tickRate) % WORD % US));
        zone := tz;
        return OK;
      }
      return ENOSYS;
    }

    /** The buffers keep what they held when there is no system clock. */
    method GetTimeOfDay(buffer: TimeVal, zoneBuffer: TimeZone) returns (status: Errno, time: TimeVal, tz: TimeZone)
      ensures status == if tickRate == 0 then ENOTSUP else OK
      ensures tickRate == 0 ==> time == buffer && tz == zoneBuffer
      ensures tickRate > 0 ==> time == Reading(resetTime, nticks, tickRate) && tz == zone
    {
      if tickRate > 0 {
        var sum := TimeVal(Wrap(resetTime.sec + nticks / tickRate),
                           Wrap(resetTime.usec + nticks * (US / tickRate) % US));
        time := Normalise(sum);
        return OK, time, zone;
      }
      return ENOTSUP, buffer, zoneBuffer;
    }
  }

  // ----- the clock law -----

  predicate IsTime(t: TimeVal) {
    0 <= t.sec && 0 <= t.usec < US
  }

  /** Microseconds the 32-bit product in settimeofday is off by. */
  function Skew(nticks: Word, rate: Word): int
    requires 0 < rate
  {
    nticks * TickLength(rate) % US - nticks * TickLength(rate) % WORD % US
  }

  /** The tick counter e ticks later. */
  function Later(nticks: Word, e: nat): Word {
    (nticks + e) % WORD
  }

  /** For a rate dividing a million, whole seconds and the remaining microseconds make up the ticks' time. */
  lemma TicksAdd(n: nat, rate: nat, tau: nat)
    requires 0 < rate && rate * tau == US
    ensures n / rate * US + n * tau % US == n * tau
  {
    var q, r := n / rate, n % rate;
    assert n * tau == q * US + r * tau by {
      assert n == q * rate + r;
      assert q * rate * tau == q * (rate * tau);
    }
    assert r * tau < US by {
      Less(r, rate, tau);
    }
    Remainder(n * tau, q, r * tau);
  }

  lemma Less(a: nat, b: nat, c: nat)
    requires a < b && 0 < b * c
    ensures a * c < b * c
  {
  }

  lemma Remainder(a: int, q: int, r: nat)
    requires a == q * US + r && r < US
    ensures a % US == r
  {
  }

  lemma WrapShifts(x: int) returns (k: int)
    ensures Wrap(x) == x + k * WORD
  {
    k := -((x + WORD / 2) / WORD);
  }

  /** The seconds wrap, the microseconds do not. */
  lemma SumFields(t: TimeVal, q0: int, a: int, q: int, b: int) returns (z: int)
    requires IsTime(t) && 0 <= a < US && 0 <= b < US
    ensures Wrap(Wrap(t.sec - q0) + q) == t.sec - q0 + q + z * WORD
    ensures Wrap(Wrap(t.usec - a) + b) == t.usec - a + b
  {
    var k0 := WrapShifts(t.sec - q0);
    var k1 := WrapShifts(Wrap(t.sec - q0) + q);
    z := k0 + k1;
  }

  /** What gettimeofday adds up at tick n after a settimeofday at tick n0, in microseconds. */
  lemma SumIs(t: TimeVal, n0: Word, n: Word, rate: Word, tau: nat) returns (z: int)
    requires 0 < rate && rate * tau == US && tau == TickLength(rate) && IsTime(t)
    ensures var sum := Sum(BaseFor(t, n0, rate), n, rate);
            && Micros(sum) == Micros(t) - n0 * tau + n * tau + Skew(n0, rate) + z * (WORD * US)
            && sum.sec == t.sec - n0 / rate + n / rate + z * WORD
            && -US < sum.usec
  {
    z := SumFields(t, n0 / rate, n0 * tau % WORD % US, n / rate, n * tau % US);
    TicksAdd(n0, rate, tau);
    TicksAdd(n, rate, tau);
    AddUp(t, Sum(BaseFor(t, n0, rate), n, rate), z, n0 / rate, n / rate,
          n0 * tau % WORD % US, n0 * tau % US, n * tau % US, n0 * tau, n * tau);
  }

  lemma AddUp(t: TimeVal, sum: TimeVal, z: int, q0: int, q: int, a: int, b0: int, b: int, span0: int, span: int)
    requires sum == TimeVal(t.sec - q0 + q + z * WORD, t.usec - a + b)
    requires q0 * US + b0 == span0 && q * US + b == span
    ensures Micros(sum) == Micros(t) - span0 + span + (b0 - a) + z * (WORD * US)
  {
  }

  lemma FromMicrosIsOnly(m: int, t: TimeVal)
    requires t.usec == Micros(t) % US
    ensures Micros(FromMicros(m)) == m
    ensures t == FromMicros(m) <==> Micros(t) == m
  {
  }

  lemma NormalisedMicros(t: TimeVal)
    ensures Micros(Normalised(t)) == if Clamps(t) then 0 else Micros(t)
    ensures 0 <= Normalised(t).usec < US && Normalised(t).usec == Micros(Normalised(t)) % US
  {
  }

  /** Without a wrap of the tick counter the seconds do not wrap either. */
  lemma NoWrapNoShift(t: TimeVal, n0: Word, n: Word, rate: Word, tau: nat, z: int)
    requires 0 < rate && rate * tau == US && tau == TickLength(rate) && IsTime(t) && n0 <= n
    requires Micros(t) + (n - n0) * tau < (WORD / 2 - 1) * US
    requires Sum(BaseFor(t, n0, rate), n, rate).sec == t.sec - n0 / rate + n / rate + z * WORD
    ensures z == 0
  {
    TicksAdd(n0, rate, tau);
    TicksAdd(n, rate, tau);
    Distribute(n0, n, tau);
    SecondsFit(t, z, n0 / rate, n / rate, n0 * tau % US, n * tau % US, n0 * tau, n * tau, (n - n0) * tau,
               Sum(BaseFor(t, n0, rate), n, rate).sec);
  }

  lemma Distribute(n0: nat, n: nat, tau: nat)
    requires n0 <= n
    ensures 0 <= (n - n0) * tau == n * tau - n0 * tau
  {
  }

  lemma SecondsFit(t: TimeVal, z: int, q0: int, q: int, b0: int, b: int, span0: int, span: int, elapsed: int, sec: int)
    requires IsTime(t) && 0 <= b0 < US && 0 <= b < US
    requires q0 * US + b0 == span0 && q * US + b == span && 0 <= elapsed == span - span0
    requires Micros(t) + elapsed < (WORD / 2 - 1) * US
    requires sec == t.sec - q0 + q + z * WORD && -WORD / 2 <= sec < WORD / 2
    ensures z == 0
  {
    var s := t.sec - q0 + q;
    assert s * US == Micros(t) + elapsed + b0 - t.usec - b;
    assert -2 <= s < WORD / 2;
  }

  /** The tick counter as e ticks less the wraps. */
  lemma LaterIs(n0: Word, e: nat, tau: nat) returns (w: nat)
    ensures w == (n0 + e) / WORD && Later(n0, e) == n0 + e - w * WORD
    ensures Later(n0, e) * tau - n0 * tau == e * tau - w * tau * WORD
    ensures w == 0 <==> n0 + e < WORD
  {
    w := (n0 + e) / WORD;
    var n := Later(n0, e);
    assert n == n0 + e - w * WORD;
    assert n * tau == n0 * tau + e * tau - w * tau * WORD by {
      assert w * WORD * tau == w * tau * WORD;
    }
  }

  /** At a tick a second, one wrap of the counter is a wrap of the seconds. */
  lemma WrapOfSeconds(t: TimeVal, n0: Word, e: nat, w: nat, z: int, sec: int)
    requires IsTime(t) && Micros(t) + e * US < (WORD / 2 - 1) * US && 0 < w
    requires n0 < WORD && 0 <= n0 + e - w * WORD < WORD
    requires sec == t.sec - n0 + (n0 + e - w * WORD) + z * WORD && -WORD / 2 <= sec < WORD / 2
    ensures w == 1 && z == 1
  {
    assert t.sec + e < WORD / 2 - 1;
  }

  /** At more ticks a second, wraps of the counter are never made up for. */
  lemma WrapsDoNotCancel(n0: Word, e: nat, rate: nat, tau: nat, w: nat, z: int)
    requires 2 <= rate && rate * tau == US && 0 < w && w * WORD <= n0 + e
    requires e * tau < WORD / 2 * US
    ensures z * US != w * tau
  {
    assert 2 * tau <= US by {
      AtLeast(2, rate, tau);
    }
    assert (w * tau - tau) * WORD <= e * tau by {
      AtLeast((w - 1) * WORD, e, tau);
      assert (w - 1) * WORD * tau == (w * tau - tau) * WORD;
    }
    assert w * tau < US;
    assert 0 < w * tau by {
      AtLeast(1, w, tau);
    }
  }

  lemma AtLeast(a: int, b: int, c: nat)
    requires a <= b
    ensures a * c <= b * c
  {
  }

  /**
   The clock law, and exactly when it holds. After a set at tick n0 a get e ticks later returns the set
   time plus the ticks' time if and only if the 32-bit product in settimeofday lost nothing and the
   tick counter did not wrap since (at a tick a second its wrap does no harm); the only other way is
   for both to be zero and the clamp to hide a loss.
   */
  lemma ClockLaw(t: TimeVal, n0: Word, e: nat, rate: Word)
    requires 0 < rate && US % rate == 0 && IsTime(t)
    requires Micros(t) + e * TickLength(rate) < (WORD / 2 - 1) * US
    ensures var expected := Micros(t) + e * TickLength(rate);
            var sum := Sum(BaseFor(t, n0, rate), Later(n0, e), rate);
            var got := Reading(BaseFor(t, n0, rate), Later(n0, e), rate);
            var exact := Skew(n0, rate) == 0 && (n0 + e < WORD || rate == 1);
            && (got == FromMicros(expected) <==> exact || (expected == 0 && Skew(n0, rate) < 0))
            && (exact ==> !Clamps(sum))
  {
    var tau := TickLength(rate);
    var n := Later(n0, e);
    assert rate * tau == US;
    var w := LaterIs(n0, e, tau);
    var z := SumIs(t, n0, n, rate, tau);
    var sum := Sum(BaseFor(t, n0, rate), n, rate);
    var expected := Micros(t) + e * tau;
    Cases(t, n0, e, rate, tau, w, z);
    assert expected == 0 ==> sum.sec == 0;
    var skew, shift, unshifted := Skew(n0, rate), z * US - w * tau, w == 0 || rate == 1;
    assert Micros(sum) == expected + skew + shift * WORD;
    Decide(sum, expected, skew, shift, unshifted);
  }

  lemma Decide(sum: TimeVal, expected: nat, skew: int, shift: int, unshifted: bool)
    requires Micros(sum) == expected + skew + shift * WORD && -US < skew < US
    requires shift == 0 <==> unshifted
    requires if expected == 0 then unshifted && sum.sec == 0 else true
    ensures Normalised(sum) == FromMicros(expected) <==> (skew == 0 && unshifted) || (expected == 0 && skew < 0)
    ensures skew == 0 && unshifted ==> !Clamps(sum)
  {
    NormalisedMicros(sum);
    FromMicrosIsOnly(expected, Normalised(sum));
  }

  /** How far off the sum is. */
  lemma Cases(t: TimeVal, n0: Word, e: nat, rate: Word, tau: nat, w: nat, z: int)
    requires 0 < rate && rate * tau == US && tau == TickLength(rate) && IsTime(t)
    requires Micros(t) + e * tau < (WORD / 2 - 1) * US
    requires w == (n0 + e) / WORD && Later(n0, e) == n0 + e - w * WORD
    requires Sum(BaseFor(t, n0, rate), Later(n0, e), rate).sec == t.sec - n0 / rate + Later(n0, e) / rate + z * WORD
    ensures w == 0 || rate == 1 ==> z * US == w * tau
    ensures w > 0 && rate > 1 ==> z * US != w * tau
    ensures w > 0 ==> 0 < e * tau
    ensures 0 <= e * tau && (e * tau == 0 ==> e == 0 && z == 0 && Later(n0, e) == n0)
  {
    AtLeast(1, tau, e);
    var sec := Sum(BaseFor(t, n0, rate), Later(n0, e), rate).sec;
    assert 0 < tau;
    if w == 0 {
      NoWrapNoShift(t, n0, Later(n0, e), rate, tau, z);
    } else {
      assert 0 < e;
      AtLeast(1, e, tau);
      if rate == 1 {
        WrapOfSeconds(t, n0, e, w, z, sec);
      } else {
        WrapsDoNotCancel(n0, e, rate, tau, w, z);
      }
    }
  }

  /** Right after a set, a get returns the set time, whatever the rate, exactly when the 32-bit product lost nothing. */
  lemma BackAtOnce(t: TimeVal, n: Word, rate: Word)
    requires 0 < rate && IsTime(t) && t.sec < WORD / 2
    ensures Reading(BaseFor(t, n, rate), n, rate) == t <==> Skew(n, rate) == 0 || (Micros(t) == 0 && Skew(n, rate) < 0)
  {
    var a, b := n * TickLength(rate) % WORD % US, n * TickLength(rate) % US;
    var z := SumFields(t, n / rate, a, n / rate, b);
    assert z == 0;
    var sum := Sum(BaseFor(t, n, rate), n, rate);
    assert sum == TimeVal(t.sec, t.usec - a + b);
    assert t == FromMicros(Micros(t));
    Decide(sum, Micros(t), b - a, 0, true);
  }

  /** The 32-bit product loses nothing exactly when its lost multiples of 2^32 are whole seconds. */
  lemma NothingLost(n: Word, rate: Word)
    requires 0 < rate
    ensures Skew(n, rate) == 0 <==> n * TickLength(rate) / WORD % 15625 == 0
    ensures n * TickLength(rate) < WORD ==> Skew(n, rate) == 0
  {
    LostSeconds(n * TickLength(rate));
  }

  lemma LostSeconds(p: nat)
    ensures p % US == p % WORD % US <==> p / WORD % 15625 == 0
    ensures p < WORD ==> p % WORD == p
  {
    var q, r := p / WORD, p % WORD;
    assert p == q * WORD + r;
    if q % 15625 == 0 {
      var k := q / 15625;
      assert p == r + (k * 67108864) * US by {
        assert q == 15625 * k;
      }
      SameRemainder(p, r, k * 67108864);
    } else if p % US == r % US {
      var k := p / US - r / US;
      assert q * WORD == k * US;
      assert q * 67108864 == k * 15625;
      assert q == 15625 * (k * 12659 - 54369991 * q);
      Multiple(q, k * 12659 - 54369991 * q);
    }
  }

  lemma SameRemainder(a: int, b: int, k: int)
    requires a == b + k * US
    ensures a % US == b % US
  {
  }

  lemma Multiple(q: int, k: int)
    requires q == 15625 * k
    ensures q % 15625 == 0
  {
  }

  /** At 1000 ticks a second the law first fails after 72 minutes: a get right after the set is not the set time. */
  lemma LossWitness(t: TimeVal)
    requires IsTime(t) && t.sec < WORD / 2
    ensures Reading(BaseFor(t, 4294968, 1000), 4294968, 1000) != t
  {
    assert Skew(4294968, 1000) == 968000 - 704;
    BackAtOnce(t, 4294968, 1000);
  }

  /** A get at tick e after a set at tick 0 returns the set time plus the whole microseconds e ticks really take. */
  predicate KeepsTime(t: TimeVal, rate: Word, e: Word)
    requires 0 < rate
  {
    var expected := Micros(t) + e * US / rate;
    expected < (WORD / 2 - 1) * US ==> Reading(BaseFor(t, 0, rate), e, rate) == FromMicros(expected)
  }

  lemma SetAtZero(t: TimeVal, rate: Word, e: Word)
    requires 0 < rate && IsTime(t) && t.sec < WORD / 2
    ensures Sum(BaseFor(t, 0, rate), e, rate) ==
            TimeVal(Wrap(t.sec + e / rate), t.usec + e * TickLength(rate) % US)
  {
    assert 0 * TickLength(rate) == 0 && 0 / rate == 0;
    NoBase(t, e / rate, e * TickLength(rate) % US);
  }

  lemma NoBase(t: TimeVal, q: int, b: int)
    requires IsTime(t) && t.sec < WORD / 2 && 0 <= b < US
    ensures Wrap(Wrap(t.sec - 0) + q) == Wrap(t.sec + q)
    ensures Wrap(Wrap(t.usec - 0 % WORD % US) + b) == t.usec + b
  {
  }

  lemma EvenTicks(rate: Word, e: Word, tau: nat)
    requires 0 < rate && US == rate * tau
    ensures e * US / rate == e * tau
  {
    assert e * US == e * tau * rate;
    QuotientIs(e * US, rate, e * tau, 0);
  }

  lemma QuotientIs(a: int, b: nat, q: int, r: nat)
    requires 0 < b && a == q * b + r && r < b
    ensures a / b == q && a % b == r
  {
    var d, m := a / b, a % b;
    assert a == d * b + m && 0 <= m < b;
    if d < q {
      assert (d + 1) * b <= q * b by { AtLeast(d + 1, q, b); }
    } else if q < d {
      assert (q + 1) * b <= d * b by { AtLeast(q + 1, d, b); }
    }
  }

  /** After a second's worth of ticks at a rate below a million that does not divide it, the clock is ahead. */
  lemma SlowRateRunsAhead(t: TimeVal, rate: Word)
    requires 0 < rate < US && US % rate != 0 && IsTime(t) && t.sec < WORD / 2 - 3
    ensures !KeepsTime(t, rate, rate)
  {
    var tau := TickLength(rate);
    assert rate * tau == US - US % rate;
    QuotientIs(rate * US, rate, US, 0);
    QuotientIs(rate, rate, 1, 0);
    SetAtZero(t, rate, rate);
    Remainder(rate * tau, 0, rate * tau);
    NormalisedMicros(Sum(BaseFor(t, 0, rate), rate, rate));
  }

  /** One tick before a full second at a rate above a million, the clock has not moved. */
  lemma FastRateStands(t: TimeVal, rate: Word)
    requires US < rate && IsTime(t) && t.sec < WORD / 2 - 3
    ensures !KeepsTime(t, rate, rate - 1)
  {
    QuotientIs(US, rate, 0, US);
    QuotientIs((rate - 1) * US, rate, US - 1, rate - US);
    QuotientIs(rate - 1, rate, 0, rate - 1);
    SetAtZero(t, rate, rate - 1);
    NormalisedMicros(Sum(BaseFor(t, 0, rate), rate - 1, rate));
  }

  lemma EvenRateKeeps(t: TimeVal, rate: Word, e: Word)
    requires 0 < rate && US % rate == 0 && IsTime(t)
    ensures KeepsTime(t, rate, e)
  {
    var tau := TickLength(rate);
    assert US == rate * tau;
    EvenTicks(rate, e, tau);
    if Micros(t) + e * tau < (WORD / 2 - 1) * US {
      assert Later(0, e) == e && Skew(0, rate) == 0 by {
        assert 0 * tau == 0;
      }
      ClockLaw(t, 0, e, rate);
    }
  }

  /** The clock keeps time exactly at the rates that divide a million. */
  lemma KeepsTimeIffEvenRate(t: TimeVal, rate: Word)
    requires 0 < rate && IsTime(t) && t.sec < WORD / 2 - 3
    ensures (forall e: Word :: KeepsTime(t, rate, e)) <==> US % rate == 0
  {
    if US % rate == 0 {
      forall e: Word ensures KeepsTime(t, rate, e) {
        EvenRateKeeps(t, rate, e);
      }
    } else if rate < US {
      SlowRateRunsAhead(t, rate);
    } else {
      FastRateStands(t, rate);
    }
  }
}
