/** The tuning sequence of the VCTCXO: what each packet of error counts does to the calibration. */
module Calibration {
  import opened CalibrationLine
  import opened Oscillators

  datatype TuneState = CoarseTuneMin | CoarseTuneMax | CoarseTuneDone | FineTune | DoNothing

  /** The error counts of one interrupt and the flags telling which exceed their tolerance. */
  datatype Packet = Packet(error1s: int, error10s: int, error100s: int, flag1s: bool, flag10s: bool, flag100s: bool)

  datatype Calibration = Calibration(state: TuneState, x0: int, x1: int, slope: Slope, dac: Dac)

  /** What happens to a calibration: a packet is handled, or the host sets the DAC. */
  datatype Event = Handled(packet: Packet, stray: Dac) | HostSets(value: Dac)

  /** The error a fine adjustment goes by: the shortest period whose error is out of tolerance. */
  predicate Adjusts(p: Packet) {
    p.flag1s || p.flag10s || p.flag100s
  }

  function PeriodOf(p: Packet): Period {
    if p.flag1s then One else if p.flag10s then Ten else Hundred
  }

  function ErrorOver(p: Packet, period: Period): int {
    match period
    case One => p.error1s
    case Ten => p.error10s
    case Hundred => p.error100s
  }

  function Tuned(c: Calibration, p: Packet, stray: Dac): Calibration {
    match c.state
    case CoarseTuneMin => c.(state := CoarseTuneMax, dac := DAC_MIN)
    case CoarseTuneMax => c.(state := CoarseTuneDone, x0 := p.error1s, dac := DAC_MAX)
    case CoarseTuneDone =>
      var slope := SlopeOf(c.x0, p.error1s);
      c.(state := FineTune, x1 := p.error1s, slope := slope, dac := Intercept(slope, c.x0, stray))
    case FineTune =>
      if Adjusts(p) then c.(dac := Adjusted(c.dac, c.slope, ErrorOver(p, PeriodOf(p)), PeriodOf(p), stray)) else c
    case DoNothing => c
  }

  function After(c: Calibration, e: Event): Calibration {
    match e
    case Handled(packet, stray) => Tuned(c, packet, stray)
    case HostSets(value) => c.(dac := value)
  }

  function AfterAll(c: Calibration, events: seq<Event>): Calibration {
    if events == [] then c else After(AfterAll(c, events[..|events| - 1]), events[|events| - 1])
  }

  lemma {:induction false} AfterAllSplit(c: Calibration, a: seq<Event>, b: seq<Event>)
    ensures AfterAll(c, a + b) == AfterAll(AfterAll(c, a), b)
    decreases |b|
  {
    if b == [] {
      assert a + b == a;
    } else {
      AfterAllSplit(c, a, b[..|b| - 1]);
      assert (a + b)[..|a + b| - 1] == a + b[..|b| - 1];
    }
  }

  /** The packets handled, in order. */
  function Packets(events: seq<Event>): seq<Packet> {
    if events == [] then []
    else
      var last := events[|events| - 1];
      Packets(events[..|events| - 1]) + if last.Handled? then [last.packet] else []
  }

  lemma {:induction false} PacketsOfBoth(a: seq<Event>, b: seq<Event>)
    ensures Packets(a + b) == Packets(a) + Packets(b)
    decreases |b|
  {
    if b == [] {
      assert a + b == a;
    } else {
      PacketsOfBoth(a, b[..|b| - 1]);
      assert (a + b)[..|a + b| - 1] == a + b[..|b| - 1];
    }
  }

  /**
   From the start of an enable period the states come in the order minimum, maximum, done, fine, one
   a packet, and the line is that of this period's measurements: nothing the calibration held before
   has a part in it.
   */
  lemma {:induction false} StatesInOrder(start: Calibration, events: seq<Event>)
    requires start.state == CoarseTuneMin
    ensures var c, ps := AfterAll(start, events), Packets(events);
            && c.state == (if |ps| == 0 then CoarseTuneMin else if |ps| == 1 then CoarseTuneMax
                           else if |ps| == 2 then CoarseTuneDone else FineTune)
            && (|ps| >= 2 ==> c.x0 == ps[1].error1s)
            && (|ps| >= 3 ==> c.x1 == ps[2].error1s && c.slope == SlopeOf(ps[1].error1s, ps[2].error1s))
  {
    if events != [] {
      StatesInOrder(start, events[..|events| - 1]);
    }
  }

  /** A fine adjustment uses the slope through this period's errors at the two ends of the DAC range. */
  lemma FineTuneUsesThisPeriod(start: Calibration, events: seq<Event>, p: Packet, stray: Dac)
    requires start.state == CoarseTuneMin && AfterAll(start, events).state == FineTune && Adjusts(p)
    ensures var c, ps := AfterAll(start, events), Packets(events);
            && |ps| >= 3
            && Tuned(c, p, stray).dac ==
               Adjusted(c.dac, SlopeOf(ps[1].error1s, ps[2].error1s), ErrorOver(p, PeriodOf(p)), PeriodOf(p), stray)
  {
    StatesInOrder(start, events);
  }

  /**
   The oscillator follows the measured line within `off` DAC counts: every fine adjustment is made on an
   error that shows the distance to the intercept, and the host leaves the DAC alone meanwhile.
   */
  ghost predicate OnLine(start: Calibration, events: seq<Event>, off: real) {
    events == [] ||
    (var c, last := AfterAll(start, events[..|events| - 1]), events[|events| - 1];
     && OnLine(start, events[..|events| - 1], off)
     && (c.state == FineTune ==> last.Handled? && (Adjusts(last.packet) ==> ShowsDistance(c, last.packet, off))))
  }

  ghost predicate ShowsDistance(c: Calibration, p: Packet, off: real) {
    c.slope.Slope? &&
    Abs(InDacCounts(ErrorOver(p, PeriodOf(p)), c.slope.value)
        - PeriodOf(p).Times(c.dac as real - ExactIntercept(c.slope.value, c.x0))) <= off
  }

  ghost predicate NearIntercept(c: Calibration, off: real) {
    c.slope.Slope? && Abs(c.dac as real - ExactIntercept(c.slope.value, c.x0)) <= 1.0 + off
  }

  /** Once coarsely tuned by errors that bracket zero, the DAC stays within a count of the intercept. */
  lemma {:induction false} StaysTuned(start: Calibration, events: seq<Event>, off: real)
    requires start.state == CoarseTuneMin && 0.0 <= off <= 6000.0 && OnLine(start, events, off)
    requires AfterAll(start, events).state == FineTune
    requires Bracket(AfterAll(start, events).x0, AfterAll(start, events).x1)
    ensures NearIntercept(AfterAll(start, events), off)
  {
    var c := AfterAll(start, events);
    StatesInOrder(start, events);
    assert c.slope == SlopeOf(c.x0, c.x1);
    if events != [] {
      var before, last := AfterAll(start, events[..|events| - 1]), events[|events| - 1];
      if before.state == FineTune {
        StaysTuned(start, events[..|events| - 1], off);
        FineTuneStays(before, last.packet, last.stray, off);
      } else if last.Handled? {
        InterceptWithinHalf(c.x0, c.x1, last.stray);
      }
    }
  }

  lemma FineTuneStays(c: Calibration, p: Packet, stray: Dac, off: real)
    requires c.state == FineTune && Bracket(c.x0, c.x1) && c.slope == SlopeOf(c.x0, c.x1)
    requires 0.0 <= off <= 6000.0 && (Adjusts(p) ==> ShowsDistance(c, p, off))
    requires NearIntercept(c, off)
    ensures NearIntercept(Tuned(c, p, stray), off)
  {
    if Adjusts(p) {
      InterceptBetweenEndsIffBracket(c.x0, c.x1);
      var intercept := ExactIntercept(c.slope.value, c.x0);
      FineStepLands(c.dac, c.slope.value, ErrorOver(p, PeriodOf(p)), PeriodOf(p), intercept, off, stray);
    }
  }

  // ----- on an oscillator -----

  /**
   The error the calibration goes by in its state shows the distance of the DAC from the oscillator's
   zero: the 1s error at both ends, and in fine tuning the shortest period whose error is out of tolerance.
   */
  predicate ShowsZero(o: Oscillator, c: Calibration, p: Packet, off: real) {
    match c.state
    case CoarseTuneMin => true
    case CoarseTuneMax => Shows(o, p.error1s, 1.0, c.dac, off)
    case CoarseTuneDone => Shows(o, p.error1s, 1.0, c.dac, off)
    case FineTune =>
      && (p.flag1s ==> Shows(o, p.error1s, 1.0, c.dac, off))
      && (!p.flag1s && p.flag10s ==> Shows(o, p.error10s, 10.0, c.dac, off))
      && (!p.flag1s && !p.flag10s && p.flag100s ==> Shows(o, p.error100s, 100.0, c.dac, off))
    case DoNothing => true
  }

  /** After the first packet every packet was counted at the DAC count held, and the host left it alone. */
  ghost predicate OnOscillator(start: Calibration, events: seq<Event>, o: Oscillator, off: real) {
    events == [] ||
    (var c, last := AfterAll(start, events[..|events| - 1]), events[|events| - 1];
     && OnOscillator(start, events[..|events| - 1], o, off)
     && (c.state != CoarseTuneMin ==> last.Handled? && ShowsZero(o, c, last.packet, off)))
  }

  /** What is known of the calibration in each state. */
  predicate Follows(o: Oscillator, c: Calibration, off: real) {
    match c.state
    case CoarseTuneMin => true
    case CoarseTuneMax => c.dac == DAC_MIN
    case CoarseTuneDone => c.dac == DAC_MAX && Shows(o, c.x0, 1.0, DAC_MIN, off)
    case FineTune =>
      && EndsShown(o, c.x0, c.x1, off) && c.slope == SlopeOf(c.x0, c.x1)
      && Abs(c.dac as real - o.zero) <= Near(off)
    case DoNothing => false
  }

  /** In fine tuning a packet with an error out of tolerance brings the DAC near the zero from wherever it stands. */
  lemma FineTuneTames(o: Oscillator, c: Calibration, p: Packet, stray: Dac, off: real)
    requires c.state == FineTune && EndsShown(o, c.x0, c.x1, off) && c.slope == SlopeOf(c.x0, c.x1)
    requires ShowsZero(o, c, p, off)
    ensures if p.flag1s || p.flag10s || p.flag100s then
              Abs(Tuned(c, p, stray).dac as real - o.zero) <= 1.0 + Abs(c.dac as real - o.zero) / 16.0 + 1.0625 * off
            else Tuned(c, p, stray).dac == c.dac
  {
    if Adjusts(p) {
      AdjustmentTames(o, c.x0, c.x1, off, c.dac, ErrorOver(p, PeriodOf(p)), PeriodOf(p), stray);
    }
  }

  lemma TunedFollows(o: Oscillator, c: Calibration, p: Packet, stray: Dac, off: real)
    requires 0.0 <= off <= OFF_MAX && DAC_MIN as real <= o.zero <= DAC_MAX as real
    requires Follows(o, c, off) && ShowsZero(o, c, p, off)
    ensures Follows(o, Tuned(c, p, stray), off)
  {
    if c.state == CoarseTuneDone {
      InterceptTames(o, c.x0, p.error1s, off, stray);
    } else if c.state == FineTune {
      FineTuneTames(o, c, p, stray, off);
    }
  }

  /**
   On an oscillator whose errors show its zero up to `off` DAC counts, whatever its gain and its sign, the DAC
   stands near that zero from the moment it is coarsely tuned.
   */
  lemma {:induction false} TamesOscillator(start: Calibration, events: seq<Event>, o: Oscillator, off: real)
    requires 0.0 <= off <= OFF_MAX && DAC_MIN as real <= o.zero <= DAC_MAX as real
    requires start.state == CoarseTuneMin && OnOscillator(start, events, o, off)
    ensures Follows(o, AfterAll(start, events), off)
    ensures AfterAll(start, events).state == FineTune ==>
              Abs(AfterAll(start, events).dac as real - o.zero) <= 1.1 + 1.2 * off
  {
    if events != [] {
      var before, last := AfterAll(start, events[..|events| - 1]), events[|events| - 1];
      TamesOscillator(start, events[..|events| - 1], o, off);
      if last.Handled? {
        TunedFollows(o, before, last.packet, last.stray, off);
      }
    }
  }

  /** On an oscillator measured without error, the line is its own. */
  lemma LineIsOscillators(start: Calibration, events: seq<Event>, o: Oscillator)
    requires DAC_MIN as real <= o.zero <= DAC_MAX as real
    requires start.state == CoarseTuneMin && OnOscillator(start, events, o, 0.0)
    requires AfterAll(start, events).state == FineTune
    ensures AfterAll(start, events).slope == Slope(o.gain)
    ensures ExactIntercept(o.gain, AfterAll(start, events).x0) == o.zero
  {
    TamesOscillator(start, events, o, 0.0);
    ExactMeasurement(o, AfterAll(start, events).x0, AfterAll(start, events).x1);
  }
}
