/**
 The VCTCXO tamer: its cached control register, the interrupt service, and the part of the main loop
 that tunes the oscillator, iteration by iteration.
 */
module Tamer {
  import opened CalibrationLine
  import opened Calibration
  import opened Oscillators

  datatype TuneMode = Invalid | Disabled | OnePps | TenMhz

  /** The control byte: bits 0, 4 and 5, and the mode in bits 6 and 7; the others are never set. */
  datatype Control = Control(reset: bool, irqEnable: bool, irqClear: bool, mode: nat)

  function Code(mode: TuneMode): nat
    requires !mode.Invalid?
  {
    match mode
    case Disabled => 0
    case OnePps => 1
    case TenMhz => 2
  }

  const POWER_UP := Control(false, false, false, 0)
  const STOPPED := Control(true, false, false, 0)
  const RUNNING := Control(false, true, false, 1)
  const INTERRUPTED := Control(true, false, false, 1)

  /** Interrupts are enabled only with the counters running in 1PPS mode. */
  predicate Safe(control: Control) {
    control.irqEnable ==> !control.reset && control.mode == 1
  }

  predicate AllSafe(log: seq<Control>) {
    forall i | 0 <= i < |log| :: Safe(log[i])
  }

  const NO_PACKET := Packet(0, 0, 0, false, false, false)
  const POWER_UP_CALIBRATION := Calibration(CoarseTuneMin, 0, 0, Slope(0.0), 0x77FA)

  /** What the host asks for after the tamer's turn, as far as it touches the DAC. */
  datatype Command = AnalogWrite(value: Dac) | AdfWrite

  /** What one iteration of the main loop meets; stray is what an undefined conversion would yield. */
  datatype Input = Input(request: bool, enabled: bool, counts: Packet, stray: Dac, commands: seq<Command>)

  function HostEvents(commands: seq<Command>): seq<Event> {
    if commands == [] then []
    else
      var last := commands[|commands| - 1];
      HostEvents(commands[..|commands| - 1]) + if last.AnalogWrite? then [HostSets(last.value)] else []
  }

  /** Command i is the last of the host's DAC values. */
  predicate LastWrite(commands: seq<Command>, i: int) {
    && 0 <= i < |commands| && commands[i].AnalogWrite?
    && forall j | i < j < |commands| :: commands[j].AdfWrite?
  }

  class VctcxoTamer {
    // The device: the control register as last written, and its state and DAC registers.
    var control: Control
    var locked: bool
    var tunedLow: nat
    var tunedHigh: nat
    // The DAC: the count of the last write with its output enabled, and whether it is enabled.
    var output: Dac
    var driving: bool
    // The program's variables.
    var ctrlReg: Control
    var trimDacValue: Dac
    var dacVal: Dac
    var ready: bool
    var packet: Packet
    var enabled: bool
    var tuneState: TuneState
    var x0: int
    var x1: int
    var slope: Slope
    // Every write to the control register.
    ghost var log: seq<Control>

    ghost function Calibrated(): Calibration
      reads this
    {
      Calibration(tuneState, x0, x1, slope, dacVal)
    }

    /** The copies of the DAC count agree, the state register says if tuning is fine, all writes were safe. */
    ghost predicate Tracked()
      reads this
    {
      && dacVal == trimDacValue == output
      && (locked <==> tuneState == FineTune)
      && AllSafe(log)
    }

    /** Nothing pending: running in 1PPS mode with the interrupt on, or off with the interrupt off. */
    ghost predicate Idle()
      reads this
    {
      && !ready && control == ctrlReg
      && if enabled then ctrlReg == RUNNING
         else (ctrlReg == POWER_UP || ctrlReg == STOPPED) && tuneState == CoarseTuneMin
    }

    /** A packet to handle: just switched on, or stopped by the interrupt. */
    ghost predicate Pending()
      reads this
    {
      ready && enabled && (ctrlReg == RUNNING || ctrlReg == INTERRUPTED)
    }

    /** How every iteration leaves things. */
    ghost predicate Settled()
      reads this
    {
      Idle() && Tracked()
    }

    constructor ()
      ensures Settled() && !enabled && dacVal == 0x77FA && log == []
      ensures packet == NO_PACKET && Calibrated() == POWER_UP_CALIBRATION
    {
      control, locked, tunedLow, tunedHigh := POWER_UP, false, 0, 0;
      ctrlReg, trimDacValue, dacVal, output, driving := POWER_UP, 0x77FA, 0x77FA, 0x77FA, true;
      ready, packet, enabled := false, NO_PACKET, false;
      tuneState, x0, x1, slope := CoarseTuneMin, 0, 0, Slope(0.0);
      log := [];
    }

    method WriteControl(data: Control)
      modifies `control, `log
      ensures control == data && log == old(log) + [data]
    {
      control := data;
      log := log + [data];
    }

    method ResetCounters(reset: bool)
      modifies `ctrlReg, `control, `log
      ensures ctrlReg == old(ctrlReg).(reset := reset)
      ensures control == ctrlReg && log == old(log) + [ctrlReg]
    {
      ctrlReg := ctrlReg.(reset := reset);
      WriteControl(ctrlReg);
    }

    method EnableIsr(enable: bool)
      modifies `ctrlReg, `control, `log
      ensures ctrlReg == old(ctrlReg).(irqEnable := enable)
      ensures control == ctrlReg && log == old(log) + [ctrlReg]
    {
      ctrlReg := ctrlReg.(irqEnable := enable);
      WriteControl(ctrlReg);
    }

    method ClearIsr()
      modifies `control, `log
      ensures control == ctrlReg.(irqClear := true) && log == old(log) + [control]
    {
      WriteControl(ctrlReg.(irqClear := true));
    }

    /** The interrupt stays off while the mode changes and the counters are in reset. */
    method SetTuneMode(mode: TuneMode)
      modifies `ctrlReg, `control, `log
      ensures mode == Invalid ==> ctrlReg == old(ctrlReg) && control == old(control) && log == old(log)
      ensures mode != Invalid ==>
                && control == ctrlReg
                && ctrlReg == Control(mode == Disabled, mode != Disabled, old(ctrlReg).irqClear, Code(mode))
      ensures old(log) <= log
      ensures forall i | |old(log)| <= i < |log| :: log[i].irqEnable ==> log[i] == ctrlReg
    {
      if mode == Invalid {
        return;
      }
      EnableIsr(false);
      ctrlReg := ctrlReg.(mode := Code(mode));
      WriteControl(ctrlReg);
      ResetCounters(true);
      if mode != Disabled {
        ResetCounters(false);
      }
      if mode == OnePps || mode == TenMhz {
        EnableIsr(true);
      }
    }

    method TrimDacWrite(val: Dac)
      modifies `tunedLow, `tunedHigh
      ensures tunedLow < 256 && tunedHigh < 256 && tunedHigh * 256 + tunedLow == val
    {
      tunedLow := val % 256;
      tunedHigh := val / 256;
    }

    /** The interrupt service: stops the counters, takes the counts, and leaves the interrupt off. */
    method Isr(counts: Packet)
      requires control == ctrlReg && Safe(ctrlReg)
      modifies `ctrlReg, `control, `log, `packet, `ready
      ensures ready && packet == counts
      ensures ctrlReg == old(ctrlReg).(irqEnable := false, reset := true)
      ensures control == ctrlReg.(irqClear := true)
      ensures old(log) <= log && forall i | |old(log)| <= i < |log| :: !log[i].irqEnable
    {
      EnableIsr(false);
      ResetCounters(true);
      packet := counts;
      ClearIsr();
      ready := true;
    }

    /** Sets the DAC's output; without a value, three-states it. */
    method ControlTcxoDac(oe: bool, data: Dac)
      modifies `trimDacValue, `output, `driving
      ensures driving == oe
      ensures if oe then trimDacValue == data && output == data
              else trimDacValue == old(trimDacValue) && output == old(output)
    {
      if !oe {
        driving := false;
      } else {
        trimDacValue := data;
        output, driving := data, true;
      }
    }

    method SetDac(val: Dac)
      modifies `tunedLow, `tunedHigh, `trimDacValue, `output, `driving, `dacVal
      ensures dacVal == trimDacValue == output == val && driving && tunedHigh * 256 + tunedLow == val
    {
      TrimDacWrite(val);
      dacVal := val;
      ControlTcxoDac(true, dacVal);
    }

    /** Handles the pending packet in the state tuning has reached. */
    method Tune(stray: Dac)
      requires dacVal == trimDacValue == output && (locked <==> tuneState == FineTune)
      modifies `tunedLow, `tunedHigh, `trimDacValue, `output, `driving, `dacVal, `tuneState, `x0, `x1, `slope, `locked
      ensures Calibrated() == Tuned(old(Calibrated()), packet, stray)
      ensures dacVal == trimDacValue == output && (locked <==> tuneState == FineTune)
      ensures old(tuneState) in {CoarseTuneMin, CoarseTuneMax, CoarseTuneDone} ||
              (old(tuneState) == FineTune && (packet.flag1s || packet.flag10s || packet.flag100s)) ==>
                driving && tunedHigh * 256 + tunedLow == dacVal
    {
      match tuneState {
        case CoarseTuneMin =>
          SetDac(DAC_MIN);
          tuneState := CoarseTuneMax;
        case CoarseTuneMax =>
          x0 := packet.error1s;
          SetDac(DAC_MAX);
          tuneState := CoarseTuneDone;
        case CoarseTuneDone =>
          locked := true;
          x1 := packet.error1s;
          slope := SlopeOf(x0, x1);
          SetDac(Intercept(slope, x0, stray));
          tuneState := FineTune;
        case FineTune =>
          if packet.flag1s {
            trimDacValue := Adjusted(trimDacValue, slope, packet.error1s, One, stray);
            SetDac(trimDacValue);
          } else if packet.flag10s {
            trimDacValue := Adjusted(trimDacValue, slope, packet.error10s, Ten, stray);
            SetDac(trimDacValue);
          } else if packet.flag100s {
            trimDacValue := Adjusted(trimDacValue, slope, packet.error100s, Hundred, stray);
            SetDac(trimDacValue);
          }
        case DoNothing =>
      }
    }

    /** Serves the host's commands. */
    method Serve(commands: seq<Command>)
      requires Settled()
      modifies `trimDacValue, `output, `driving, `dacVal
      ensures Settled() && Calibrated() == AfterAll(old(Calibrated()), HostEvents(commands))
      ensures commands != [] ==> driving == commands[|commands| - 1].AnalogWrite?
      ensures forall i | LastWrite(commands, i) :: dacVal == commands[i].value
      ensures (forall i | 0 <= i < |commands| :: commands[i].AdfWrite?) ==> dacVal == old(dacVal)
    {
      var i := 0;
      while i < |commands|
        invariant 0 <= i <= |commands| && Settled()
        invariant i > 0 ==> driving == commands[i - 1].AnalogWrite?
        invariant Calibrated() == AfterAll(old(Calibrated()), HostEvents(commands[..i]))
      {
        NextHostEvent(old(Calibrated()), commands, i);
        ServeOne(commands[i]);
        i := i + 1;
      }
      assert commands[..i] == commands;
      LastWriteStands(old(Calibrated()), commands);
    }

    method ServeOne(command: Command)
      requires Settled()
      modifies `trimDacValue, `output, `driving, `dacVal
      ensures Settled() && Calibrated() == Served(old(Calibrated()), command)
      ensures driving == command.AnalogWrite?
      ensures dacVal == if command.AnalogWrite? then command.value else old(dacVal)
    {
      match command {
        case AnalogWrite(value) =>
          dacVal := value;
          ControlTcxoDac(true, dacVal);
        case AdfWrite =>
          ControlTcxoDac(false, 0);
      }
    }

    /** Switches taming on: 1PPS mode, counters running, interrupt enabled. */
    method Init()
      requires AllSafe(log) && (ctrlReg == POWER_UP || ctrlReg == STOPPED)
      modifies `locked, `ctrlReg, `control, `log
      ensures !locked && control == ctrlReg == RUNNING && AllSafe(log) && old(log) <= log
    {
      locked := false;
      SetTuneMode(OnePps);
    }

    /** Switches taming off: counters in reset, interrupt disabled. */
    method Dis()
      requires AllSafe(log) && (ctrlReg == RUNNING || ctrlReg == INTERRUPTED)
      modifies `locked, `ctrlReg, `control, `log
      ensures !locked && control == ctrlReg == STOPPED && AllSafe(log) && old(log) <= log
    {
      SetTuneMode(Disabled);
      locked := false;
    }

    /** Looks at the interrupt and at the enable bit. */
    method Poll(input: Input)
      requires Settled()
      modifies `control, `ctrlReg, `log, `packet, `ready, `enabled, `locked, `tuneState
      ensures (Idle() || Pending()) && Tracked() && enabled == input.enabled && old(log) <= log
      ensures ready <==> input.enabled && (input.request || !old(enabled))
      ensures packet == if input.request && old(enabled) then input.counts else old(packet)
      ensures tuneState == if enabled == old(enabled) then old(tuneState) else CoarseTuneMin
    {
      if input.request && control.irqEnable {
        Isr(input.counts);
      }
      Switch(input.enabled);
    }

    /** Follows the enable bit; switching starts over. */
    method Switch(enable: bool)
      requires (Idle() || Pending()) && Tracked()
      modifies `control, `ctrlReg, `log, `ready, `enabled, `locked, `tuneState
      ensures (Idle() || Pending()) && Tracked() && enabled == enable && old(log) <= log
      ensures ready == (enable && (old(ready) || !old(enabled)))
      ensures tuneState == if enabled == old(enabled) then old(tuneState) else CoarseTuneMin
    {
      var enabledOld := enabled;
      enabled := enable;
      if enabledOld != enabled {
        if enabled {
          Init();
          ready := true;
        } else {
          Dis();
          tuneState := CoarseTuneMin;
          ready := false;
        }
      }
    }

    /** Handles the packet if one is pending, then restarts the counters and the interrupt. */
    method Handle(stray: Dac)
      requires (Idle() || Pending()) && Tracked()
      modifies `tunedLow, `tunedHigh, `trimDacValue, `output, `driving, `dacVal, `tuneState, `x0, `x1, `slope, `locked,
               `ready, `ctrlReg, `control, `log
      ensures Settled() && old(log) <= log
      ensures Calibrated() == if old(ready) then Tuned(old(Calibrated()), packet, stray) else old(Calibrated())
    {
      if ready {
        ready := false;
        Tune(stray);
        Restart();
      }
    }

    /** Takes the counters out of reset and enables the interrupt. */
    method Restart()
      requires (ctrlReg == RUNNING || ctrlReg == INTERRUPTED) && AllSafe(log)
      modifies `ctrlReg, `control, `log
      ensures control == ctrlReg == RUNNING && AllSafe(log) && old(log) <= log
    {
      ResetCounters(false);
      EnableIsr(true);
    }

    /**
     One iteration of the main loop. The device raises its interrupt only while the control register
     enables it. A packet is handled when the tamer is switched on and at every interrupt after that;
     switching on or off starts over.
     */
    method Iterate(input: Input)
      requires Settled()
      modifies this
      ensures Settled() && enabled == input.enabled && old(log) <= log
      ensures packet == if input.request && old(enabled) then input.counts else old(packet)
      ensures Calibrated() ==
              AfterAll(Begun(old(Calibrated()), old(enabled), enabled), Events(input, old(enabled), packet))
    {
      Poll(input);
      ghost var begun, pending := Calibrated(), ready;
      Handle(input.stray);
      ghost var handled := Calibrated();
      Serve(input.commands);
      Combine(begun, handled, input, pending, packet);
    }
  }

  /** Where a calibration stands once the enable bit has been looked at. */
  function Begun(c: Calibration, enabledOld: bool, enabled: bool): Calibration {
    if enabled == enabledOld then c else c.(state := CoarseTuneMin)
  }

  /** What one iteration does to the calibration. */
  function Events(input: Input, enabledOld: bool, packet: Packet): seq<Event> {
    (if input.enabled && (input.request || !enabledOld) then [Handled(packet, input.stray)] else [])
    + HostEvents(input.commands)
  }

  function Served(c: Calibration, command: Command): Calibration {
    match command
    case AnalogWrite(value) => c.(dac := value)
    case AdfWrite => c
  }

  lemma NextHostEvent(c: Calibration, commands: seq<Command>, i: nat)
    requires i < |commands|
    ensures AfterAll(c, HostEvents(commands[..i + 1])) == Served(AfterAll(c, HostEvents(commands[..i])), commands[i])
  {
    var before := HostEvents(commands[..i]);
    assert commands[..i + 1][..i] == commands[..i];
    if commands[i].AnalogWrite? {
      assert (before + [HostSets(commands[i].value)])[..|before|] == before;
    } else {
      assert before + [] == before;
    }
  }

  /** The DAC ends at the last value the host sent, or where it was. */
  lemma {:induction false} LastWriteStands(c: Calibration, commands: seq<Command>)
    ensures forall i | LastWrite(commands, i) :: AfterAll(c, HostEvents(commands)).dac == commands[i].value
    ensures (forall i | 0 <= i < |commands| :: commands[i].AdfWrite?) ==> AfterAll(c, HostEvents(commands)).dac == c.dac
    decreases |commands|
  {
    if commands != [] {
      var n := |commands| - 1;
      var rest := commands[..n];
      NextHostEvent(c, commands, n);
      assert commands[..n + 1] == commands;
      LastWriteStands(c, rest);
      forall i | LastWrite(commands, i) ensures AfterAll(c, HostEvents(commands)).dac == commands[i].value {
        assert i < n ==> LastWrite(rest, i);
      }
    }
  }

  lemma Combine(begun: Calibration, handled: Calibration, input: Input, pending: bool, packet: Packet)
    requires handled == if pending then Tuned(begun, packet, input.stray) else begun
    ensures var first := if pending then [Handled(packet, input.stray)] else [];
            AfterAll(begun, first + HostEvents(input.commands)) == AfterAll(handled, HostEvents(input.commands))
  {
    var first := if pending then [Handled(packet, input.stray)] else [];
    if pending {
      assert first[..0] == [];
    }
    AfterAllSplit(begun, first, HostEvents(input.commands));
  }

  // ----- whole runs, as functions of their inputs -----

  /** The tamer is on after n iterations. */
  predicate On(inputs: seq<Input>, n: nat)
    requires n <= |inputs|
  {
    n > 0 && inputs[n - 1].enabled
  }

  /** The packet buffer after n iterations: the counts of the last interrupt taken. */
  function Held(inputs: seq<Input>, n: nat): Packet
    requires n <= |inputs|
  {
    if n == 0 then NO_PACKET
    else if inputs[n - 1].request && On(inputs, n - 1) then inputs[n - 1].counts
    else Held(inputs, n - 1)
  }

  /** What iteration n did to the calibration. */
  function EventsOf(inputs: seq<Input>, n: nat): seq<Event>
    requires 0 < n <= |inputs|
  {
    Events(inputs[n - 1], On(inputs, n - 1), Held(inputs, n))
  }

  /** The calibration after n iterations. */
  function Simulated(inputs: seq<Input>, n: nat): Calibration
    requires n <= |inputs|
  {
    if n == 0 then POWER_UP_CALIBRATION
    else AfterAll(Begun(Simulated(inputs, n - 1), On(inputs, n - 1), On(inputs, n)), EventsOf(inputs, n))
  }

  /** The iterations since the enable bit last changed, counting from the one that saw it change. */
  function Since(inputs: seq<Input>, n: nat): (from: nat)
    requires n <= |inputs|
    ensures from <= n && (0 < n ==> from < n)
  {
    if n <= 1 || On(inputs, n) != On(inputs, n - 1) then if n == 0 then 0 else n - 1 else Since(inputs, n - 1)
  }

  /** All events of iterations after `from`, up to the n-th. */
  function EventsFrom(inputs: seq<Input>, from: nat, n: nat): seq<Event>
    requires from <= n <= |inputs|
  {
    if n == from then [] else EventsFrom(inputs, from, n - 1) + EventsOf(inputs, n)
  }

  /** A period begins with a change of the enable bit, or at power-up, and the bit stays as it is. */
  lemma {:induction false} SteadySince(inputs: seq<Input>, n: nat)
    requires n <= |inputs|
    ensures forall m | Since(inputs, n) <= m < n :: inputs[m].enabled == On(inputs, n)
    ensures On(inputs, n) ==> !On(inputs, Since(inputs, n))
  {
    if n > 1 && On(inputs, n) == On(inputs, n - 1) {
      SteadySince(inputs, n - 1);
    }
  }

  /** Only the events of the current period matter, from wherever the last one left off. */
  lemma {:induction false} OnlySince(inputs: seq<Input>, n: nat)
    requires n <= |inputs|
    ensures var from := Since(inputs, n);
            Simulated(inputs, n) ==
            AfterAll(Simulated(inputs, from).(state := CoarseTuneMin), EventsFrom(inputs, from, n))
  {
    if n > 0 {
      var from, events := Since(inputs, n), EventsOf(inputs, n);
      if from == n - 1 {
        assert EventsFrom(inputs, from, n) == events;
      } else {
        OnlySince(inputs, n - 1);
        AfterAllSplit(Simulated(inputs, from).(state := CoarseTuneMin), EventsFrom(inputs, from, n - 1), events);
      }
    }
  }

  /** The counts of the interrupts raised in iterations [a, b). */
  function Interrupts(inputs: seq<Input>, a: nat, b: nat): seq<Packet>
    requires b <= |inputs|
  {
    if b <= a then []
    else Interrupts(inputs, a, b - 1) + if inputs[b - 1].request then [inputs[b - 1].counts] else []
  }

  lemma {:induction false} HostSendsNoPackets(commands: seq<Command>)
    ensures Packets(HostEvents(commands)) == []
    decreases |commands|
  {
    if commands != [] {
      var rest, last := commands[..|commands| - 1], commands[|commands| - 1];
      HostSendsNoPackets(rest);
      PacketsOfBoth(HostEvents(rest), if last.AnalogWrite? then [HostSets(last.value)] else []);
    }
  }

  lemma PacketsOfOne(inputs: seq<Input>, n: nat)
    requires 0 < n <= |inputs|
    ensures Packets(EventsOf(inputs, n)) ==
            if On(inputs, n) && (inputs[n - 1].request || !On(inputs, n - 1)) then [Held(inputs, n)] else []
  {
    var input := inputs[n - 1];
    var pending := input.enabled && (input.request || !On(inputs, n - 1));
    var handled := if pending then [Handled(Held(inputs, n), input.stray)] else [];
    HostSendsNoPackets(input.commands);
    PacketsOfBoth(handled, HostEvents(input.commands));
    if handled != [] {
      assert handled[..0] == [];
    }
  }

  /** The packets of a period after n iterations: one on switching on, then one an interrupt. */
  function PacketsExpected(inputs: seq<Input>, from: nat, n: nat): seq<Packet>
    requires from < n <= |inputs|
  {
    if On(inputs, n) then [Held(inputs, from + 1)] + Interrupts(inputs, from + 1, n) else []
  }

  lemma OneMore(inputs: seq<Input>, from: nat, n: nat)
    requires from < n - 1 < n <= |inputs| && On(inputs, n) == On(inputs, n - 1)
    ensures PacketsExpected(inputs, from, n) ==
            PacketsExpected(inputs, from, n - 1) +
            if On(inputs, n) && (inputs[n - 1].request || !On(inputs, n - 1)) then [Held(inputs, n)] else []
  {
  }

  lemma {:induction false} PacketsSince(inputs: seq<Input>, n: nat)
    requires 0 < n <= |inputs|
    ensures Packets(EventsFrom(inputs, Since(inputs, n), n)) == PacketsExpected(inputs, Since(inputs, n), n)
  {
    var from := Since(inputs, n);
    PacketsOfOne(inputs, n);
    PacketsOfBoth(EventsFrom(inputs, from, n - 1), EventsOf(inputs, n));
    if from < n - 1 {
      PacketsSince(inputs, n - 1);
      OneMore(inputs, from, n);
    } else {
      SteadySince(inputs, n);
    }
  }

  /** i and j are the first two iterations of [a, b) with an interrupt. */
  predicate FirstTwo(inputs: seq<Input>, a: nat, b: nat, i: nat, j: nat)
    requires b <= |inputs|
  {
    && a <= i < j < b && inputs[i].request && inputs[j].request
    && forall m | a <= m < j && m != i :: !inputs[m].request
  }

  lemma {:induction false} FirstInterrupt(inputs: seq<Input>, a: nat, b: nat) returns (i: nat)
    requires b <= |inputs| && |Interrupts(inputs, a, b)| == 1
    ensures a <= i < b && inputs[i].request && Interrupts(inputs, a, b) == [inputs[i].counts]
    ensures forall m | a <= m < b && m != i :: !inputs[m].request
  {
    if inputs[b - 1].request {
      i := b - 1;
      NoInterrupts(inputs, a, b - 1);
    } else {
      i := FirstInterrupt(inputs, a, b - 1);
    }
  }

  lemma {:induction false} NoInterrupts(inputs: seq<Input>, a: nat, b: nat)
    requires b <= |inputs| && Interrupts(inputs, a, b) == []
    ensures forall m | a <= m < b :: !inputs[m].request
  {
    if a < b {
      NoInterrupts(inputs, a, b - 1);
    }
  }

  lemma {:induction false} FirstTwoInterrupts(inputs: seq<Input>, a: nat, b: nat) returns (i: nat, j: nat)
    requires b <= |inputs| && |Interrupts(inputs, a, b)| >= 2
    ensures FirstTwo(inputs, a, b, i, j)
    ensures Interrupts(inputs, a, b)[0] == inputs[i].counts && Interrupts(inputs, a, b)[1] == inputs[j].counts
  {
    if |Interrupts(inputs, a, b - 1)| >= 2 {
      i, j := FirstTwoInterrupts(inputs, a, b - 1);
    } else {
      i := FirstInterrupt(inputs, a, b - 1);
      j := b - 1;
    }
  }

  /** The slope is that of the errors counted by the first two interrupts since the tamer was switched on. */
  ghost predicate MeasuredThisPeriod(inputs: seq<Input>, slope: Slope) {
    var n := |inputs|;
    var from := Since(inputs, n);
    && from < n && !On(inputs, from) && (forall m | from <= m < n :: inputs[m].enabled)
    && exists i: nat, j: nat | FirstTwo(inputs, from + 1, n, i, j) ::
         slope == SlopeOf(inputs[i].counts.error1s, inputs[j].counts.error1s)
  }

  /** In fine tuning there have been two interrupts, and the slope is theirs. */
  lemma {:induction false} SlopeOfInterrupts(inputs: seq<Input>, n: nat)
    requires 0 < n <= |inputs| && Simulated(inputs, n).state == FineTune
    ensures On(inputs, n)
    ensures var ps := Interrupts(inputs, Since(inputs, n) + 1, n);
            |ps| >= 2 && Simulated(inputs, n).slope == SlopeOf(ps[0].error1s, ps[1].error1s)
  {
    var from := Since(inputs, n);
    OnlySince(inputs, n);
    PacketsSince(inputs, n);
    StatesInOrder(Simulated(inputs, from).(state := CoarseTuneMin), EventsFrom(inputs, from, n));
  }

  lemma {:induction false} FineTuneIsMeasured(inputs: seq<Input>)
    requires Simulated(inputs, |inputs|).state == FineTune
    ensures MeasuredThisPeriod(inputs, Simulated(inputs, |inputs|).slope)
  {
    var n := |inputs|;
    var from := Since(inputs, n);
    SteadySince(inputs, n);
    SlopeOfInterrupts(inputs, n);
    var i, j := FirstTwoInterrupts(inputs, from + 1, n);
    assert FirstTwo(inputs, from + 1, n, i, j);
  }

  /**
   If in the current period the oscillator follows the line measured, within `off` DAC counts, and the
   coarse errors bracket zero, the DAC stands within a count of the intercept, up to that.
   */
  lemma {:induction false} TunedOverRuns(inputs: seq<Input>, off: real)
    requires Simulated(inputs, |inputs|).state == FineTune && 0.0 <= off <= 6000.0
    requires Bracket(Simulated(inputs, |inputs|).x0, Simulated(inputs, |inputs|).x1)
    requires OnLineSince(inputs, off)
    ensures NearIntercept(Simulated(inputs, |inputs|), off)
  {
    var from := Since(inputs, |inputs|);
    OnlySince(inputs, |inputs|);
    StaysTuned(Simulated(inputs, from).(state := CoarseTuneMin), EventsFrom(inputs, from, |inputs|), off);
  }

  ghost predicate OnLineSince(inputs: seq<Input>, off: real) {
    var from := Since(inputs, |inputs|);
    OnLine(Simulated(inputs, from).(state := CoarseTuneMin), EventsFrom(inputs, from, |inputs|), off)
  }

  /** In the current period the tamer is on an oscillator, and the host leaves the DAC alone after the first packet. */
  ghost predicate OnOscillatorSince(inputs: seq<Input>, o: Oscillator, off: real) {
    var from := Since(inputs, |inputs|);
    OnOscillator(Simulated(inputs, from).(state := CoarseTuneMin), EventsFrom(inputs, from, |inputs|), o, off)
  }

  /** In fine tuning the DAC stands near the oscillator's zero. */
  lemma {:induction false} TamesOverRuns(inputs: seq<Input>, o: Oscillator, off: real)
    requires Simulated(inputs, |inputs|).state == FineTune
    requires 0.0 <= off <= OFF_MAX && DAC_MIN as real <= o.zero <= DAC_MAX as real && OnOscillatorSince(inputs, o, off)
    ensures Abs(Simulated(inputs, |inputs|).dac as real - o.zero) <= 1.1 + 1.2 * off
  {
    var from := Since(inputs, |inputs|);
    OnlySince(inputs, |inputs|);
    TamesOscillator(Simulated(inputs, from).(state := CoarseTuneMin), EventsFrom(inputs, from, |inputs|),
                                o, off);
  }

  /** The main loop from power-up, over any inputs. */
  method Run(inputs: seq<Input>) returns (t: VctcxoTamer)
    ensures fresh(t) && t.Settled() && t.enabled == On(inputs, |inputs|)
    ensures t.Calibrated() == Simulated(inputs, |inputs|)
    ensures t.tuneState == FineTune ==> MeasuredThisPeriod(inputs, t.slope)
    ensures forall off | 0.0 <= off <= 6000.0 && OnLineSince(inputs, off) ::
              t.tuneState == FineTune && Bracket(t.x0, t.x1) ==> NearIntercept(t.Calibrated(), off)
    ensures forall o, off | 0.0 <= off <= OFF_MAX && OnOscillatorSince(inputs, o, off) ::
              t.tuneState == FineTune && DAC_MIN as real <= o.zero <= DAC_MAX as real ==>
                Abs(t.output as real - o.zero) <= 1.1 + 1.2 * off
  {
    t := new VctcxoTamer();
    for i := 0 to |inputs|
      invariant fresh(t) && t.Settled()
      invariant t.enabled == On(inputs, i) && t.packet == Held(inputs, i) && t.Calibrated() == Simulated(inputs, i)
    {
      t.Iterate(inputs[i]);
    }
    if t.tuneState == FineTune {
      FineTuneIsMeasured(inputs);
      TunedEverywhere(inputs);
    }
  }

  /** Whatever line or oscillator the run was on. */
  lemma {:induction false} TunedEverywhere(inputs: seq<Input>)
    requires Simulated(inputs, |inputs|).state == FineTune
    ensures var c := Simulated(inputs, |inputs|);
            && (forall off | 0.0 <= off <= 6000.0 && OnLineSince(inputs, off) ::
                  Bracket(c.x0, c.x1) ==> NearIntercept(c, off))
            && (forall o, off | 0.0 <= off <= OFF_MAX && OnOscillatorSince(inputs, o, off) ::
                  DAC_MIN as real <= o.zero <= DAC_MAX as real ==> Abs(c.dac as real - o.zero) <= 1.1 + 1.2 * off)
  {
    var c := Simulated(inputs, |inputs|);
    forall off | 0.0 <= off <= 6000.0 && OnLineSince(inputs, off) && Bracket(c.x0, c.x1) ensures NearIntercept(c, off) {
      TunedOverRuns(inputs, off);
    }
    forall o, off | 0.0 <= off <= OFF_MAX && OnOscillatorSince(inputs, o, off)
                    && DAC_MIN as real <= o.zero <= DAC_MAX as real
      ensures Abs(c.dac as real - o.zero) <= 1.1 + 1.2 * off
    {
      TamesOverRuns(inputs, o, off);
    }
  }
}
