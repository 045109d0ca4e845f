/** The switching logic of the charging state machine, cut out of it: one relay command a step,
    decided by a handful of fields. The whole machine refines it. */
module FsmRuns {
  import opened Fsm

  // ---------- What the trace says about the relay ----------

  /** Whether the last relay event is PowerOn; whether PowerOn and PowerOff took turns so far,
      PowerOn first; whether the relay ever failed to open, that is, reported an error while
      it was closed; and the number of PowerOn events. */
  datatype RelayLog = RelayLog(closed: bool, alternates: bool, refusedOff: bool, powerOns: nat)

  function Note(log: RelayLog, e: Event): RelayLog {
    match e
    case PowerOn => RelayLog(true, log.alternates && !log.closed, log.refusedOff, log.powerOns + 1)
    case PowerOff => RelayLog(false, log.alternates && log.closed, log.refusedOff, log.powerOns)
    case ErrorRelais => log.(refusedOff := log.refusedOff || log.closed)
    case _ => log
  }

  function Log(t: Trace): RelayLog {
    match t
    case Silence => RelayLog(false, true, false, 0)
    case Then(before, last) => Note(Log(before), last)
  }

  // ---------- The relay in a step ----------

  /** The part of the state that the power switch and the RCD belong to. */
  datatype Power = Power(log: RelayLog, relay: bool, rcdArmed: bool)

  datatype Command = Keep | TurnOn | TurnOff

  function PowerOf(s: State): Power {
    Power(Log(s.trace), s.hardware.relay, s.hardware.rcdArmed)
  }

  function Obey(p: Power, c: Command, i: Input): Power {
    if c == TurnOn && !p.relay then
      Power(Note(p.log, if i.closes then PowerOn else ErrorRelais), i.closes, true)
    else if c == TurnOff && p.relay then
      Power(Note(p.log, if i.opens then PowerOff else ErrorRelais), !i.opens, false)
    else p
  }

  function LateOff(c: Control, i: Input): Command {
    if Elapsed(StopCountdown(c, i), i.pwmCheckTime) then TurnOff else Keep
  }

  /** The one relay command that a processed step gives. */
  function Decision(c: Control, i: Input): Command {
    match c.cur
    case Disabled => TurnOff
    case A => if Leaves(c.prev) then TurnOff else Keep
    case B => if c.prev != A && c.prev != B then TurnOff else Keep
    case C => if !c.pwm then LateOff(c, i) else if c.allowed then TurnOn else Keep
    case D => if !c.pwm then LateOff(c, i) else if c.allowed && c.ventilation then TurnOn else Keep
    case E => TurnOff
    case F => TurnOff
    case DF => TurnOff
  }

  /** What a processed step leaves for the next one. */
  function Settled(c: Control, i: Input): Control {
    var pwm := c.pwm && c.cur != A && c.cur != E;
    Control(c.cur, c.cur, pwm, pwm, c.allowed && c.cur != A && c.cur != E && c.cur != Disabled, c.ventilation,
      if Charging(c.cur) && !c.pwm then StopCountdown(c, i) else c.pwmStop)
  }

  /** Events other than those of the relay. */
  predicate Quiet(e: Event) {
    e != PowerOn && e != PowerOff && e != ErrorRelais
  }

  lemma QuietEmit(t: Trace, when: bool, e: Event)
    requires Quiet(e)
    ensures Log(Emit(t, when, e)) == Log(t)
  {
  }

  lemma QuietStep(s: State, when: bool, e: Event)
    requires Quiet(e)
    ensures PowerOf(EmitIf(s, when, e)) == PowerOf(s) && EmitIf(s, when, e).control == s.control
  {
    QuietEmit(s.trace, when, e);
  }

  lemma ArrivalIsQuiet(s: State)
    ensures PowerOf(Arrive(s)) == PowerOf(s) && Arrive(s).control == s.control
  {
    var prev := s.control.prev;
    var t := Emit(s.trace, prev == A, CarPluggedIn);
    var requested := prev == B || (prev == A && s.control.cur == D);
    QuietEmit(s.trace, prev == A, CarPluggedIn);
    QuietEmit(t, requested, CarRequestedPower);
    QuietEmit(Emit(t, requested, CarRequestedPower), prev == E || prev == F, EFToBCD);
  }

  lemma SwitchesObey(s: State, i: Input)
    ensures PowerOf(SwitchOn(s, i)) == Obey(PowerOf(s), TurnOn, i) && SwitchOn(s, i).control == s.control
    ensures PowerOf(SwitchOff(s, i)) == Obey(PowerOf(s), TurnOff, i) && SwitchOff(s, i).control == s.control
  {
  }

  /** A step's relay command is Decision, and what it leaves for the next step is Settled. */
  predicate Decides(s: State, t: State, i: Input) {
    PowerOf(t) == Obey(PowerOf(s), Decision(s.control, i), i) && Finish(t).control == Settled(s.control, i)
  }

  lemma StepDecides(s: State, i: Input)
    ensures Decides(s, Process(s, i), i)
  {
    match s.control.cur
    case Disabled => StepDecidesDisabled(s, i);
    case A => StepDecidesA(s, i);
    case B => StepDecidesB(s, i);
    case C => StepDecidesC(s, i);
    case D => StepDecidesD(s, i);
    case E => StepDecidesE(s, i);
    case F => StepDecidesF(s, i);
    case DF => StepDecidesDF(s, i);
  }

  lemma StepDecidesDisabled(s: State, i: Input)
    requires s.control.cur == Disabled
    ensures Decides(s, InDisabled(s, i), i)
  {
    SwitchesObey(s.(control := s.control.(allowed := false)), i);
  }

  lemma StepDecidesA(s: State, i: Input)
    requires s.control.cur == A
    ensures Decides(s, InA(s, i), i)
  {
    var t := Idle(s);
    assert PowerOf(t) == PowerOf(s);
    if Leaves(s.control.prev) {
      var u := EmitIf(t, true, CarRequestedStopPower);
      QuietStep(t, true, CarRequestedStopPower);
      SwitchesObey(u, i);
      QuietStep(SwitchOff(u, i), true, CarUnplugged);
    }
  }

  lemma StepDecidesB(s: State, i: Input)
    requires s.control.cur == B
    ensures Decides(s, InB(s, i), i)
  {
    var prev := s.control.prev;
    var plugged := prev == A || prev == Disabled;
    var u := EmitIf(s, true, CarRequestedStopPower);
    var t := if prev != A && prev != B then SwitchOff(u, i) else s;
    QuietStep(s, true, CarRequestedStopPower);
    SwitchesObey(u, i);
    QuietEmit(t.trace, plugged, CarPluggedIn);
    QuietEmit(Emit(t.trace, plugged, CarPluggedIn), prev == E || prev == F, EFToBCD);
  }

  lemma StopObeys(s: State, i: Input)
    ensures PowerOf(StopLate(s, i)) == Obey(PowerOf(s), LateOff(s.control, i), i)
    ensures StopLate(s, i).control == s.control.(pwmStop := StopCountdown(s.control, i))
  {
    SwitchesObey(s.(control := s.control.(pwmStop := StopCountdown(s.control, i))), i);
  }

  lemma StepDecidesC(s: State, i: Input)
    requires s.control.cur == C
    ensures Decides(s, InC(s, i), i)
  {
    var t := Arrive(s);
    ArrivalIsQuiet(s);
    if !t.control.pwm {
      StopObeys(t, i);
    } else if t.control.allowed {
      SwitchesObey(t, i);
      QuietStep(SwitchOn(t, i), !t.control.prevPwm && t.session.simplified, CarRequestedPower);
    }
  }

  lemma StepDecidesD(s: State, i: Input)
    requires s.control.cur == D
    ensures Decides(s, InD(s, i), i)
  {
    var t := Arrive(s);
    ArrivalIsQuiet(s);
    var control := t.control;
    var again := control.prev == C && !control.ventilation;
    if !control.pwm {
      StopObeys(t, i);
    } else if control.allowed && !t.hardware.relay && control.ventilation {
      SwitchesObey(t, i);
      QuietStep(SwitchOn(t, i), again, ErrorVentilationNotAvailable);
    } else if control.allowed && !t.hardware.relay {
      QuietStep(t, true, ErrorVentilationNotAvailable);
      QuietStep(EmitIf(t, true, ErrorVentilationNotAvailable), again, ErrorVentilationNotAvailable);
    } else {
      QuietStep(t, again, ErrorVentilationNotAvailable);
    }
  }

  lemma FaultIsQuiet(s: State, entered: bool, e: Event)
    requires Quiet(e)
    ensures var t := EmitIf(EmitIf(s, entered, e), Connected(s.control.prev), BCDToEF);
      PowerOf(t) == PowerOf(s) && t.control == s.control
  {
    QuietStep(s, entered, e);
    QuietStep(EmitIf(s, entered, e), Connected(s.control.prev), BCDToEF);
  }

  lemma StepDecidesE(s: State, i: Input)
    requires s.control.cur == E
    ensures Decides(s, InE(s, i), i)
  {
    var prev := s.control.prev;
    var t := EmitIf(EmitIf(s, prev != E, ErrorE), Connected(prev), BCDToEF);
    FaultIsQuiet(s, prev != E, ErrorE);
    SwitchesObey(t, i);
    assert PowerOf(PwmOff(SwitchOff(t, i))) == PowerOf(SwitchOff(t, i));
  }

  lemma StepDecidesF(s: State, i: Input)
    requires s.control.cur == F
    ensures Decides(s, InF(s, i), i)
  {
    SwitchesObey(s, i);
    QuietStep(SwitchOff(s, i), Connected(s.control.prev), BCDToEF);
  }

  lemma StepDecidesDF(s: State, i: Input)
    requires s.control.cur == DF
    ensures Decides(s, InDF(s, i), i)
  {
    var prev := s.control.prev;
    FaultIsQuiet(s, prev != DF, ErrorDF);
    SwitchesObey(EmitIf(EmitIf(s, prev != DF, ErrorDF), Connected(prev), BCDToEF), i);
  }

  // ---------- What one action does ----------

  function ControlAfter(c: Control, a: Action): Control {
    match a
    case Enable => c.(cur := CPState.A, pwm := false, allowed := false)
    case Disable => c.(cur := Disabled, pwm := false, allowed := false)
    case SetPwmOn(_) => c.(pwm := true)
    case SetPwmOff => c.(pwm := false, allowed := false)
    case SetPwmF => c.(cur := CPState.F, pwm := false, allowed := false)
    case AllowPowerOn(on) => c.(allowed := on)
    case SetVentilation(on) => c.(ventilation := on)
    case SetThreePhases(_) => c
    case SetCountryCode(_) => c
    case Run(i) =>
      match ReadCp(c.cur, c.pwm, i.signal)
      case None => c
      case Some(p) => Settled(c.(cur := p), i)
  }

  function PowerAfter(p: Power, c: Control, a: Action): Power {
    if Processes(c, a) then Obey(p, Decision(c.(cur := SeenBy(c, a)), a.input), a.input) else p
  }

  /** A run step with a stable signal. */
  predicate Processes(c: Control, a: Action) {
    a.Run? && ReadCp(c.cur, c.pwm, a.input.signal).Some?
  }

  function SeenBy(c: Control, a: Action): CPState
    requires Processes(c, a)
  {
    ReadCp(c.cur, c.pwm, a.input.signal).value
  }

  lemma ChecksAreQuiet(s: State, i: Input)
    ensures PowerOf(Checks(s, i)) == PowerOf(s) && Checks(s, i).control == s.control
  {
    QuietEmit(s.trace, i.rcdFired, ErrorRCD);
  }

  lemma RunRefines(s: State, i: Input)
    ensures RunStep(s, i).control == ControlAfter(s.control, Run(i))
    ensures PowerOf(RunStep(s, i)) == PowerAfter(PowerOf(s), s.control, Run(i))
  {
    ChecksAreQuiet(s, i);
    match ReadCp(s.control.cur, s.control.pwm, i.signal)
    case None =>
    case Some(p) => StepDecides(WithState(Checks(s, i), p), i);
  }

  /** Control and power evolve by themselves: the switching logic depends on nothing else. */
  lemma ActRefines(s: State, a: Action)
    ensures Act(s, a).control == ControlAfter(s.control, a)
    ensures PowerOf(Act(s, a)) == PowerAfter(PowerOf(s), s.control, a)
  {
    if a.Run? {
      RunRefines(s, a.input);
    }
  }
}
