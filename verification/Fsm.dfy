/** The charging state machine of IEC 61851-1 as a function: what one command or one run step
    does to the controller, the hardware it drives and the events it has emitted. */
module Fsm {
  import opened Words

  datatype CPState = Disabled | A | B | C | D | E | F | DF

  /** The events that the state machine emits. */
  datatype Event =
    | CarPluggedIn
    | CarRequestedPower
    | PowerOn
    | PowerOff
    | CarRequestedStopPower
    | CarUnplugged
    | ErrorE
    | ErrorDF
    | ErrorRelais
    | ErrorRCD
    | ErrorVentilationNotAvailable
    | EFToBCD
    | BCDToEF

  /** The events in the order of their emission, the latest on the outside. */
  datatype Trace = Silence | Then(before: Trace, last: Event)

  datatype Countdown = Countdown(period: u32, start: u32, running: bool)

  /** The fields on which switching depends. */
  datatype Control = Control(
    cur: CPState,
    prev: CPState,
    pwm: bool,
    prevPwm: bool,
    allowed: bool,
    ventilation: bool,
    pwmStop: Countdown)

  /** The other fields of the FSM. */
  datatype Session = Session(
    reclosing: bool,
    threePhases: bool,
    latch: bool,
    ventilatedCharging: bool,
    simplified: bool,
    duty: real,
    lockCheck: Countdown)

  /** What the hardware was last told: whether the relay is closed and with how many phases it
      was switched on last, whether the RCD is armed, the connector locked and the control
      pilot enabled; and how often the emergency switch was reset. */
  datatype Hardware = Hardware(relay: bool, phases: nat, rcdArmed: bool, locked: bool, pilot: bool, resets: nat)

  datatype State = State(control: Control, session: Session, hardware: Hardware, trace: Trace)

  datatype Signal = Signal(valid: bool, high: real, low: real)

  /** What a run step meets: the RCD's fault flag, the pilot signal, whether the relay obeys,
      and the true time at each of its readings of the clock, which shows the time modulo
      2^32 ticks. */
  datatype Input = Input(
    rcdFired: bool,
    signal: Signal,
    closes: bool,
    opens: bool,
    lockCheckTime: nat,
    pwmStartTime: nat,
    pwmCheckTime: nat,
    lockStartTime: nat)

  datatype Action =
    | Enable
    | Disable
    | SetPwmOn(duty: real)
    | SetPwmOff
    | SetPwmF
    | AllowPowerOn(on: bool)
    | SetVentilation(on: bool)
    | SetThreePhases(on: bool)
    | SetCountryCode(code: string)
    | Run(input: Input)

  // ---------- Countdowns ----------

  function Ticks(time: nat): u32 {
    time % TWO_32
  }

  function Started(c: Countdown, time: nat): Countdown {
    c.(running := true, start := Ticks(time))
  }

  /** The subtraction is a 32-bit one. */
  predicate Elapsed(c: Countdown, time: nat) {
    c.running && (Ticks(time) - c.start) % TWO_32 >= c.period
  }

  // ---------- Pieces of a step ----------

  function Emit(t: Trace, when: bool, e: Event): Trace {
    if when then Then(t, e) else t
  }

  function EmitIf(s: State, when: bool, e: Event): State {
    s.(trace := Emit(s.trace, when, e))
  }

  function PwmOff(s: State): State {
    s.(control := s.control.(pwm := false, allowed := false), session := s.session.(duty := 1.0))
  }

  function StartLockCheck(s: Session, time: nat): Session {
    s.(lockCheck := Started(s.lockCheck, time))
  }

  /** power_on. A relay that does not obey stays open. */
  function SwitchOn(s: State, i: Input): State {
    if s.hardware.relay then s
    else s.(
      trace := Then(s.trace, if i.closes then PowerOn else ErrorRelais),
      hardware := s.hardware.(rcdArmed := true, relay := i.closes, phases := if s.session.latch then 3 else 1, locked := true),
      session := StartLockCheck(s.session, i.lockStartTime))
  }

  /** power_off. A relay that does not obey stays closed. */
  function SwitchOff(s: State, i: Input): State {
    if !s.hardware.relay then s
    else s.(
      trace := Then(s.trace, if i.opens then PowerOff else ErrorRelais),
      hardware := s.hardware.(rcdArmed := false, relay := !i.opens, locked := false),
      session := StartLockCheck(s.session, i.lockStartTime))
  }

  predicate InRange(voltage: real, center: real) {
    center - 1.1 < voltage < center + 1.1
  }

  /** read_cp_state: the state that a stable signal means. A disabled controller stays so. */
  function ReadCp(cur: CPState, pwm: bool, cp: Signal): Option<CPState> {
    if !cp.valid then None
    else if cur == Disabled then Some(Disabled)
    else if pwm && !InRange(cp.low, -12.0) then
      if InRange(cp.low, 0.0) && InRange(cp.high, 0.0) then Some(E)
      else if InRange(cp.high + cp.low, 0.0) then Some(DF)
      else None
    else if InRange(cp.high, 12.0) then Some(A)
    else if InRange(cp.high, 9.0) then Some(B)
    else if InRange(cp.high, 6.0) then Some(C)
    else if InRange(cp.high, 3.0) then Some(D)
    else if InRange(cp.high, -12.0) then Some(F)
    else None
  }

  predicate Charging(p: CPState) {
    p == C || p == D
  }

  predicate Connected(p: CPState) {
    p == B || p == C || p == D
  }

  // ---------- The states ----------

  function InDisabled(s: State, i: Input): State {
    SwitchOff(s.(control := s.control.(allowed := false)), i)
  }

  function Idle(s: State): State {
    PwmOff(s.(session := s.session.(latch := s.session.threePhases, simplified := false, ventilatedCharging := false)))
  }

  /** Whether a vehicle that is seen gone in state A is reported as unplugged. */
  predicate Leaves(prev: CPState) {
    prev != A && prev != Disabled && prev != F
  }

  /** Unplugging resets the emergency switch where the country allows it. */
  function ResetFault(s: State): State {
    s.(hardware := s.hardware.(resets := s.hardware.resets + if s.session.reclosing then 1 else 0))
  }

  function InA(s: State, i: Input): State {
    var t := Idle(s);
    if Leaves(s.control.prev) then
      ResetFault(EmitIf(SwitchOff(EmitIf(t, true, CarRequestedStopPower), i), true, CarUnplugged))
    else t
  }

  function InB(s: State, i: Input): State {
    var prev := s.control.prev;
    var plugged := prev == A || prev == Disabled;
    var t := if prev != A && prev != B then SwitchOff(EmitIf(s, true, CarRequestedStopPower), i) else s;
    t.(session := t.session.(ventilatedCharging := false, simplified := t.session.simplified && !plugged),
      trace := Emit(Emit(t.trace, plugged, CarPluggedIn), prev == E || prev == F, EFToBCD))
  }

  /** The countdown restarts where the PWM is first seen stopped. */
  function StopCountdown(c: Control, i: Input): Countdown {
    if c.prevPwm then Started(c.pwmStop, i.pwmStartTime) else c.pwmStop
  }

  /** The PWM is stopped: off at the latest when the countdown elapses. */
  function StopLate(s: State, i: Input): State {
    var t := s.(control := s.control.(pwmStop := StopCountdown(s.control, i)));
    if Elapsed(t.control.pwmStop, i.pwmCheckTime) then SwitchOff(t, i) else t
  }

  function Arrive(s: State): State {
    var prev := s.control.prev;
    s.(session := s.session.(simplified := s.session.simplified || prev == A),
      trace := Emit(Emit(Emit(s.trace, prev == A, CarPluggedIn),
        prev == B || (prev == A && s.control.cur == D), CarRequestedPower), prev == E || prev == F, EFToBCD))
  }

  function InC(s: State, i: Input): State {
    var t := Arrive(s);
    if !t.control.pwm then StopLate(t, i)
    else if t.control.allowed then
      EmitIf(SwitchOn(t, i), !t.control.prevPwm && t.session.simplified, CarRequestedPower)
    else t
  }

  function InD(s: State, i: Input): State {
    var t := Arrive(s);
    var control := t.control;
    if !control.pwm then StopLate(t, i)
    else
      var u := if control.allowed && !t.hardware.relay then
          if control.ventilation then SwitchOn(t, i) else EmitIf(t, true, ErrorVentilationNotAvailable)
        else t;
      EmitIf(u, control.prev == C && !control.ventilation, ErrorVentilationNotAvailable)
  }

  function InE(s: State, i: Input): State {
    var prev := s.control.prev;
    PwmOff(SwitchOff(EmitIf(EmitIf(s, prev != E, ErrorE), Connected(prev), BCDToEF), i))
  }

  function InF(s: State, i: Input): State {
    EmitIf(SwitchOff(s, i), Connected(s.control.prev), BCDToEF)
  }

  function InDF(s: State, i: Input): State {
    var prev := s.control.prev;
    SwitchOff(EmitIf(EmitIf(s, prev != DF, ErrorDF), Connected(prev), BCDToEF), i)
  }

  function Process(s: State, i: Input): State {
    match s.control.cur
    case Disabled => InDisabled(s, i)
    case A => InA(s, i)
    case B => InB(s, i)
    case C => InC(s, i)
    case D => InD(s, i)
    case E => InE(s, i)
    case F => InF(s, i)
    case DF => InDF(s, i)
  }

  /** What run does before it looks at the signal. */
  function Checks(s: State, i: Input): State {
    var over := Elapsed(s.session.lockCheck, i.lockCheckTime);
    s.(
      trace := Emit(s.trace, i.rcdFired, ErrorRCD),
      hardware := if over then s.hardware.(locked := false) else s.hardware,
      session := if over then s.session.(lockCheck := s.session.lockCheck.(running := false)) else s.session)
  }

  function Finish(s: State): State {
    s.(control := s.control.(prev := s.control.cur, prevPwm := s.control.pwm))
  }

  function WithState(s: State, p: CPState): State {
    s.(control := s.control.(cur := p))
  }

  function RunStep(s: State, i: Input): State {
    match ReadCp(s.control.cur, s.control.pwm, i.signal)
    case None => Checks(s, i)
    case Some(p) => Finish(Process(WithState(Checks(s, i), p), i))
  }

  predicate NoReclosing(code: string) {
    code == "CH" || code == "DK" || code == "GB" || code == "FR"
  }

  function Act(s: State, a: Action): State {
    match a
    case Enable => PwmOff(WithState(s, CPState.A)).(hardware := s.hardware.(pilot := true))
    case Disable => PwmOff(WithState(s, Disabled)).(hardware := s.hardware.(pilot := false))
    case SetPwmOn(duty) => s.(control := s.control.(pwm := true), session := s.session.(duty := duty))
    case SetPwmOff => PwmOff(s)
    case SetPwmF => s.(
      control := s.control.(cur := CPState.F, pwm := false, allowed := false),
      session := s.session.(duty := 0.0))
    case AllowPowerOn(on) => s.(control := s.control.(allowed := on))
    case SetVentilation(on) => s.(control := s.control.(ventilation := on))
    case SetThreePhases(on) => s.(session := s.session.(threePhases := on))
    case SetCountryCode(code) => s.(session := s.session.(reclosing := !NoReclosing(code)))
    case Run(i) => RunStep(s, i)
  }

  // ---------- Runs ----------

  const PWM_STOP_IN_MS := 6000
  const LOCK_CHECK_IN_MS := 1000

  /** The period of a countdown, a 32-bit product. */
  function Period(ms: nat, ticksPerMs: u32): u32 {
    ms * ticksPerMs % TWO_32
  }

  /** After the constructor. The initial value of `simplified` is whatever memory held. */
  function Initial(ticksPerMs: u32, simplified: bool): State {
    State(
      Control(Disabled, Disabled, false, false, false, false, Countdown(Period(PWM_STOP_IN_MS, ticksPerMs), 0, false)),
      Session(false, true, true, true, simplified, 1.0, Countdown(Period(LOCK_CHECK_IN_MS, ticksPerMs), 0, false)),
      Hardware(false, 0, true, false, false, 0),
      Silence)
  }
}
