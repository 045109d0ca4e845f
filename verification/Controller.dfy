/** The FSM object: commands and run steps that update its fields in place. Every method leaves
    exactly the state that the state machine's function prescribes. */
module Controller {
  import opened Words
  import opened Fsm
  import opened FsmRuns
  import opened FsmSafety
  import opened FsmEvents

  /** A countdown on the 32-bit tick counter. */
  class Timer {
    const period: u32
    var ticksAtStart: u32
    var running: bool

    function Value(): Countdown
      reads this
    {
      Countdown(period, ticksAtStart, running)
    }

    constructor (period: u32)
      ensures Value() == Countdown(period, 0, false)
    {
      this.period, ticksAtStart, running := period, 0, false;
    }

    method Start(time: nat)
      modifies this
      ensures Value() == Started(old(Value()), time)
    {
      running := true;
      ticksAtStart := Ticks(time);
    }

    method Stop()
      modifies this
      ensures Value() == old(Value()).(running := false)
    {
      running := false;
    }

    method HasElapsed(time: nat) returns (elapsed: bool)
      ensures elapsed <==> Elapsed(Value(), time)
    {
      if !running {
        return false;
      }
      var ticksNow := Ticks(time);
      elapsed := (ticksNow - ticksAtStart) % TWO_32 >= period;
    }
  }

  class FsmController {
    var curState: CPState
    var prevState: CPState
    var powerOnAllowed: bool
    var rcdReclosingAllowed: bool
    var useThreePhases: bool
    var useThreePhasesLatch: bool
    var hasVentilation: bool
    var ventilatedChargingActive: bool
    var simplifiedMode: bool
    var pwmDutyCycle: real
    var curPwmRunning: bool
    var prevPwmRunning: bool
    const pwmStopCountdown: Timer
    const lockCheckCountdown: Timer

    // What the hardware abstraction was last told, and the events pushed to the callback.
    var relayOn: bool
    var phases: nat
    var rcdEnabled: bool
    var connectorLocked: bool
    var pilotEnabled: bool
    var emergencyResets: nat
    var events: Trace

    ghost predicate Valid() {
      pwmStopCountdown != lockCheckCountdown
    }

    ghost function St(): State
      reads this, pwmStopCountdown, lockCheckCountdown
    {
      State(
        Control(curState, prevState, curPwmRunning, prevPwmRunning, powerOnAllowed, hasVentilation, pwmStopCountdown.Value()),
        Session(rcdReclosingAllowed, useThreePhases, useThreePhasesLatch, ventilatedChargingActive, simplifiedMode,
          pwmDutyCycle, lockCheckCountdown.Value()),
        Hardware(relayOn, phases, rcdEnabled, connectorLocked, pilotEnabled, emergencyResets),
        events)
    }

    constructor (ticksPerMs: u32, simplified: bool)
      ensures Valid() && fresh(pwmStopCountdown) && fresh(lockCheckCountdown)
      ensures St() == Initial(ticksPerMs, simplified)
    {
      curState, prevState := CPState.Disabled, CPState.Disabled;
      powerOnAllowed, rcdReclosingAllowed, useThreePhases, useThreePhasesLatch := false, false, true, true;
      hasVentilation, ventilatedChargingActive, simplifiedMode := false, true, simplified;
      pwmDutyCycle, curPwmRunning, prevPwmRunning := 0.0, false, false;
      pwmStopCountdown := new Timer(Period(PWM_STOP_IN_MS, ticksPerMs));
      lockCheckCountdown := new Timer(Period(LOCK_CHECK_IN_MS, ticksPerMs));
      relayOn, phases, rcdEnabled, connectorLocked, pilotEnabled := false, 0, false, false, false;
      emergencyResets, events := 0, Silence;
      new;
      DisableControl();
      rcdEnabled := true;
    }

    method PushEvent(e: Event)
      modifies this`events
      ensures events == Then(old(events), e)
    {
      events := Then(events, e);
    }

    // ---------- Commands ----------

    method SetPwmOffNow()
      modifies this
      ensures St() == PwmOff(old(St()))
    {
      pwmDutyCycle := 1.0;
      curPwmRunning := false;
      powerOnAllowed := false;
    }

    method StartPwm(dutyCycle: real)
      modifies this
      ensures St() == Act(old(St()), SetPwmOn(dutyCycle))
    {
      pwmDutyCycle := dutyCycle;
      curPwmRunning := true;
    }

    method SetPwmFault()
      modifies this
      ensures St() == Act(old(St()), SetPwmF)
    {
      pwmDutyCycle := 0.0;
      curState := CPState.F;
      curPwmRunning := false;
      powerOnAllowed := false;
    }

    method EnableControl()
      modifies this
      ensures St() == Act(old(St()), Enable)
    {
      curState := CPState.A;
      SetPwmOffNow();
      pilotEnabled := true;
    }

    method DisableControl()
      modifies this
      ensures St() == Act(old(St()), Disable)
    {
      curState := CPState.Disabled;
      SetPwmOffNow();
      pilotEnabled := false;
    }

    method SetPermission(enable: bool)
      modifies this
      ensures St() == Act(old(St()), AllowPowerOn(enable))
    {
      powerOnAllowed := enable;
    }

    method ConfigureVentilation(enable: bool)
      modifies this
      ensures St() == Act(old(St()), SetVentilation(enable))
    {
      hasVentilation := enable;
    }

    method ConfigureThreePhases(enable: bool)
      modifies this
      ensures St() == Act(old(St()), SetThreePhases(enable))
    {
      useThreePhases := enable;
    }

    method ConfigureCountry(code: string)
      modifies this
      ensures St() == Act(old(St()), SetCountryCode(code))
    {
      if code == "CH" || code == "DK" || code == "GB" || code == "FR" {
        rcdReclosingAllowed := false;
      } else {
        rcdReclosingAllowed := true;
      }
    }

    // ---------- Power ----------

    /** The relay and the RCD of power_on. */
    method CloseRelay(closes: bool) returns (success: bool)
      modifies this`relayOn, this`phases, this`rcdEnabled, this`events
      ensures success == relayOn == closes && rcdEnabled && phases == if useThreePhasesLatch then 3 else 1
      ensures events == Then(old(events), if closes then PowerOn else ErrorRelais)
    {
      rcdEnabled := false;
      relayOn := closes;
      phases := if useThreePhasesLatch then 3 else 1;
      success := relayOn;
      PushEvent(if success then PowerOn else ErrorRelais);
      rcdEnabled := true;
    }

    /** The RCD and the relay of power_off. */
    method OpenRelay(opens: bool) returns (success: bool)
      modifies this`relayOn, this`rcdEnabled, this`events
      ensures success == opens == !relayOn && !rcdEnabled
      ensures events == Then(old(events), if opens then PowerOff else ErrorRelais)
    {
      rcdEnabled := false;
      relayOn := !opens;
      success := !relayOn;
      PushEvent(if success then PowerOff else ErrorRelais);
    }

    method PowerUp(i: Input) returns (success: bool)
      requires Valid()
      modifies this, lockCheckCountdown
      ensures St() == SwitchOn(old(St()), i) && success == relayOn
    {
      if relayOn {
        return true;
      }
      success := CloseRelay(i.closes);
      connectorLocked := true;
      lockCheckCountdown.Start(i.lockStartTime);
    }

    method PowerDown(i: Input) returns (success: bool)
      requires Valid()
      modifies this, lockCheckCountdown
      ensures St() == SwitchOff(old(St()), i) && success == !relayOn
    {
      if !relayOn {
        return true;
      }
      success := OpenRelay(i.opens);
      connectorLocked := false;
      lockCheckCountdown.Start(i.lockStartTime);
    }

    // ---------- Run ----------

    /** read_cp_state: the state that the voltages mean. */
    method ReadCpState(cp: Signal) returns (stable: bool)
      modifies this`curState
      ensures stable <==> ReadCp(old(curState), curPwmRunning, cp).Some?
      ensures curState == if stable then ReadCp(old(curState), curPwmRunning, cp).value else old(curState)
      ensures cp.valid && old(curState) == CPState.Disabled ==> stable && curState == CPState.Disabled
      ensures cp.valid && old(curState) != CPState.Disabled ==>
        if curPwmRunning && !(-13.1 < cp.low < -10.9) then
          && (stable && curState == CPState.E <==> -1.1 < cp.low < 1.1 && -1.1 < cp.high < 1.1)
          && (stable <==> (-1.1 < cp.low < 1.1 && -1.1 < cp.high < 1.1) || -1.1 < cp.high + cp.low < 1.1)
          && (stable ==> curState == CPState.E || curState == CPState.DF)
        else
          && (stable && curState == CPState.A <==> 10.9 < cp.high < 13.1)
          && (stable && curState == CPState.B <==> 7.9 < cp.high < 10.1)
          && (stable && curState == CPState.C <==> 4.9 < cp.high < 7.1)
          && (stable && curState == CPState.D <==> 1.9 < cp.high < 4.1)
          && (stable && curState == CPState.F <==> -13.1 < cp.high < -10.9)
          && (stable ==> curState in {CPState.A, CPState.B, CPState.C, CPState.D, CPState.F})
    {
      if !cp.valid {
        return false;
      }
      if curState == CPState.Disabled {
        return true;
      }
      if curPwmRunning && !InRange(cp.low, -12.0) {
        if InRange(cp.low, 0.0) && InRange(cp.high, 0.0) {
          curState := CPState.E;
        } else if InRange(cp.high + cp.low, 0.0) {
          curState := CPState.DF;
        } else {
          return false;
        }
      } else if InRange(cp.high, 12.0) {
        curState := CPState.A;
      } else if InRange(cp.high, 9.0) {
        curState := CPState.B;
      } else if InRange(cp.high, 6.0) {
        curState := CPState.C;
      } else if InRange(cp.high, 3.0) {
        curState := CPState.D;
      } else if InRange(cp.high, -12.0) {
        curState := CPState.F;
      } else {
        return false;
      }
      stable := true;
    }

    /** read_cp_state as run uses it. */
    method UpdateState(cp: Signal) returns (stable: bool)
      modifies this`curState
      ensures stable <==> ReadCp(old(curState), curPwmRunning, cp).Some?
      ensures curState == if stable then ReadCp(old(curState), curPwmRunning, cp).value else old(curState)
    {
      stable := ReadCpState(cp);
    }

    /** What state A resets. */
    method ResetSession()
      modifies this
      ensures St() == Idle(old(St()))
    {
      useThreePhasesLatch := useThreePhases;
      SetPwmOffNow();
      simplifiedMode := false;
      ventilatedChargingActive := false;
    }

    method HandleA(i: Input)
      requires Valid() && curState == CPState.A
      modifies this, lockCheckCountdown
      ensures St() == InA(old(St()), i)
    {
      ResetSession();
      if prevState != CPState.A && prevState != CPState.Disabled && prevState != CPState.F {
        PushEvent(CarRequestedStopPower);
        var ok := PowerDown(i);
        PushEvent(CarUnplugged);
        if rcdReclosingAllowed {
          emergencyResets := emergencyResets + 1;
        }
      }
    }

    method HandleB(i: Input)
      requires Valid() && curState == CPState.B
      modifies this, lockCheckCountdown
      ensures St() == InB(old(St()), i)
    {
      if prevState != CPState.A && prevState != CPState.B {
        PushEvent(CarRequestedStopPower);
        var ok := PowerDown(i);
      }
      ventilatedChargingActive := false;
      if prevState == CPState.A || prevState == CPState.Disabled {
        PushEvent(CarPluggedIn);
        simplifiedMode := false;
      }
      if prevState == CPState.E || prevState == CPState.F {
        PushEvent(EFToBCD);
      }
    }

    /** The branch of C and D in which the PWM is stopped. */
    method StopInTime(i: Input)
      requires Valid()
      modifies this, pwmStopCountdown, lockCheckCountdown
      ensures St() == StopLate(old(St()), i)
    {
      if prevPwmRunning {
        pwmStopCountdown.Start(i.pwmStartTime);
      }
      var late := pwmStopCountdown.HasElapsed(i.pwmCheckTime);
      if late {
        var ok := PowerDown(i);
      }
    }

    method AnnounceArrival()
      requires curState == CPState.C || curState == CPState.D
      modifies this
      ensures St() == Arrive(old(St()))
    {
      if prevState == CPState.A {
        PushEvent(CarPluggedIn);
        if curState == CPState.D {
          PushEvent(CarRequestedPower);
        }
        simplifiedMode := true;
      }
      if prevState == CPState.B {
        PushEvent(CarRequestedPower);
      }
      if prevState == CPState.E || prevState == CPState.F {
        PushEvent(EFToBCD);
      }
    }

    method HandleC(i: Input)
      requires Valid() && curState == CPState.C
      modifies this, pwmStopCountdown, lockCheckCountdown
      ensures St() == InC(old(St()), i)
    {
      AnnounceArrival();
      if !curPwmRunning {
        StopInTime(i);
      } else if powerOnAllowed {
        var ok := PowerUp(i);
        if !prevPwmRunning && simplifiedMode {
          PushEvent(CarRequestedPower);
        }
      }
    }

    method HandleD(i: Input)
      requires Valid() && curState == CPState.D
      modifies this, pwmStopCountdown, lockCheckCountdown
      ensures St() == InD(old(St()), i)
    {
      AnnounceArrival();
      if !curPwmRunning {
        StopInTime(i);
      } else {
        if powerOnAllowed && !relayOn {
          if !hasVentilation {
            PushEvent(ErrorVentilationNotAvailable);
          } else {
            var ok := PowerUp(i);
          }
        }
        if prevState == CPState.C {
          if !hasVentilation {
            PushEvent(ErrorVentilationNotAvailable);
          }
        }
      }
    }

    method HandleFault(i: Input)
      requires Valid() && (curState == CPState.E || curState == CPState.F || curState == CPState.DF)
      modifies this, lockCheckCountdown
      ensures St() == Process(old(St()), i)
    {
      if curState == CPState.E {
        if prevState != curState {
          PushEvent(ErrorE);
        }
        if Connected(prevState) {
          PushEvent(BCDToEF);
        }
        var ok := PowerDown(i);
        SetPwmOffNow();
      } else if curState == CPState.F {
        var ok := PowerDown(i);
        if Connected(prevState) {
          PushEvent(BCDToEF);
        }
      } else {
        if prevState != curState {
          PushEvent(ErrorDF);
        }
        if Connected(prevState) {
          PushEvent(BCDToEF);
        }
        var ok := PowerDown(i);
      }
    }

    method HandleState(i: Input)
      requires Valid()
      modifies this, pwmStopCountdown, lockCheckCountdown
      ensures St() == Process(old(St()), i)
      ensures forall e: Event :: Emits(old(St()), St(), i, e)
    {
      forall e: Event
        ensures Emits(St(), Process(St(), i), i, e)
      {
        ProcessEmits(St(), i, e);
      }
      match curState
      case Disabled =>
        powerOnAllowed := false;
        var ok := PowerDown(i);
      case A => HandleA(i);
      case B => HandleB(i);
      case C => HandleC(i);
      case D => HandleD(i);
      case _ => HandleFault(i);
    }

    /** The part of run before the signal is read. */
    method CheckRcdAndLock(i: Input)
      requires Valid()
      modifies this, lockCheckCountdown
      ensures St() == Checks(old(St()), i)
    {
      if i.rcdFired {
        PushEvent(ErrorRCD);
      }
      var over := lockCheckCountdown.HasElapsed(i.lockCheckTime);
      if over {
        connectorLocked := false;
        lockCheckCountdown.Stop();
      }
    }

    /** run. */
    method RunOnce(i: Input)
      requires Valid()
      modifies this, pwmStopCountdown, lockCheckCountdown
      ensures St() == Act(old(St()), Run(i))
    {
      CheckRcdAndLock(i);
      ProcessSignal(i);
    }

    /** The rest of run. */
    method ProcessSignal(i: Input)
      requires Valid()
      modifies this, pwmStopCountdown, lockCheckCountdown
      ensures St() ==
        match ReadCp(old(curState), old(curPwmRunning), i.signal)
        case None => old(St())
        case Some(p) => Finish(Process(WithState(old(St()), p), i))
    {
      var stable := UpdateState(i.signal);
      if stable {
        HandleState(i);
        Remember();
      }
    }

    /** The end of a processed step. */
    method Remember()
      modifies this
      ensures St() == Finish(old(St()))
    {
      prevState := curState;
      prevPwmRunning := curPwmRunning;
    }

    /** A command or a run step, as the main loop gives them. */
    method Perform(a: Action)
      requires Valid()
      modifies this, pwmStopCountdown, lockCheckCountdown
      ensures St() == Act(old(St()), a)
    {
      match a
      case Enable => EnableControl();
      case Disable => DisableControl();
      case SetPwmOn(duty) => StartPwm(duty);
      case SetPwmOff => SetPwmOffNow();
      case SetPwmF => SetPwmFault();
      case AllowPowerOn(on) => SetPermission(on);
      case SetVentilation(on) => ConfigureVentilation(on);
      case SetThreePhases(on) => ConfigureThreePhases(on);
      case SetCountryCode(code) => ConfigureCountry(code);
      case Run(i) => RunOnce(i);
    }
  }

  /** The main loop over any sequence of commands and run steps. The object goes through a run
      of the machine, so whatever holds over all runs holds of it: its events agree with the
      relay, and a closed relay means C or D with the RCD armed. */
  method Drive(ticksPerMs: u32, simplified: bool, actions: seq<Action>) returns (f: FsmController, ghost ss: seq<State>)
    ensures f.Valid() && IsRun(ss, actions) && ss[0] == Initial(ticksPerMs, simplified) && f.St() == ss[|actions|]
    ensures Log(f.events).alternates && Log(f.events).closed == f.relayOn
    ensures f.relayOn && !Log(f.events).refusedOff ==> Charging(f.prevState) && f.rcdEnabled
  {
    f := new FsmController(ticksPerMs, simplified);
    ss := [f.St()];
    for n := 0 to |actions|
      invariant f.Valid() && fresh(f) && fresh(f.pwmStopCountdown) && fresh(f.lockCheckCountdown)
      invariant IsRun(ss, actions[..n]) && ss[0] == Initial(ticksPerMs, simplified) && f.St() == ss[n]
    {
      f.Perform(actions[n]);
      ss := ExtendRun(ss, actions[..n], actions[n], f.St());
      assert actions[..n + 1] == actions[..n] + [actions[n]];
    }
    assert actions[..|actions|] == actions;
    TraceTellsRelay(ss, actions, |actions|);
    RelayInvariant(ss, actions, |actions|);
  }
}
