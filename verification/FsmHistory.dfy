/** The outputs and modes of the charging state machine as functions of its history: of the
    commands given and the states seen so far. */
module FsmHistory {
  import opened Words
  import opened Fsm
  import opened FsmRuns
  import opened FsmSafety

  /** A run step with a stable signal that means p. */
  predicate Sees(c: Control, a: Action, p: CPState) {
    Processes(c, a) && SeenBy(c, a) == p
  }

  // ---------- What commands alone decide ----------

  /** Enabled, and driving F, last; or else disabled, as at the start. */
  predicate Enabled(actions: seq<Action>, n: nat)
    requires n <= |actions|
  {
    n > 0 &&
    match actions[n - 1]
    case Enable => true
    case SetPwmF => true
    case Disable => false
    case _ => Enabled(actions, n - 1)
  }

  /** The pilot is on from Enable to Disable. */
  predicate PilotOn(actions: seq<Action>, n: nat)
    requires n <= |actions|
  {
    n > 0 &&
    match actions[n - 1]
    case Enable => true
    case Disable => false
    case _ => PilotOn(actions, n - 1)
  }

  /** The ventilation last set, without it none. */
  predicate Ventilated(actions: seq<Action>, n: nat)
    requires n <= |actions|
  {
    n > 0 &&
    match actions[n - 1]
    case SetVentilation(on) => on
    case _ => Ventilated(actions, n - 1)
  }

  /** The phases last chosen, three without a choice. */
  predicate ThreePhases(actions: seq<Action>, n: nat)
    requires n <= |actions|
  {
    n == 0 ||
    match actions[n - 1]
    case SetThreePhases(on) => on
    case _ => ThreePhases(actions, n - 1)
  }

  // ---------- What the states seen decide as well ----------

  /** The last state seen; before any, Disabled. */
  function LastSeen(ss: seq<State>, actions: seq<Action>, n: nat): CPState
    requires n <= |actions| < |ss|
  {
    if n == 0 then Disabled
    else if Processes(ss[n - 1].control, actions[n - 1]) then SeenBy(ss[n - 1].control, actions[n - 1])
    else LastSeen(ss, actions, n - 1)
  }

  /** The state reported: the last one seen, unless a command has set one since. */
  function Current(ss: seq<State>, actions: seq<Action>, n: nat): CPState
    requires n <= |actions| < |ss|
  {
    if n == 0 then Disabled
    else match actions[n - 1]
      case Enable => CPState.A
      case Disable => Disabled
      case SetPwmF => CPState.F
      case Run(_) =>
        if Processes(ss[n - 1].control, actions[n - 1]) then SeenBy(ss[n - 1].control, actions[n - 1])
        else Current(ss, actions, n - 1)
      case _ => Current(ss, actions, n - 1)
  }

  /** Whether the last step with a stable signal found the PWM running and left it so. */
  predicate PwmSeen(ss: seq<State>, actions: seq<Action>, n: nat)
    requires n <= |actions| < |ss|
  {
    n > 0 && var c, a := ss[n - 1].control, actions[n - 1];
    if Processes(c, a) then LivePwm(ss, actions, n - 1) && SeenBy(c, a) != A && SeenBy(c, a) != E
    else PwmSeen(ss, actions, n - 1)
  }

  /** Simplified mode begins where a vehicle is seen in C or D right after A, and ends where it
      is seen in A, or in B right after A or Disabled. At first it is what memory held. */
  predicate SimplifiedMode(ss: seq<State>, actions: seq<Action>, n: nat, initially: bool)
    requires n <= |actions| < |ss|
  {
    if n == 0 then initially
    else
      var c, a, before := ss[n - 1].control, actions[n - 1], LastSeen(ss, actions, n - 1);
      if Sees(c, a, A) || (Sees(c, a, B) && before in {A, Disabled}) then false
      else if (Sees(c, a, C) || Sees(c, a, D)) && before == A then true
      else SimplifiedMode(ss, actions, n - 1, initially)
  }

  /** The phases chosen when a vehicle was last seen absent; three before that. */
  predicate Latched(ss: seq<State>, actions: seq<Action>, n: nat)
    requires n <= |actions| < |ss|
  {
    n == 0 ||
    if Sees(ss[n - 1].control, actions[n - 1], A) then ThreePhases(actions, n - 1) else Latched(ss, actions, n - 1)
  }

  /** The duty cycle driven: the one last switched on, unless the PWM was switched off since,
      which drives 1.0 as at the start, or to F, which drives 0.0. */
  function Duty(ss: seq<State>, actions: seq<Action>, n: nat): real
    requires n <= |actions| < |ss|
  {
    if n == 0 then 1.0
    else match actions[n - 1]
      case SetPwmOn(duty) => duty
      case SetPwmF => 0.0
      case SetPwmOff => 1.0
      case Enable => 1.0
      case Disable => 1.0
      case Run(_) =>
        if Sees(ss[n - 1].control, actions[n - 1], A) || Sees(ss[n - 1].control, actions[n - 1], E) then 1.0
        else Duty(ss, actions, n - 1)
      case _ => Duty(ss, actions, n - 1)
  }

  // ---------- The fields are these functions ----------

  lemma {:induction false} EnabledIsHistory(ss: seq<State>, actions: seq<Action>, n: nat)
    requires IsRun(ss, actions) && n <= |actions|
    ensures ss[n].control.cur != Disabled <==> Enabled(actions, n)
    decreases n
  {
    if n > 0 {
      EnabledIsHistory(ss, actions, n - 1);
      Refines(ss, actions, n - 1);
    }
  }

  lemma {:induction false} VentilationIsHistory(ss: seq<State>, actions: seq<Action>, n: nat)
    requires IsRun(ss, actions) && n <= |actions|
    ensures ss[n].control.ventilation <==> Ventilated(actions, n)
    decreases n
  {
    if n > 0 {
      VentilationIsHistory(ss, actions, n - 1);
      Refines(ss, actions, n - 1);
    }
  }

  lemma {:induction false} LastSeenIsHistory(ss: seq<State>, actions: seq<Action>, n: nat)
    requires IsRun(ss, actions) && n <= |actions|
    ensures ss[n].control.prev == LastSeen(ss, actions, n)
    decreases n
  {
    if n > 0 {
      LastSeenIsHistory(ss, actions, n - 1);
      Refines(ss, actions, n - 1);
    }
  }

  lemma CurrentStep(c: Control, a: Action)
    ensures ControlAfter(c, a).cur ==
      match a
      case Enable => CPState.A
      case Disable => Disabled
      case SetPwmF => CPState.F
      case Run(_) => if Processes(c, a) then SeenBy(c, a) else c.cur
      case _ => c.cur
  {
  }

  lemma {:induction false} CurrentIsHistory(ss: seq<State>, actions: seq<Action>, n: nat)
    requires IsRun(ss, actions) && n <= |actions|
    ensures ss[n].control.cur == Current(ss, actions, n)
    decreases n
  {
    if n > 0 {
      CurrentIsHistory(ss, actions, n - 1);
      Refines(ss, actions, n - 1);
      CurrentStep(ss[n - 1].control, actions[n - 1]);
    }
  }

  lemma {:induction false} PwmSeenIsHistory(ss: seq<State>, actions: seq<Action>, n: nat)
    requires IsRun(ss, actions) && n <= |actions|
    ensures ss[n].control.prevPwm <==> PwmSeen(ss, actions, n)
    decreases n
  {
    if n > 0 {
      PwmSeenIsHistory(ss, actions, n - 1);
      PwmIsHistory(ss, actions, n - 1);
      Refines(ss, actions, n - 1);
    }
  }

  lemma SwitchesKeepModes(s: State, i: Input)
    ensures SwitchOn(s, i).session == s.session.(lockCheck := SwitchOn(s, i).session.lockCheck)
    ensures SwitchOff(s, i).session == s.session.(lockCheck := SwitchOff(s, i).session.lockCheck)
    ensures SwitchOn(s, i).hardware.pilot == SwitchOff(s, i).hardware.pilot == s.hardware.pilot
  {
  }

  // ---------- Pilot and phases ----------

  datatype Wiring = Wiring(pilot: bool, threePhases: bool)

  function WiringOf(s: State): Wiring {
    Wiring(s.hardware.pilot, s.session.threePhases)
  }

  lemma ProcessKeepsWiring(s: State, i: Input)
    ensures WiringOf(Process(s, i)) == WiringOf(s)
  {
    match s.control.cur
    case Disabled =>
    case A => SwitchesKeepModes(EmitIf(Idle(s), true, CarRequestedStopPower), i);
    case B =>
    case C =>
    case D =>
    case E =>
    case F =>
    case DF =>
  }

  lemma StepWires(s: State, a: Action)
    ensures WiringOf(Act(s, a)) ==
      match a
      case Enable => WiringOf(s).(pilot := true)
      case Disable => WiringOf(s).(pilot := false)
      case SetThreePhases(on) => WiringOf(s).(threePhases := on)
      case _ => WiringOf(s)
  {
    if Processes(s.control, a) {
      ProcessKeepsWiring(WithState(Checks(s, a.input), SeenBy(s.control, a)), a.input);
    }
  }

  lemma {:induction false} WiringIsHistory(ss: seq<State>, actions: seq<Action>, n: nat)
    requires IsRun(ss, actions) && n <= |actions|
    ensures ss[n].hardware.pilot <==> PilotOn(actions, n)
    ensures ss[n].session.threePhases <==> ThreePhases(actions, n)
    decreases n
  {
    if n > 0 {
      WiringIsHistory(ss, actions, n - 1);
      assert Follows(ss, actions, n - 1);
      StepWires(ss[n - 1], actions[n - 1]);
    }
  }

  // ---------- Simplified mode ----------

  lemma ProcessSimplifies(s: State, i: Input)
    ensures var seen, before := s.control.cur, s.control.prev;
      Process(s, i).session.simplified <==>
        if seen == A || (seen == B && before in {A, Disabled}) then false
        else s.session.simplified || (Charging(seen) && before == A)
  {
    match s.control.cur
    case Disabled =>
    case A => SwitchesKeepModes(EmitIf(Idle(s), true, CarRequestedStopPower), i);
    case B =>
    case C =>
    case D =>
    case E =>
    case F =>
    case DF =>
  }

  lemma StepSimplifies(s: State, a: Action)
    ensures var c, before := s.control, s.control.prev;
      Act(s, a).session.simplified <==>
        if Sees(c, a, A) || (Sees(c, a, B) && before in {A, Disabled}) then false
        else s.session.simplified || ((Sees(c, a, C) || Sees(c, a, D)) && before == A)
  {
    if Processes(s.control, a) {
      ProcessSimplifies(WithState(Checks(s, a.input), SeenBy(s.control, a)), a.input);
    }
  }

  lemma {:induction false} SimplifiedIsHistory(ss: seq<State>, actions: seq<Action>, n: nat)
    requires IsRun(ss, actions) && n <= |actions|
    ensures ss[n].session.simplified <==> SimplifiedMode(ss, actions, n, ss[0].session.simplified)
    decreases n
  {
    if n > 0 {
      SimplifiedIsHistory(ss, actions, n - 1);
      LastSeenIsHistory(ss, actions, n - 1);
      assert Follows(ss, actions, n - 1);
      StepSimplifies(ss[n - 1], actions[n - 1]);
    }
  }

  // ---------- Phases and ventilated charging ----------

  lemma ProcessLatches(s: State, i: Input)
    ensures Process(s, i).session.latch == if s.control.cur == A then s.session.threePhases else s.session.latch
  {
    match s.control.cur
    case Disabled =>
    case A => SwitchesKeepModes(EmitIf(Idle(s), true, CarRequestedStopPower), i);
    case B =>
    case C =>
    case D =>
    case E =>
    case F =>
    case DF =>
  }

  lemma StepLatches(s: State, a: Action)
    ensures Act(s, a).session.latch == if Sees(s.control, a, A) then s.session.threePhases else s.session.latch
  {
    if Processes(s.control, a) {
      ProcessLatches(WithState(Checks(s, a.input), SeenBy(s.control, a)), a.input);
    }
  }

  /** The relay switches the phases that were chosen when the last vehicle was seen gone. */
  lemma {:induction false} LatchIsHistory(ss: seq<State>, actions: seq<Action>, n: nat)
    requires IsRun(ss, actions) && n <= |actions|
    ensures ss[n].session.latch <==> Latched(ss, actions, n)
    decreases n
  {
    if n > 0 {
      LatchIsHistory(ss, actions, n - 1);
      WiringIsHistory(ss, actions, n - 1);
      assert Follows(ss, actions, n - 1);
      StepLatches(ss[n - 1], actions[n - 1]);
    }
  }

  lemma ProcessVentilates(s: State, i: Input)
    ensures Process(s, i).session.ventilatedCharging <==>
      s.session.ventilatedCharging && s.control.cur != A && s.control.cur != B
  {
    match s.control.cur
    case Disabled =>
    case A => SwitchesKeepModes(EmitIf(Idle(s), true, CarRequestedStopPower), i);
    case B =>
    case C =>
    case D =>
    case E =>
    case F =>
    case DF =>
  }

  lemma StepVentilates(s: State, a: Action)
    ensures Act(s, a).session.ventilatedCharging <==>
      s.session.ventilatedCharging && !Sees(s.control, a, A) && !Sees(s.control, a, B)
  {
    if Processes(s.control, a) {
      ProcessVentilates(WithState(Checks(s, a.input), SeenBy(s.control, a)), a.input);
    }
  }

  /** Ventilated charging is reported until A or B is first seen, and never again: nothing sets
      it, whatever the states and the ventilation. */
  lemma {:induction false} VentilatedChargingEnds(ss: seq<State>, actions: seq<Action>, n: nat)
    requires IsRun(ss, actions) && n <= |actions|
    ensures ss[n].session.ventilatedCharging <==>
      forall k {:trigger ss[k]} :: 0 <= k < n ==> !Sees(ss[k].control, actions[k], A) && !Sees(ss[k].control, actions[k], B)
    decreases n
  {
    if n > 0 {
      VentilatedChargingEnds(ss, actions, n - 1);
      assert Follows(ss, actions, n - 1);
      StepVentilates(ss[n - 1], actions[n - 1]);
    }
  }

  // ---------- Duty cycle ----------

  lemma ProcessDrives(s: State, i: Input)
    ensures Process(s, i).session.duty == if s.control.cur == A || s.control.cur == E then 1.0 else s.session.duty
  {
    match s.control.cur
    case Disabled =>
    case A => SwitchesKeepModes(EmitIf(Idle(s), true, CarRequestedStopPower), i);
    case B =>
    case C =>
    case D =>
    case E =>
    case F =>
    case DF =>
  }

  lemma StepDrives(s: State, a: Action)
    ensures Act(s, a).session.duty ==
      match a
      case SetPwmOn(duty) => duty
      case SetPwmF => 0.0
      case SetPwmOff => 1.0
      case Enable => 1.0
      case Disable => 1.0
      case Run(_) => if Sees(s.control, a, A) || Sees(s.control, a, E) then 1.0 else s.session.duty
      case _ => s.session.duty
  {
    if Processes(s.control, a) {
      ProcessDrives(WithState(Checks(s, a.input), SeenBy(s.control, a)), a.input);
    }
  }

  lemma {:induction false} DutyIsHistory(ss: seq<State>, actions: seq<Action>, n: nat)
    requires IsRun(ss, actions) && n <= |actions|
    ensures ss[n].session.duty == Duty(ss, actions, n)
    decreases n
  {
    if n > 0 {
      DutyIsHistory(ss, actions, n - 1);
      assert Follows(ss, actions, n - 1);
      StepDrives(ss[n - 1], actions[n - 1]);
    }
  }

  /** The PWM counts as running only while the duty cycle driven is one that was switched on. */
  lemma {:induction false} RunningDrives(ss: seq<State>, actions: seq<Action>, n: nat) returns (g: nat)
    requires IsRun(ss, actions) && n <= |actions| && ss[n].control.pwm
    ensures g < n && actions[g] == SetPwmOn(ss[n].session.duty)
    decreases n
  {
    if n > 0 {
      Refines(ss, actions, n - 1);
      DutyIsHistory(ss, actions, n);
      if actions[n - 1].SetPwmOn? {
        g := n - 1;
      } else {
        DutyIsHistory(ss, actions, n - 1);
        g := RunningDrives(ss, actions, n - 1);
      }
    }
  }
}
