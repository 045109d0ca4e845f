/** With how many phases the power is on: never changed under load. */
module FsmPhases {
  import opened Fsm
  import opened FsmRuns
  import opened FsmSafety
  import opened FsmHistory
  import opened FsmEvents

  function Phases(three: bool): nat {
    if three then 3 else 1
  }

  lemma SwitchesPhases(s: State, i: Input)
    ensures SwitchOn(s, i).hardware.phases == if s.hardware.relay then s.hardware.phases else Phases(s.session.latch)
    ensures SwitchOff(s, i).hardware.phases == s.hardware.phases
  {
  }

  lemma ProcessPhases(s: State, i: Input)
    ensures Process(s, i).hardware.phases ==
      if !s.hardware.relay && Starts(s.control) then Phases(s.session.latch) else s.hardware.phases
  {
    match s.control.cur
    case Disabled =>
    case A => SwitchesPhases(EmitIf(Idle(s), true, CarRequestedStopPower), i);
    case B =>
    case C => SwitchesPhases(Arrive(s), i);
    case D => SwitchesPhases(Arrive(s), i);
    case E =>
    case F =>
    case DF =>
  }

  lemma StepPhases(s: State, a: Action)
    ensures Act(s, a).hardware.phases ==
      if Processes(s.control, a) && !s.hardware.relay && Starts(s.control.(cur := SeenBy(s.control, a))) then
        Phases(s.session.latch)
      else s.hardware.phases
  {
    if Processes(s.control, a) {
      ProcessPhases(WithState(Checks(s, a.input), SeenBy(s.control, a)), a.input);
    }
  }

  /** A relay that closes in a step was open and had power to be switched on. */
  lemma ClosingStarts(p: Power, c: Control, a: Action)
    requires !p.relay && PowerAfter(p, c, a).relay
    ensures Processes(c, a) && Starts(c.(cur := SeenBy(c, a)))
  {
  }

  /** While the relay is closed, the power has the phases that were chosen when a vehicle was
      last seen gone: another choice waits for the next vehicle. */
  lemma {:induction false} PhasesStay(ss: seq<State>, actions: seq<Action>, n: nat)
    requires IsRun(ss, actions) && n <= |actions|
    requires ss[n].hardware.relay && !Log(ss[n].trace).refusedOff
    ensures ss[n].hardware.phases == if Latched(ss, actions, n) then 3 else 1
    decreases n
  {
    if n > 0 {
      var s, a := ss[n - 1], actions[n - 1];
      LatchIsHistory(ss, actions, n);
      LatchIsHistory(ss, actions, n - 1);
      RefusalStays(ss, actions, n - 1, n);
      RelayInvariant(ss, actions, n);
      Refines(ss, actions, n - 1);
      assert Follows(ss, actions, n - 1);
      StepLatches(s, a);
      StepPhases(s, a);
      if s.hardware.relay {
        PhasesStay(ss, actions, n - 1);
      } else {
        ClosingStarts(PowerOf(s), s.control, a);
      }
    }
  }
}
