/** Plug events on the part of a run in which no fault and no disabling is seen. */
module FsmPlug {
  import opened Fsm
  import opened FsmRuns
  import opened FsmSafety

  /** Whether the last plug event is CarPluggedIn; whether CarPluggedIn came only while no
      vehicle was plugged in, and everything else, but for RCD faults, only while one was; and
      how many plug events there were of each kind. */
  datatype PlugLog = PlugLog(plugged: bool, ordered: bool, ins: nat, outs: nat)

  const NO_PLUGS := PlugLog(false, true, 0, 0)

  function NotePlug(log: PlugLog, e: Event): PlugLog {
    match e
    case CarPluggedIn => PlugLog(true, log.ordered && !log.plugged, log.ins + 1, log.outs)
    case CarUnplugged => PlugLog(false, log.ordered && log.plugged, log.ins, log.outs + 1)
    case ErrorRCD => log
    case _ => log.(ordered := log.ordered && log.plugged)
  }

  function Length(t: Trace): nat {
    match t
    case Silence => 0
    case Then(before, _) => Length(before) + 1
  }

  /** The plug events after the first n events. */
  function PlugsSince(t: Trace, n: nat): PlugLog {
    if t.Silence? || Length(t) <= n then NO_PLUGS else NotePlug(PlugsSince(t.before, n), t.last)
  }

  lemma EmitNotes(t: Trace, n: nat, when: bool, e: Event)
    requires Length(t) >= n
    ensures Length(Emit(t, when, e)) >= n
    ensures PlugsSince(Emit(t, when, e), n) == if when then NotePlug(PlugsSince(t, n), e) else PlugsSince(t, n)
  {
  }

  lemma SwitchesSilent(s: State, i: Input, n: nat)
    requires Length(s.trace) >= n && PlugsSince(s.trace, n).plugged
    ensures Length(SwitchOn(s, i).trace) >= n && PlugsSince(SwitchOn(s, i).trace, n) == PlugsSince(s.trace, n)
    ensures Length(SwitchOff(s, i).trace) >= n && PlugsSince(SwitchOff(s, i).trace, n) == PlugsSince(s.trace, n)
  {
    EmitNotes(s.trace, n, true, if i.closes then PowerOn else ErrorRelais);
    EmitNotes(s.trace, n, true, if i.opens then PowerOff else ErrorRelais);
  }

  predicate Regular(p: CPState) {
    p == A || Connected(p)
  }

  /** What a change of the vehicle's state means for the plug. */
  function Moved(log: PlugLog, prev: CPState, seen: CPState): PlugLog {
    if prev == A && Connected(seen) then NotePlug(log, CarPluggedIn)
    else if Connected(prev) && seen == A then NotePlug(log, CarUnplugged)
    else log
  }

  predicate Notes(s: State, t: State, n: nat) {
    Length(t.trace) >= n && PlugsSince(t.trace, n) == Moved(PlugsSince(s.trace, n), s.control.prev, s.control.cur)
  }

  /** A vehicle is plugged in, by the events, where the last state says so. */
  predicate InStep(s: State, n: nat) {
    Length(s.trace) >= n && PlugsSince(s.trace, n).plugged == Connected(s.control.prev)
  }

  lemma NotesA(s: State, i: Input, n: nat)
    requires InStep(s, n) && Regular(s.control.prev) && s.control.cur == A
    ensures Notes(s, InA(s, i), n)
  {
    if s.control.prev != A {
      var t := Idle(s);
      var u := EmitIf(t, true, CarRequestedStopPower);
      EmitNotes(t.trace, n, true, CarRequestedStopPower);
      SwitchesSilent(u, i, n);
      EmitNotes(SwitchOff(u, i).trace, n, true, CarUnplugged);
    }
  }

  lemma NotesB(s: State, i: Input, n: nat)
    requires InStep(s, n) && Regular(s.control.prev) && s.control.cur == B
    ensures Notes(s, InB(s, i), n)
  {
    var prev := s.control.prev;
    var u := EmitIf(s, true, CarRequestedStopPower);
    var t := if prev != A && prev != B then SwitchOff(u, i) else s;
    EmitNotes(s.trace, n, true, CarRequestedStopPower);
    if prev != A {
      SwitchesSilent(u, i, n);
    }
    EmitNotes(t.trace, n, prev == A || prev == Disabled, CarPluggedIn);
    EmitNotes(Emit(t.trace, prev == A || prev == Disabled, CarPluggedIn), n, prev == E || prev == F, EFToBCD);
  }

  lemma NotesArrival(s: State, n: nat)
    requires InStep(s, n) && Regular(s.control.prev) && Charging(s.control.cur)
    ensures Notes(s, Arrive(s), n) && Arrive(s).control == s.control
  {
    var prev := s.control.prev;
    var requested := prev == B || (prev == A && s.control.cur == D);
    var t := Emit(s.trace, prev == A, CarPluggedIn);
    EmitNotes(s.trace, n, prev == A, CarPluggedIn);
    EmitNotes(t, n, requested, CarRequestedPower);
    EmitNotes(Emit(t, requested, CarRequestedPower), n, prev == E || prev == F, EFToBCD);
  }

  lemma StopSilent(s: State, i: Input, n: nat)
    requires Length(s.trace) >= n && PlugsSince(s.trace, n).plugged
    ensures Length(StopLate(s, i).trace) >= n && PlugsSince(StopLate(s, i).trace, n) == PlugsSince(s.trace, n)
  {
    SwitchesSilent(s.(control := s.control.(pwmStop := StopCountdown(s.control, i))), i, n);
  }

  lemma NotesC(s: State, i: Input, n: nat)
    requires InStep(s, n) && Regular(s.control.prev) && s.control.cur == C
    ensures Notes(s, InC(s, i), n)
  {
    var t := Arrive(s);
    NotesArrival(s, n);
    if !t.control.pwm {
      StopSilent(t, i, n);
    } else if t.control.allowed {
      SwitchesSilent(t, i, n);
      EmitNotes(SwitchOn(t, i).trace, n, !t.control.prevPwm && t.session.simplified, CarRequestedPower);
    }
  }

  lemma NotesD(s: State, i: Input, n: nat)
    requires InStep(s, n) && Regular(s.control.prev) && s.control.cur == D
    ensures Notes(s, InD(s, i), n)
  {
    var t := Arrive(s);
    NotesArrival(s, n);
    var control := t.control;
    if !control.pwm {
      StopSilent(t, i, n);
    } else {
      var u := if control.allowed && !t.hardware.relay then
          if control.ventilation then SwitchOn(t, i) else EmitIf(t, true, ErrorVentilationNotAvailable)
        else t;
      SwitchesSilent(t, i, n);
      EmitNotes(t.trace, n, true, ErrorVentilationNotAvailable);
      EmitNotes(u.trace, n, control.prev == C && !control.ventilation, ErrorVentilationNotAvailable);
    }
  }

  /** A step with a stable signal notes a change of the plug, and nothing else does. */
  lemma ActNotes(s: State, a: Action, n: nat)
    requires InStep(s, n) && Regular(s.control.prev)
    requires Processes(s.control, a) ==> Regular(SeenBy(s.control, a))
    ensures Length(Act(s, a).trace) >= n
    ensures PlugsSince(Act(s, a).trace, n) ==
      if Processes(s.control, a) then Moved(PlugsSince(s.trace, n), s.control.prev, SeenBy(s.control, a))
      else PlugsSince(s.trace, n)
  {
    if a.Run? {
      EmitNotes(s.trace, n, a.input.rcdFired, ErrorRCD);
      if Processes(s.control, a) {
        var t := WithState(Checks(s, a.input), SeenBy(s.control, a));
        ProcessNotes(t, a.input, n);
      }
    }
  }

  lemma ProcessNotes(s: State, i: Input, n: nat)
    requires InStep(s, n) && Regular(s.control.prev) && Regular(s.control.cur)
    ensures Notes(s, Process(s, i), n)
  {
    match s.control.cur
    case A => NotesA(s, i, n);
    case B => NotesB(s, i, n);
    case C => NotesC(s, i, n);
    case D => NotesD(s, i, n);
    case _ =>
  }

  lemma StepNotes(ss: seq<State>, actions: seq<Action>, k: nat, n: nat)
    requires IsRun(ss, actions) && k < |actions| && InStep(ss[k], n) && Regular(ss[k].control.prev)
    requires Processes(ss[k].control, actions[k]) ==> Regular(SeenBy(ss[k].control, actions[k]))
    ensures Length(ss[k + 1].trace) >= n && Regular(ss[k + 1].control.prev)
    ensures PlugsSince(ss[k + 1].trace, n) == Moved(PlugsSince(ss[k].trace, n), ss[k].control.prev, ss[k + 1].control.prev)
  {
    assert Follows(ss, actions, k);
    ActNotes(ss[k], actions[k], n);
    Refines(ss, actions, k);
    assert ss[k + 1].control.prev ==
      if Processes(ss[k].control, actions[k]) then SeenBy(ss[k].control, actions[k]) else ss[k].control.prev;
  }

  /** On every part of a run that starts in state A and sees only A, B, C and D, CarPluggedIn
      and CarUnplugged strictly take turns, CarPluggedIn first; requests and everything about
      the power come between the two; and there is one more of the former exactly while the
      last processed state is B, C or D. */
  lemma {:induction false} PlugsAlternate(ss: seq<State>, actions: seq<Action>, m: nat, n: nat)
    requires IsRun(ss, actions) && m <= n <= |actions| && ss[m].control.prev == A
    requires forall k :: m <= k < n && Processes(ss[k].control, actions[k]) ==> Regular(SeenBy(ss[k].control, actions[k]))
    ensures Regular(ss[n].control.prev) && Length(ss[n].trace) >= Length(ss[m].trace)
    ensures var log := PlugsSince(ss[n].trace, Length(ss[m].trace));
      log.ordered && log.plugged == Connected(ss[n].control.prev) &&
      log.ins - log.outs == if Connected(ss[n].control.prev) then 1 else 0
    decreases n
  {
    if n > m {
      PlugsAlternate(ss, actions, m, n - 1);
      StepNotes(ss, actions, n - 1, Length(ss[m].trace));
    }
  }
}
