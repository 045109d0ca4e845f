/** When each event is emitted: the steps of the charging state machine read event by event. */
module FsmEvents {
  import opened Words
  import opened Fsm
  import opened FsmRuns
  import opened FsmSafety
  import opened FsmHistory

  function One(when: bool): nat {
    if when then 1 else 0
  }

  /** How often an event was emitted. */
  function Count(t: Trace, e: Event): nat {
    match t
    case Silence => 0
    case Then(before, last) => Count(before, e) + One(last == e)
  }

  // ---------- What a processed step emits, by event ----------

  /** The step has power to be switched on, the relay being open. */
  predicate Starts(c: Control) {
    c.pwm && c.allowed && (c.cur == C || (c.cur == D && c.ventilation))
  }

  /** The step switches the power off if it is on. */
  predicate Ends(c: Control, i: Input) {
    || c.cur in {Disabled, E, F, DF}
    || (c.cur == A && c.prev !in {A, Disabled, F})
    || (c.cur == B && c.prev !in {A, B})
    || (c.cur in {C, D} && !c.pwm && Elapsed(StopCountdown(c, i), i.pwmCheckTime))
  }

  /** How often a step that sees c.cur emits e; simplified mode is the one before the step. */
  function Due(e: Event, c: Control, simplified: bool, relay: bool, i: Input): nat {
    match e
    case CarPluggedIn => One((c.cur in {B, C, D} && c.prev == A) || (c.cur == B && c.prev == Disabled))
    case CarUnplugged => One(c.cur == A && c.prev !in {A, Disabled, F})
    case CarRequestedPower =>
      One(c.cur in {C, D} && c.prev == B) + One(c.cur == D && c.prev == A)
      + One(c.cur == C && c.pwm && c.allowed && !c.prevPwm && (simplified || c.prev == A))
    case CarRequestedStopPower =>
      One((c.cur == A && c.prev !in {A, Disabled, F}) || (c.cur == B && c.prev !in {A, B}))
    case PowerOn => One(!relay && Starts(c) && i.closes)
    case PowerOff => One(relay && Ends(c, i) && i.opens)
    case ErrorRelais => One(!relay && Starts(c) && !i.closes) + One(relay && Ends(c, i) && !i.opens)
    case ErrorE => One(c.cur == E && c.prev != E)
    case ErrorDF => One(c.cur == DF && c.prev != DF)
    case ErrorRCD => 0
    case ErrorVentilationNotAvailable =>
      if c.cur == D && c.pwm && !c.ventilation then One(c.allowed && !relay) + One(c.prev == C) else 0
    case EFToBCD => One(c.cur in {B, C, D} && c.prev in {E, F})
    case BCDToEF => One(c.cur in {E, F, DF} && c.prev in {B, C, D})
  }

  lemma EmitCounts(t: Trace, when: bool, x: Event, e: Event)
    ensures Count(Emit(t, when, x), e) == Count(t, e) + One(when && x == e)
  {
  }

  function Switched(e: Event, obeyed: bool, switched: Event): nat {
    One(e == if obeyed then switched else ErrorRelais)
  }

  lemma SwitchesCount(s: State, i: Input, e: Event)
    ensures Count(SwitchOn(s, i).trace, e) ==
      Count(s.trace, e) + if s.hardware.relay then 0 else Switched(e, i.closes, PowerOn)
    ensures Count(SwitchOff(s, i).trace, e) ==
      Count(s.trace, e) + if s.hardware.relay then Switched(e, i.opens, PowerOff) else 0
  {
  }

  predicate Emits(s: State, t: State, i: Input, e: Event) {
    Count(t.trace, e) == Count(s.trace, e) + Due(e, s.control, s.session.simplified, s.hardware.relay, i)
  }

  lemma EmitsInDisabled(s: State, i: Input, e: Event)
    requires s.control.cur == Disabled
    ensures Emits(s, InDisabled(s, i), i, e)
  {
    SwitchesCount(s.(control := s.control.(allowed := false)), i, e);
  }

  lemma UnplugCounts(s: State, i: Input, e: Event)
    requires Leaves(s.control.prev)
    ensures Count(InA(s, i).trace, e) == Count(s.trace, e) + One(e == CarRequestedStopPower) + One(e == CarUnplugged) +
      if s.hardware.relay then Switched(e, i.opens, PowerOff) else 0
  {
    var t := EmitIf(Idle(s), true, CarRequestedStopPower);
    EmitCounts(s.trace, true, CarRequestedStopPower, e);
    SwitchesCount(t, i, e);
    EmitCounts(SwitchOff(t, i).trace, true, CarUnplugged, e);
  }

  lemma EmitsInA(s: State, i: Input, e: Event)
    requires s.control.cur == A
    ensures Emits(s, InA(s, i), i, e)
  {
    if Leaves(s.control.prev) {
      UnplugCounts(s, i, e);
    }
  }

  lemma ReturnCounts(s: State, i: Input, e: Event)
    ensures var prev := s.control.prev;
      Count(InB(s, i).trace, e) == Count(s.trace, e)
        + (if prev != A && prev != B then
            One(e == CarRequestedStopPower) + if s.hardware.relay then Switched(e, i.opens, PowerOff) else 0 else 0)
        + One(e == CarPluggedIn && (prev == A || prev == Disabled)) + One(e == EFToBCD && (prev == E || prev == F))
  {
    var prev := s.control.prev;
    var plugged := prev == A || prev == Disabled;
    var u := EmitIf(s, true, CarRequestedStopPower);
    var t := if prev != A && prev != B then SwitchOff(u, i) else s;
    EmitCounts(s.trace, true, CarRequestedStopPower, e);
    SwitchesCount(u, i, e);
    EmitCounts(t.trace, plugged, CarPluggedIn, e);
    EmitCounts(Emit(t.trace, plugged, CarPluggedIn), prev == E || prev == F, EFToBCD, e);
  }

  lemma EmitsInB(s: State, i: Input, e: Event)
    requires s.control.cur == B
    ensures Emits(s, InB(s, i), i, e)
  {
    ReturnCounts(s, i, e);
  }

  lemma ArrivalCounts(s: State, e: Event)
    ensures var prev := s.control.prev;
      Count(Arrive(s).trace, e) == Count(s.trace, e) + One(e == CarPluggedIn && prev == A)
        + One(e == CarRequestedPower && (prev == B || (prev == A && s.control.cur == D)))
        + One(e == EFToBCD && (prev == E || prev == F))
  {
    var prev := s.control.prev;
    var t := Emit(s.trace, prev == A, CarPluggedIn);
    var requested := prev == B || (prev == A && s.control.cur == D);
    EmitCounts(s.trace, prev == A, CarPluggedIn, e);
    EmitCounts(t, requested, CarRequestedPower, e);
    EmitCounts(Emit(t, requested, CarRequestedPower), prev == E || prev == F, EFToBCD, e);
  }

  lemma StopCounts(s: State, i: Input, e: Event)
    ensures Count(StopLate(s, i).trace, e) == Count(s.trace, e) +
      if s.hardware.relay && Elapsed(StopCountdown(s.control, i), i.pwmCheckTime) then Switched(e, i.opens, PowerOff) else 0
  {
    SwitchesCount(s.(control := s.control.(pwmStop := StopCountdown(s.control, i))), i, e);
  }

  lemma EmitsInC(s: State, i: Input, e: Event)
    requires s.control.cur == C
    ensures Emits(s, InC(s, i), i, e)
  {
    var t := Arrive(s);
    ArrivalCounts(s, e);
    StopCounts(t, i, e);
    SwitchesCount(t, i, e);
    EmitCounts(SwitchOn(t, i).trace, !t.control.prevPwm && t.session.simplified, CarRequestedPower, e);
  }

  /** State D with the PWM running, after the arrival. */
  lemma VentilationCounts(t: State, i: Input, e: Event)
    requires t.control.cur == D && t.control.pwm
    ensures var c := t.control;
      var u := if c.allowed && !t.hardware.relay then
          if c.ventilation then SwitchOn(t, i) else EmitIf(t, true, ErrorVentilationNotAvailable)
        else t;
      Count(EmitIf(u, c.prev == C && !c.ventilation, ErrorVentilationNotAvailable).trace, e) == Count(t.trace, e)
        + (if !t.hardware.relay && Starts(c) then Switched(e, i.closes, PowerOn) else 0)
        + if e == ErrorVentilationNotAvailable && !c.ventilation then One(c.allowed && !t.hardware.relay) + One(c.prev == C) else 0
  {
    var c := t.control;
    var u := if c.allowed && !t.hardware.relay then
        if c.ventilation then SwitchOn(t, i) else EmitIf(t, true, ErrorVentilationNotAvailable)
      else t;
    SwitchesCount(t, i, e);
    EmitCounts(t.trace, true, ErrorVentilationNotAvailable, e);
    EmitCounts(u.trace, c.prev == C && !c.ventilation, ErrorVentilationNotAvailable, e);
  }

  lemma EmitsInD(s: State, i: Input, e: Event)
    requires s.control.cur == D
    ensures Emits(s, InD(s, i), i, e)
  {
    var t := Arrive(s);
    ArrivalCounts(s, e);
    if t.control.pwm {
      VentilationCounts(t, i, e);
    } else {
      StopCounts(t, i, e);
    }
  }

  lemma FaultCounts(s: State, entered: bool, x: Event, e: Event)
    ensures Count(EmitIf(EmitIf(s, entered, x), Connected(s.control.prev), BCDToEF).trace, e) ==
      Count(s.trace, e) + One(entered && x == e) + One(Connected(s.control.prev) && e == BCDToEF)
  {
    EmitCounts(s.trace, entered, x, e);
    EmitCounts(Emit(s.trace, entered, x), Connected(s.control.prev), BCDToEF, e);
  }

  lemma EmitsInE(s: State, i: Input, e: Event)
    requires s.control.cur == E
    ensures Emits(s, InE(s, i), i, e)
  {
    var prev := s.control.prev;
    FaultCounts(s, prev != E, ErrorE, e);
    SwitchesCount(EmitIf(EmitIf(s, prev != E, ErrorE), Connected(prev), BCDToEF), i, e);
  }

  lemma EmitsInF(s: State, i: Input, e: Event)
    requires s.control.cur == F
    ensures Emits(s, InF(s, i), i, e)
  {
    SwitchesCount(s, i, e);
    EmitCounts(SwitchOff(s, i).trace, Connected(s.control.prev), BCDToEF, e);
  }

  lemma EmitsInDF(s: State, i: Input, e: Event)
    requires s.control.cur == DF
    ensures Emits(s, InDF(s, i), i, e)
  {
    var prev := s.control.prev;
    FaultCounts(s, prev != DF, ErrorDF, e);
    SwitchesCount(EmitIf(EmitIf(s, prev != DF, ErrorDF), Connected(prev), BCDToEF), i, e);
  }

  lemma ProcessEmits(s: State, i: Input, e: Event)
    ensures Emits(s, Process(s, i), i, e)
  {
    match s.control.cur
    case Disabled => EmitsInDisabled(s, i, e);
    case A => EmitsInA(s, i, e);
    case B => EmitsInB(s, i, e);
    case C => EmitsInC(s, i, e);
    case D => EmitsInD(s, i, e);
    case E => EmitsInE(s, i, e);
    case F => EmitsInF(s, i, e);
    case DF => EmitsInDF(s, i, e);
  }

  /** Events are emitted by steps only: an RCD fault whenever there is one, everything else
      where a state is seen. */
  lemma ActEmits(s: State, a: Action, e: Event)
    ensures Count(Act(s, a).trace, e) == Count(s.trace, e) + One(e == ErrorRCD && a.Run? && a.input.rcdFired) +
      if Processes(s.control, a) then
        Due(e, s.control.(cur := SeenBy(s.control, a)), s.session.simplified, s.hardware.relay, a.input)
      else 0
  {
    if a.Run? {
      EmitCounts(s.trace, a.input.rcdFired, ErrorRCD, e);
      if Processes(s.control, a) {
        ProcessEmits(WithState(Checks(s, a.input), SeenBy(s.control, a)), a.input, e);
      }
    }
  }

  // ---------- Over whole runs ----------

  /** By how much the count of an event changes in a step. */
  function Rise(ss: seq<State>, n: nat, e: Event): int
    requires n + 1 < |ss|
  {
    Count(ss[n + 1].trace, e) - Count(ss[n].trace, e)
  }

  /** A vehicle requests power where it is seen in C or D after B, where it is seen in D after
      A, and in simplified mode where C meets a PWM that has just begun, with permission: then
      once more, if the step came from B as well. */
  lemma RequestsExactly(ss: seq<State>, actions: seq<Action>, n: nat)
    requires IsRun(ss, actions) && n < |actions|
    ensures var c, a, before := ss[n].control, actions[n], LastSeen(ss, actions, n);
      Rise(ss, n, CarRequestedPower) ==
        One((Sees(c, a, C) || Sees(c, a, D)) && before == B) + One(Sees(c, a, D) && before == A)
        + One(Sees(c, a, C) && LivePwm(ss, actions, n) && LivePermission(ss, actions, n) && !PwmSeen(ss, actions, n)
          && (SimplifiedMode(ss, actions, n, ss[0].session.simplified) || before == A))
  {
    ActEmits(ss[n], actions[n], CarRequestedPower);
    assert Follows(ss, actions, n);
    LastSeenIsHistory(ss, actions, n);
    PwmIsHistory(ss, actions, n);
    PermissionIsHistory(ss, actions, n);
    PwmSeenIsHistory(ss, actions, n);
    SimplifiedIsHistory(ss, actions, n);
  }

  /** It requests the end where it is seen gone, unless the state before was A, Disabled or F,
      and where it is seen in B after anything but A and B. */
  lemma StopRequestsExactly(ss: seq<State>, actions: seq<Action>, n: nat)
    requires IsRun(ss, actions) && n < |actions|
    ensures var c, a, before := ss[n].control, actions[n], LastSeen(ss, actions, n);
      Rise(ss, n, CarRequestedStopPower) ==
        One((Sees(c, a, A) && before !in {A, Disabled, F}) || (Sees(c, a, B) && before !in {A, B}))
  {
    ActEmits(ss[n], actions[n], CarRequestedStopPower);
    assert Follows(ss, actions, n);
    LastSeenIsHistory(ss, actions, n);
  }

  /** Plug events in every run, faults and disabling included. */
  lemma PlugsExactly(ss: seq<State>, actions: seq<Action>, n: nat)
    requires IsRun(ss, actions) && n < |actions|
    ensures var c, a, before := ss[n].control, actions[n], LastSeen(ss, actions, n);
      && Rise(ss, n, CarPluggedIn) ==
        One((Sees(c, a, B) && before in {A, Disabled}) || ((Sees(c, a, C) || Sees(c, a, D)) && before == A))
      && Rise(ss, n, CarUnplugged) == One(Sees(c, a, A) && before !in {A, Disabled, F})
  {
    ActEmits(ss[n], actions[n], CarPluggedIn);
    ActEmits(ss[n], actions[n], CarUnplugged);
    assert Follows(ss, actions, n);
    LastSeenIsHistory(ss, actions, n);
  }

  /** A fault is reported when it is seen first; an RCD fault in every step that finds one, also
      where the signal is not stable. */
  lemma FaultsExactly(ss: seq<State>, actions: seq<Action>, n: nat)
    requires IsRun(ss, actions) && n < |actions|
    ensures var c, a, before := ss[n].control, actions[n], LastSeen(ss, actions, n);
      && Rise(ss, n, ErrorE) == One(Sees(c, a, E) && before != E)
      && Rise(ss, n, ErrorDF) == One(Sees(c, a, DF) && before != DF)
      && Rise(ss, n, ErrorRCD) == One(a.Run? && a.input.rcdFired)
  {
    ActEmits(ss[n], actions[n], ErrorE);
    ActEmits(ss[n], actions[n], ErrorDF);
    ActEmits(ss[n], actions[n], ErrorRCD);
    assert Follows(ss, actions, n);
    LastSeenIsHistory(ss, actions, n);
  }

  /** Falling from B, C or D into a fault is reported for E, F and DF; coming back from a fault
      for E and F only. */
  lemma TransitionsExactly(ss: seq<State>, actions: seq<Action>, n: nat)
    requires IsRun(ss, actions) && n < |actions|
    ensures var c, a, before := ss[n].control, actions[n], LastSeen(ss, actions, n);
      && Rise(ss, n, BCDToEF) == One((Sees(c, a, E) || Sees(c, a, F) || Sees(c, a, DF)) && before in {B, C, D})
      && Rise(ss, n, EFToBCD) == One((Sees(c, a, B) || Sees(c, a, C) || Sees(c, a, D)) && before in {E, F})
  {
    ActEmits(ss[n], actions[n], BCDToEF);
    ActEmits(ss[n], actions[n], EFToBCD);
    assert Follows(ss, actions, n);
    LastSeenIsHistory(ss, actions, n);
  }

  /** Missing ventilation is reported in D with the PWM running: where the power would be
      switched on, and where the vehicle changes from C; twice where it is both. */
  lemma VentilationExactly(ss: seq<State>, actions: seq<Action>, n: nat)
    requires IsRun(ss, actions) && n < |actions|
    ensures var c, a, before := ss[n].control, actions[n], LastSeen(ss, actions, n);
      Rise(ss, n, ErrorVentilationNotAvailable) ==
        if Sees(c, a, D) && LivePwm(ss, actions, n) && !Ventilated(actions, n) then
          One(LivePermission(ss, actions, n) && !ss[n].hardware.relay) + One(before == C)
        else 0
  {
    ActEmits(ss[n], actions[n], ErrorVentilationNotAvailable);
    assert Follows(ss, actions, n);
    LastSeenIsHistory(ss, actions, n);
    PwmIsHistory(ss, actions, n);
    PermissionIsHistory(ss, actions, n);
    VentilationIsHistory(ss, actions, n);
  }

  /** PowerOn and PowerOff are emitted exactly in the steps in which the relay moves. */
  lemma MovesExactly(ss: seq<State>, actions: seq<Action>, n: nat)
    requires IsRun(ss, actions) && n < |actions|
    ensures Rise(ss, n, PowerOn) == One(!ss[n].hardware.relay && ss[n + 1].hardware.relay)
    ensures Rise(ss, n, PowerOff) == One(ss[n].hardware.relay && !ss[n + 1].hardware.relay)
  {
    ActEmits(ss[n], actions[n], PowerOn);
    ActEmits(ss[n], actions[n], PowerOff);
    assert Follows(ss, actions, n);
    Refines(ss, actions, n);
  }

  /** A closed relay opens exactly in a step that switches it off, if it obeys. */
  lemma OpensExactly(ss: seq<State>, actions: seq<Action>, n: nat)
    requires IsRun(ss, actions) && n < |actions| && ss[n].hardware.relay
    ensures var c, a := ss[n].control, actions[n];
      !ss[n + 1].hardware.relay <==> Processes(c, a) && a.input.opens && Ends(c.(cur := SeenBy(c, a)), a.input)
  {
    ActEmits(ss[n], actions[n], PowerOff);
    MovesExactly(ss, actions, n);
    assert Follows(ss, actions, n);
  }

  /** A relay error is emitted exactly where the relay is to close or to open and does not. */
  lemma RefusalsExactly(ss: seq<State>, actions: seq<Action>, n: nat)
    requires IsRun(ss, actions) && n < |actions|
    ensures var c, a, relay := ss[n].control, actions[n], ss[n].hardware.relay;
      Rise(ss, n, ErrorRelais) ==
        if !Processes(c, a) then 0
        else
          var seen := c.(cur := SeenBy(c, a));
          One(!relay && Starts(seen) && !a.input.closes) + One(relay && Ends(seen, a.input) && !a.input.opens)
  {
    ActEmits(ss[n], actions[n], ErrorRelais);
    assert Follows(ss, actions, n);
  }

  // ---------- The order of events ----------

  /** Where a vehicle was reported as unplugged, the power had been reported off before, unless
      the relay had failed to open. */
  predicate UnpluggedIsOff(t: Trace) {
    t.Then? ==> UnpluggedIsOff(t.before) && (t.last == CarUnplugged && Log(t.before).closed ==> Log(t.before).refusedOff)
  }

  lemma SwitchesInOrder(s: State, i: Input)
    requires UnpluggedIsOff(s.trace)
    ensures UnpluggedIsOff(SwitchOn(s, i).trace) && UnpluggedIsOff(SwitchOff(s, i).trace)
  {
  }

  lemma ArrivalInOrder(s: State)
    requires UnpluggedIsOff(s.trace)
    ensures UnpluggedIsOff(Arrive(s).trace)
  {
    var prev := s.control.prev;
    var t := Emit(s.trace, prev == A, CarPluggedIn);
    var u := Emit(t, prev == B || (prev == A && s.control.cur == D), CarRequestedPower);
    assert UnpluggedIsOff(t) && UnpluggedIsOff(u);
  }

  lemma StopInOrder(s: State, i: Input)
    requires UnpluggedIsOff(s.trace)
    ensures UnpluggedIsOff(StopLate(s, i).trace)
  {
    SwitchesInOrder(s.(control := s.control.(pwmStop := StopCountdown(s.control, i))), i);
  }

  lemma UnplugInOrder(s: State, i: Input)
    requires UnpluggedIsOff(s.trace) && Log(s.trace).closed == s.hardware.relay
    ensures UnpluggedIsOff(InA(s, i).trace)
  {
    if Leaves(s.control.prev) {
      var t := EmitIf(Idle(s), true, CarRequestedStopPower);
      QuietStep(Idle(s), true, CarRequestedStopPower);
      SwitchesInOrder(t, i);
      SwitchesObey(t, i);
    }
  }

  lemma BInOrder(s: State, i: Input)
    requires UnpluggedIsOff(s.trace)
    ensures UnpluggedIsOff(InB(s, i).trace)
  {
    var prev := s.control.prev;
    var u := EmitIf(s, true, CarRequestedStopPower);
    var t := if prev != A && prev != B then SwitchOff(u, i) else s;
    assert UnpluggedIsOff(u.trace);
    SwitchesInOrder(u, i);
    assert UnpluggedIsOff(Emit(t.trace, prev == A || prev == Disabled, CarPluggedIn));
  }

  lemma DInOrder(s: State, i: Input)
    requires UnpluggedIsOff(s.trace)
    ensures UnpluggedIsOff(InD(s, i).trace)
  {
    var t := Arrive(s);
    ArrivalInOrder(s);
    if !t.control.pwm {
      StopInOrder(t, i);
    } else {
      SwitchesInOrder(t, i);
      assert UnpluggedIsOff(EmitIf(t, true, ErrorVentilationNotAvailable).trace);
    }
  }

  lemma FaultInOrder(s: State, entered: bool, x: Event)
    requires UnpluggedIsOff(s.trace) && x != CarUnplugged
    ensures UnpluggedIsOff(EmitIf(EmitIf(s, entered, x), Connected(s.control.prev), BCDToEF).trace)
  {
    assert UnpluggedIsOff(EmitIf(s, entered, x).trace);
  }

  lemma ProcessInOrder(s: State, i: Input)
    requires UnpluggedIsOff(s.trace) && Log(s.trace).closed == s.hardware.relay
    ensures UnpluggedIsOff(Process(s, i).trace)
  {
    var prev := s.control.prev;
    match s.control.cur
    case Disabled => SwitchesInOrder(s.(control := s.control.(allowed := false)), i);
    case A => UnplugInOrder(s, i);
    case B => BInOrder(s, i);
    case C =>
      ArrivalInOrder(s);
      StopInOrder(Arrive(s), i);
      SwitchesInOrder(Arrive(s), i);
    case D => DInOrder(s, i);
    case E =>
      FaultInOrder(s, prev != E, ErrorE);
      SwitchesInOrder(EmitIf(EmitIf(s, prev != E, ErrorE), Connected(prev), BCDToEF), i);
    case F => SwitchesInOrder(s, i);
    case DF =>
      FaultInOrder(s, prev != DF, ErrorDF);
      SwitchesInOrder(EmitIf(EmitIf(s, prev != DF, ErrorDF), Connected(prev), BCDToEF), i);
  }

  /** In every run, a vehicle is reported as unplugged only after the power is reported off. */
  lemma {:induction false} UnpluggedAfterOff(ss: seq<State>, actions: seq<Action>, n: nat)
    requires IsRun(ss, actions) && n <= |actions|
    ensures UnpluggedIsOff(ss[n].trace)
    decreases n
  {
    if n > 0 {
      var s, a := ss[n - 1], actions[n - 1];
      UnpluggedAfterOff(ss, actions, n - 1);
      TraceTellsRelay(ss, actions, n - 1);
      assert Follows(ss, actions, n - 1);
      if a.Run? {
        ChecksAreQuiet(s, a.input);
        assert UnpluggedIsOff(Checks(s, a.input).trace);
        if Processes(s.control, a) {
          ProcessInOrder(WithState(Checks(s, a.input), SeenBy(s.control, a)), a.input);
        }
      }
    }
  }
}
