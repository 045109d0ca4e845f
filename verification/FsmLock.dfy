/** When the connector is locked: for a second after an attempt to switch on the power. */
module FsmLock {
  import opened Words
  import opened Fsm
  import opened FsmRuns
  import opened FsmSafety
  import opened FsmEvents

  /** The lock, and the countdown that stops its motor. */
  datatype Lock = Lock(locked: bool, check: Countdown)

  function LockOf(s: State): Lock {
    Lock(s.hardware.locked, s.session.lockCheck)
  }

  /** The lock moves with every attempt to switch the power, whether or not the relay obeys. */
  function Moves(c: Control, relay: bool, i: Input): Command {
    if !relay && Starts(c) then TurnOn else if relay && Ends(c, i) then TurnOff else Keep
  }

  function MoveLock(lock: Lock, command: Command, i: Input): Lock {
    match command
    case Keep => lock
    case TurnOn => Lock(true, Started(lock.check, i.lockStartTime))
    case TurnOff => Lock(false, Started(lock.check, i.lockStartTime))
  }

  function CheckLock(lock: Lock, i: Input): Lock {
    if Elapsed(lock.check, i.lockCheckTime) then Lock(false, lock.check.(running := false)) else lock
  }

  lemma SwitchesLock(s: State, i: Input)
    ensures LockOf(SwitchOn(s, i)) == MoveLock(LockOf(s), if s.hardware.relay then Keep else TurnOn, i)
    ensures LockOf(SwitchOff(s, i)) == MoveLock(LockOf(s), if s.hardware.relay then TurnOff else Keep, i)
  {
  }

  predicate Locks(s: State, t: State, i: Input) {
    LockOf(t) == MoveLock(LockOf(s), Moves(s.control, s.hardware.relay, i), i)
  }

  lemma LocksInA(s: State, i: Input)
    requires s.control.cur == A
    ensures Locks(s, InA(s, i), i)
  {
    SwitchesLock(EmitIf(Idle(s), true, CarRequestedStopPower), i);
  }

  lemma LocksInB(s: State, i: Input)
    requires s.control.cur == B
    ensures Locks(s, InB(s, i), i)
  {
    SwitchesLock(EmitIf(s, true, CarRequestedStopPower), i);
  }

  lemma LocksInC(s: State, i: Input)
    requires s.control.cur == C
    ensures Locks(s, InC(s, i), i)
  {
    var t := Arrive(s);
    assert LockOf(t) == LockOf(s) && t.hardware == s.hardware && t.control == s.control;
    SwitchesLock(t, i);
    SwitchesLock(t.(control := t.control.(pwmStop := StopCountdown(t.control, i))), i);
  }

  lemma LocksInD(s: State, i: Input)
    requires s.control.cur == D
    ensures Locks(s, InD(s, i), i)
  {
    var t := Arrive(s);
    assert LockOf(t) == LockOf(s) && t.hardware == s.hardware && t.control == s.control;
    SwitchesLock(t, i);
    SwitchesLock(t.(control := t.control.(pwmStop := StopCountdown(t.control, i))), i);
  }

  lemma ProcessLocks(s: State, i: Input)
    ensures Locks(s, Process(s, i), i)
  {
    match s.control.cur
    case Disabled =>
    case A => LocksInA(s, i);
    case B => LocksInB(s, i);
    case C => LocksInC(s, i);
    case D => LocksInD(s, i);
    case E =>
    case F =>
    case DF =>
  }

  /** The attempt that an action makes to switch the power. */
  function Attempt(s: State, a: Action): Command {
    if Processes(s.control, a) then Moves(s.control.(cur := SeenBy(s.control, a)), s.hardware.relay, a.input) else Keep
  }

  lemma ActLocks(s: State, a: Action)
    ensures LockOf(Act(s, a)) ==
      if a.Run? then MoveLock(CheckLock(LockOf(s), a.input), Attempt(s, a), a.input) else LockOf(s)
  {
    if a.Run? {
      assert LockOf(Checks(s, a.input)) == CheckLock(LockOf(s), a.input);
      if Processes(s.control, a) {
        ProcessLocks(WithState(Checks(s, a.input), SeenBy(s.control, a)), a.input);
      }
    }
  }

  // ---------- Over whole runs ----------

  /** The latest attempt to switch the power. */
  function LastAttempt(ss: seq<State>, actions: seq<Action>, n: nat): (g: Option<nat>)
    requires n <= |actions| < |ss|
    ensures g.Some? ==> g.value < n && Attempt(ss[g.value], actions[g.value]) != Keep
    ensures g.Some? ==> actions[g.value].Run?
  {
    if n == 0 then None
    else if Attempt(ss[n - 1], actions[n - 1]) != Keep then Some(n - 1)
    else LastAttempt(ss, actions, n - 1)
  }

  /** No step after g and before n was a period or more later than g, in 32-bit ticks. */
  predicate Recent(actions: seq<Action>, g: nat, n: nat, period: nat)
    requires g < n <= |actions| && actions[g].Run?
  {
    forall k {:trigger actions[k]} :: g < k < n && actions[k].Run? ==>
      (actions[k].input.lockCheckTime - actions[g].input.lockStartTime) % 0x1_0000_0000 < period
  }

  /** The lock by history: the countdown runs since the last attempt while that is recent, and
      the connector is locked while it does, if that was one to switch on. */
  predicate LockedSince(lock: Lock, ss: seq<State>, actions: seq<Action>, n: nat, period: nat)
    requires n <= |actions| < |ss|
  {
    match LastAttempt(ss, actions, n)
    case None => !lock.locked && !lock.check.running
    case Some(g) =>
      var recent := Recent(actions, g, n, period);
      && (lock.check.running <==> recent)
      && (lock.check.running ==> lock.check.start == Ticks(actions[g].input.lockStartTime))
      && (lock.locked <==> recent && Attempt(ss[g], actions[g]) == TurnOn)
  }

  lemma StaysRecent(actions: seq<Action>, g: nat, n: nat, period: nat)
    requires g < n < |actions| && actions[g].Run?
    ensures Recent(actions, g, n + 1, period) <==> (
      Recent(actions, g, n, period) &&
      (actions[n].Run? ==> (actions[n].input.lockCheckTime - actions[g].input.lockStartTime) % 0x1_0000_0000 < period))
  {
  }

  lemma LockStep(lock: Lock, ss: seq<State>, actions: seq<Action>, n: nat, period: nat)
    requires n < |actions| < |ss| && lock.check.period == period && LockedSince(lock, ss, actions, n, period)
    requires actions[n].Run?
    ensures var i := actions[n].input;
      LockedSince(MoveLock(CheckLock(lock, i), Attempt(ss[n], actions[n]), i), ss, actions, n + 1, period)
  {
    match LastAttempt(ss, actions, n)
    case None =>
    case Some(g) =>
      StaysRecent(actions, g, n, period);
      TicksBetween(actions[n].input.lockCheckTime, actions[g].input.lockStartTime);
  }

  lemma LockWaits(lock: Lock, ss: seq<State>, actions: seq<Action>, n: nat, period: nat)
    requires n < |actions| < |ss| && LockedSince(lock, ss, actions, n, period) && !actions[n].Run?
    ensures LockedSince(lock, ss, actions, n + 1, period)
  {
    match LastAttempt(ss, actions, n)
    case None =>
    case Some(g) => StaysRecent(actions, g, n, period);
  }

  lemma {:induction false} LockIsHistory(ss: seq<State>, actions: seq<Action>, n: nat)
    requires IsRun(ss, actions) && n <= |actions|
    ensures ss[n].session.lockCheck.period == ss[0].session.lockCheck.period
    ensures LockedSince(LockOf(ss[n]), ss, actions, n, ss[0].session.lockCheck.period)
    decreases n
  {
    if n > 0 {
      var period := ss[0].session.lockCheck.period;
      LockIsHistory(ss, actions, n - 1);
      assert Follows(ss, actions, n - 1);
      ActLocks(ss[n - 1], actions[n - 1]);
      if actions[n - 1].Run? {
        LockStep(LockOf(ss[n - 1]), ss, actions, n - 1, period);
      } else {
        LockWaits(LockOf(ss[n - 1]), ss, actions, n - 1, period);
      }
    }
  }

  lemma PeriodIsOneSecond(ss: seq<State>, ticksPerMs: u32)
    requires Clocked(ss, ticksPerMs)
    ensures ss[0].session.lockCheck.period == 1000 * ticksPerMs % 0x1_0000_0000
    ensures 1000 * ticksPerMs < 0x1_0000_0000 ==> ss[0].session.lockCheck.period == 1000 * ticksPerMs
  {
  }

  /** The connector is locked exactly while the latest attempt to switch the power was one to
      switch it on and no step has found it a second old. */
  lemma LockedForASecond(ss: seq<State>, actions: seq<Action>, ticksPerMs: u32, n: nat)
    requires IsRun(ss, actions) && Clocked(ss, ticksPerMs) && 1000 * ticksPerMs < 0x1_0000_0000 && n <= |actions|
    ensures ss[n].hardware.locked <==> LockedByHistory(ss, actions, n, 1000 * ticksPerMs)
  {
    LockIsHistory(ss, actions, n);
    PeriodIsOneSecond(ss, ticksPerMs);
  }

  predicate LockedByHistory(ss: seq<State>, actions: seq<Action>, n: nat, period: nat)
    requires n <= |actions| < |ss|
  {
    var g := LastAttempt(ss, actions, n);
    g.Some? && Attempt(ss[g.value], actions[g.value]) == TurnOn && Recent(actions, g.value, n, period)
  }

  lemma StepArms(s: State, a: Action)
    ensures PowerAfter(PowerOf(s), s.control, a).rcdArmed ==
      if Attempt(s, a) == Keep then s.hardware.rcdArmed else Attempt(s, a) == TurnOn
  {
  }

  /** The RCD is armed, as at the start, unless the latest attempt was to switch off. */
  lemma {:induction false} RcdIsHistory(ss: seq<State>, actions: seq<Action>, n: nat)
    requires IsRun(ss, actions) && n <= |actions|
    ensures ss[n].hardware.rcdArmed <==>
      var g := LastAttempt(ss, actions, n);
      g.None? || Attempt(ss[g.value], actions[g.value]) == TurnOn
    decreases n
  {
    if n > 0 {
      RcdIsHistory(ss, actions, n - 1);
      Refines(ss, actions, n - 1);
      StepArms(ss[n - 1], actions[n - 1]);
    }
  }
}
