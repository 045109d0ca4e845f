/** What holds over whole runs of the charging state machine, for every sequence of commands
    and run steps, every pilot signal, every clock and every misbehaviour of the relay. */
module FsmSafety {
  import opened Words
  import opened Fsm
  import opened FsmRuns

  predicate Start(s: State) {
    exists ticksPerMs: u32, simplified: bool :: s == Initial(ticksPerMs, simplified)
  }

  predicate Follows(ss: seq<State>, actions: seq<Action>, k: nat)
    requires k < |actions| && k + 1 < |ss|
  {
    ss[k + 1] == Act(ss[k], actions[k])
  }

  /** ss are the states before, between and after the actions of a run from the start. */
  predicate IsRun(ss: seq<State>, actions: seq<Action>) {
    && |ss| == |actions| + 1 && Start(ss[0])
    && forall k {:trigger Follows(ss, actions, k)} :: 0 <= k < |actions| ==> Follows(ss, actions, k)
  }

  lemma Refines(ss: seq<State>, actions: seq<Action>, k: nat)
    requires IsRun(ss, actions) && k < |actions|
    ensures ss[k + 1].control == ControlAfter(ss[k].control, actions[k])
    ensures PowerOf(ss[k + 1]) == PowerAfter(PowerOf(ss[k]), ss[k].control, actions[k])
  {
    assert Follows(ss, actions, k);
    ActRefines(ss[k], actions[k]);
  }

  lemma ExtendRun(ss: seq<State>, actions: seq<Action>, a: Action, next: State) returns (tt: seq<State>)
    requires IsRun(ss, actions) && next == Act(ss[|actions|], a)
    ensures tt == ss + [next] && IsRun(tt, actions + [a])
  {
    tt := ss + [next];
    forall k | 0 <= k < |actions| + 1
      ensures Follows(tt, actions + [a], k)
    {
      assert k < |actions| ==> Follows(ss, actions, k);
    }
  }

  /** Every sequence of actions has a run from every start. */
  lemma {:induction false} RunExists(init: State, actions: seq<Action>) returns (ss: seq<State>)
    requires Start(init)
    ensures IsRun(ss, actions) && ss[0] == init
    decreases |actions|
  {
    if actions == [] {
      ss := [init];
    } else {
      var n := |actions| - 1;
      ss := RunExists(init, actions[..n]);
      ss := ExtendRun(ss, actions[..n], actions[n], Act(ss[n], actions[n]));
      assert actions == actions[..n] + [actions[n]];
    }
  }

  // ---------- Trace and relay ----------

  /** PowerOn and PowerOff strictly take turns, PowerOn first, and the last of them tells the
      position of the relay, however often the relay refuses to move. */
  lemma {:induction false} TraceTellsRelay(ss: seq<State>, actions: seq<Action>, n: nat)
    requires IsRun(ss, actions) && n <= |actions|
    ensures Log(ss[n].trace).alternates
    ensures Log(ss[n].trace).closed == ss[n].hardware.relay
    decreases n
  {
    if n > 0 {
      TraceTellsRelay(ss, actions, n - 1);
      Refines(ss, actions, n - 1);
    }
  }

  /** A step emits PowerOn exactly if the relay closes in it. */
  lemma PowerOnCounts(ss: seq<State>, actions: seq<Action>, n: nat)
    requires IsRun(ss, actions) && n < |actions|
    ensures var s, t := ss[n], ss[n + 1];
      Log(t.trace).powerOns == Log(s.trace).powerOns + if !s.hardware.relay && t.hardware.relay then 1 else 0
  {
    Refines(ss, actions, n);
  }

  // ---------- The relay is closed only where it may be ----------

  /** A closed relay, unless it ever failed to open. */
  predicate Guarded(p: Power, prev: CPState) {
    p.relay && !p.log.refusedOff ==> Charging(prev) && p.rcdArmed
  }

  lemma ActKeepsGuarded(p: Power, c: Control, a: Action)
    requires p.log.closed == p.relay && Guarded(p, c.prev)
    ensures Guarded(PowerAfter(p, c, a), ControlAfter(c, a).prev)
    ensures p.log.refusedOff ==> PowerAfter(p, c, a).log.refusedOff
  {
  }

  /** A closed relay implies that the last processed state is C or D and that the RCD is armed
      again, unless the relay has ever reported that it failed to open. */
  lemma {:induction false} RelayInvariant(ss: seq<State>, actions: seq<Action>, n: nat)
    requires IsRun(ss, actions) && n <= |actions|
    ensures var s := ss[n];
      s.hardware.relay && !Log(s.trace).refusedOff ==> Charging(s.control.prev) && s.hardware.rcdArmed
    decreases n
  {
    if n > 0 {
      var s := ss[n - 1];
      RelayInvariant(ss, actions, n - 1);
      TraceTellsRelay(ss, actions, n - 1);
      Refines(ss, actions, n - 1);
      ActKeepsGuarded(PowerOf(s), s.control, actions[n - 1]);
    }
  }

  /** After every step that sees Disabled, A, B, E, F or DF the relay is open, also on the
      branches that never call power_off. */
  lemma OpenOutsideCharging(ss: seq<State>, actions: seq<Action>, k: nat)
    requires IsRun(ss, actions) && k < |actions| && Processes(ss[k].control, actions[k])
    requires !Log(ss[k + 1].trace).refusedOff
    requires !Charging(SeenBy(ss[k].control, actions[k]))
    ensures !ss[k + 1].hardware.relay
  {
    RelayInvariant(ss, actions, k + 1);
    Refines(ss, actions, k);
  }

  /** Once the relay failed to open, that stays on record. */
  lemma {:induction false} RefusalStays(ss: seq<State>, actions: seq<Action>, n: nat, m: nat)
    requires IsRun(ss, actions) && n <= m <= |actions| && !Log(ss[m].trace).refusedOff
    ensures !Log(ss[n].trace).refusedOff
    decreases m
  {
    if n < m {
      Refines(ss, actions, m - 1);
      RefusalStays(ss, actions, n, m - 1);
    }
  }

  // ---------- Forced stop ----------

  /** A processed step that finds the PWM running. */
  predicate SeesPwm(c: Control, a: Action) {
    Processes(c, a) && c.pwm
  }

  /** The relay is open, or the countdown has been running since time t0. */
  predicate Counting(relay: bool, c: Control, t0: nat) {
    relay ==> !c.prevPwm && c.pwmStop.running && c.pwmStop.start == Ticks(t0)
  }

  lemma ActKeepsCounting(p: Power, c: Control, a: Action, t0: nat)
    requires Counting(p.relay, c, t0) && !SeesPwm(c, a)
    requires PowerAfter(p, c, a).relay ==> Charging(ControlAfter(c, a).prev)
    ensures Counting(PowerAfter(p, c, a).relay, ControlAfter(c, a), t0)
  {
  }

  lemma {:induction false} PeriodFixed(ss: seq<State>, actions: seq<Action>, n: nat)
    requires IsRun(ss, actions) && n <= |actions|
    ensures ss[n].control.pwmStop.period == ss[0].control.pwmStop.period
    decreases n
  {
    if n > 0 {
      PeriodFixed(ss, actions, n - 1);
      Refines(ss, actions, n - 1);
    }
  }

  /** The first step in C or D that finds the PWM stopped. */
  predicate StopSeen(c: Control, a: Action) {
    Processes(c, a) && Charging(SeenBy(c, a)) && !c.pwm && c.prevPwm
  }

  /** No step after `first` and before `n` saw the PWM running. */
  predicate NoPwmBetween(ss: seq<State>, actions: seq<Action>, first: nat, n: nat)
    requires n <= |actions| < |ss|
  {
    forall k {:trigger ss[k]} :: first < k < n ==> !SeesPwm(ss[k].control, actions[k])
  }

  lemma {:induction false} CountsSinceStop(ss: seq<State>, actions: seq<Action>, first: nat, n: nat)
    requires IsRun(ss, actions) && first < n <= |actions| && StopSeen(ss[first].control, actions[first])
    requires NoPwmBetween(ss, actions, first, n) && !Log(ss[n].trace).refusedOff
    ensures Counting(ss[n].hardware.relay, ss[n].control, actions[first].input.pwmStartTime)
    decreases n
  {
    var s, a := ss[n - 1], actions[n - 1];
    Refines(ss, actions, n - 1);
    RelayInvariant(ss, actions, n);
    if n > first + 1 {
      RefusalStays(ss, actions, n - 1, n);
      CountsSinceStop(ss, actions, first, n - 1);
      ActKeepsCounting(PowerOf(s), s.control, a, actions[first].input.pwmStartTime);
    }
  }

  /** In 32-bit ticks, too, a time at least a period and less than 2^32 after t0 is late. */
  lemma LateAcrossWrap(t0: nat, time: nat, period: u32)
    requires t0 + period <= time < t0 + TWO_32
    ensures (Ticks(time) - Ticks(t0)) % TWO_32 >= period
  {
    assert (Ticks(time) - Ticks(t0)) % TWO_32 == (time - t0) % TWO_32;
  }

  /** A step that leaves the relay closed while no PWM is remembered had it closed before,
      remembers none since earlier, or is the first one to see the PWM stopped. */
  lemma ClosedStep(p: Power, c: Control, a: Action)
    requires PowerAfter(p, c, a).relay && !ControlAfter(c, a).prevPwm && Charging(ControlAfter(c, a).prev)
    ensures p.relay && !SeesPwm(c, a) && (!c.prevPwm || StopSeen(c, a))
  {
  }

  /** A closed relay with the PWM seen stopped: there was a first step that saw the stop, and
      it started the countdown. The countdown cannot have been forgotten. */
  lemma {:induction false} ClosedMeansStopSeen(ss: seq<State>, actions: seq<Action>, n: nat) returns (first: nat)
    requires IsRun(ss, actions) && n <= |actions|
    requires ss[n].hardware.relay && !ss[n].control.prevPwm && !Log(ss[n].trace).refusedOff
    ensures first < n && StopSeen(ss[first].control, actions[first]) && ss[first].hardware.relay
    ensures NoPwmBetween(ss, actions, first, n)
    decreases n
  {
    RelayInvariant(ss, actions, n);
    if n > 0 {
      var s, a := ss[n - 1], actions[n - 1];
      Refines(ss, actions, n - 1);
      ClosedStep(PowerOf(s), s.control, a);
      if StopSeen(s.control, a) {
        first := n - 1;
      } else {
        RefusalStays(ss, actions, n - 1, n);
        first := ClosedMeansStopSeen(ss, actions, n - 1);
      }
    }
  }

  /** A processed step in C or D that finds the PWM stopped and the relay closed. */
  predicate Stopped(s: State, a: Action) {
    Processes(s.control, a) && Charging(SeenBy(s.control, a)) && !s.control.pwm && s.hardware.relay
  }

  lemma StopDecides(p: Power, c: Control, a: Action, t0: nat)
    requires Processes(c, a) && !c.pwm && Charging(SeenBy(c, a)) && p.relay && p.log.closed
    requires !PowerAfter(p, c, a).log.refusedOff
    requires if c.prevPwm then t0 == a.input.pwmStartTime else Counting(p.relay, c, t0)
    ensures PowerAfter(p, c, a).relay <==> (Ticks(a.input.pwmCheckTime) - Ticks(t0)) % TWO_32 < c.pwmStop.period
  {
  }

  /** The forced stop after whatever period the countdown has. */
  lemma StopAfterPeriod(ss: seq<State>, actions: seq<Action>, n: nat) returns (first: nat)
    requires IsRun(ss, actions) && n < |actions| && Stopped(ss[n], actions[n]) && !Log(ss[n + 1].trace).refusedOff
    ensures first <= n && StopSeen(ss[first].control, actions[first]) && Stopped(ss[first], actions[first])
    ensures NoPwmBetween(ss, actions, first, n + 1)
    ensures ss[n + 1].hardware.relay <==>
      (Ticks(actions[n].input.pwmCheckTime) - Ticks(actions[first].input.pwmStartTime)) % TWO_32 < ss[0].control.pwmStop.period
  {
    RefusalStays(ss, actions, n, n + 1);
    if ss[n].control.prevPwm {
      first := n;
    } else {
      first := ClosedMeansStopSeen(ss, actions, n);
      CountsSinceStop(ss, actions, first, n);
    }
    PeriodFixed(ss, actions, n);
    TraceTellsRelay(ss, actions, n);
    Refines(ss, actions, n);
    StopDecides(PowerOf(ss[n]), ss[n].control, actions[n], actions[first].input.pwmStartTime);
  }

  lemma YoungerThanPeriod(ss: seq<State>, actions: seq<Action>, n: nat) returns (first: nat)
    requires IsRun(ss, actions) && n < |actions| && Processes(ss[n].control, actions[n]) && !ss[n].control.pwm
    requires ss[n + 1].hardware.relay && !Log(ss[n + 1].trace).refusedOff
    ensures first <= n && Stopped(ss[first], actions[first]) && NoPwmBetween(ss, actions, first, n + 1)
    ensures (Ticks(actions[n].input.pwmCheckTime) - Ticks(actions[first].input.pwmStartTime)) % TWO_32
      < ss[0].control.pwmStop.period
  {
    RelayInvariant(ss, actions, n + 1);
    Refines(ss, actions, n);
    ClosedStep(PowerOf(ss[n]), ss[n].control, actions[n]);
    first := StopAfterPeriod(ss, actions, n);
  }

  /** The first step in C or D that finds the PWM stopped with the relay closed, since a step
      saw the PWM running. */
  predicate FirstStopped(ss: seq<State>, actions: seq<Action>, first: nat)
    requires first < |actions| < |ss|
  {
    && Stopped(ss[first], actions[first])
    && forall k {:trigger ss[k]} :: 0 <= k < first && Stopped(ss[k], actions[k]) ==> !NoPwmBetween(ss, actions, k, first)
  }

  lemma {:induction false} StaysStopped(ss: seq<State>, actions: seq<Action>, k: nat, n: nat)
    requires IsRun(ss, actions) && k < n <= |actions| && Stopped(ss[k], actions[k]) && NoPwmBetween(ss, actions, k, n)
    ensures !ss[n].control.prevPwm
    decreases n
  {
    Refines(ss, actions, n - 1);
    if n > k + 1 {
      StaysStopped(ss, actions, k, n - 1);
    }
  }

  /** The guard by which the code starts the countdown, prev_pwm_running, recognises exactly
      the first such step. */
  lemma FirstStoppedStarts(ss: seq<State>, actions: seq<Action>, first: nat)
    requires IsRun(ss, actions) && first < |actions| && Stopped(ss[first], actions[first])
    requires !Log(ss[first].trace).refusedOff
    ensures FirstStopped(ss, actions, first) <==> StopSeen(ss[first].control, actions[first])
  {
    if !ss[first].control.prevPwm {
      var k := ClosedMeansStopSeen(ss, actions, first);
      assert Stopped(ss[k], actions[k]);
    } else {
      forall k | 0 <= k < first && Stopped(ss[k], actions[k])
        ensures !NoPwmBetween(ss, actions, k, first)
      {
        if NoPwmBetween(ss, actions, k, first) {
          StaysStopped(ss, actions, k, first);
        }
      }
    }
  }

  lemma OpenAfterPeriod(ss: seq<State>, actions: seq<Action>, first: nat, later: nat)
    requires IsRun(ss, actions) && first < later < |actions| && FirstStopped(ss, actions, first)
    requires NoPwmBetween(ss, actions, first, later + 1)
    requires Processes(ss[later].control, actions[later])
    requires var t0 := actions[first].input.pwmStartTime;
      t0 + ss[0].control.pwmStop.period <= actions[later].input.pwmCheckTime < t0 + TWO_32
    requires !Log(ss[later + 1].trace).refusedOff
    ensures !ss[later + 1].hardware.relay
  {
    var s, a, t0 := ss[later], actions[later], actions[first].input.pwmStartTime;
    RefusalStays(ss, actions, first, later + 1);
    RefusalStays(ss, actions, later, later + 1);
    FirstStoppedStarts(ss, actions, first);
    CountsSinceStop(ss, actions, first, later);
    PeriodFixed(ss, actions, later);
    LateAcrossWrap(t0, a.input.pwmCheckTime, ss[0].control.pwmStop.period);
    TraceTellsRelay(ss, actions, later);
    RelayInvariant(ss, actions, later + 1);
    Refines(ss, actions, later);
    LateStopOpens(PowerOf(s), s.control, a, t0);
  }

  lemma LateStopOpens(p: Power, c: Control, a: Action, t0: nat)
    requires Processes(c, a) && !c.pwm && Counting(p.relay, c, t0) && p.log.closed == p.relay
    requires (Ticks(a.input.pwmCheckTime) - Ticks(t0)) % TWO_32 >= c.pwmStop.period
    requires !PowerAfter(p, c, a).log.refusedOff
    ensures Charging(SeenBy(c, a)) ==> !PowerAfter(p, c, a).relay
    ensures ControlAfter(c, a).prev == SeenBy(c, a)
  {
  }

  // ---------- The deadline of six seconds ----------

  /** The clock of the run has so many ticks per millisecond. */
  predicate Clocked(ss: seq<State>, ticksPerMs: u32) {
    ss != [] && exists simplified: bool :: ss[0] == Initial(ticksPerMs, simplified)
  }

  lemma PeriodIsSixSeconds(ss: seq<State>, ticksPerMs: u32)
    requires Clocked(ss, ticksPerMs)
    ensures ss[0].control.pwmStop.period == 6000 * ticksPerMs % 0x1_0000_0000
    ensures 6000 * ticksPerMs < 0x1_0000_0000 ==> ss[0].control.pwmStop.period == 6000 * ticksPerMs
  {
  }

  /** The forced stop, exactly, at every step in C or D that finds the PWM stopped and the relay
      closed: there was a first such step, with no PWM seen since, and the relay survives this
      step if and only if the 32-bit clock shows less than six seconds since that first one. */
  lemma StopIsExact(ss: seq<State>, actions: seq<Action>, ticksPerMs: u32, n: nat) returns (first: nat)
    requires IsRun(ss, actions) && Clocked(ss, ticksPerMs) && 6000 * ticksPerMs < 0x1_0000_0000
    requires n < |actions| && Stopped(ss[n], actions[n]) && !Log(ss[n + 1].trace).refusedOff
    ensures first <= n && StopSeen(ss[first].control, actions[first]) && Stopped(ss[first], actions[first])
    ensures NoPwmBetween(ss, actions, first, n + 1)
    ensures ss[n + 1].hardware.relay <==>
      (actions[n].input.pwmCheckTime - actions[first].input.pwmStartTime) % 0x1_0000_0000 < 6000 * ticksPerMs
  {
    first := StopAfterPeriod(ss, actions, n);
    PeriodIsSixSeconds(ss, ticksPerMs);
    TicksBetween(actions[n].input.pwmCheckTime, actions[first].input.pwmStartTime);
  }

  /** The 32-bit difference of two readings is that of the true times. */
  lemma TicksBetween(later: nat, earlier: nat)
    ensures (Ticks(later) - Ticks(earlier)) % TWO_32 == (later - earlier) % 0x1_0000_0000
  {
  }

  /** No step that finds the PWM stopped leaves the relay closed six seconds or more after the
      first one to do so: whatever the run, as long as the relay never failed to open. */
  lemma StoppedRelayIsYoung(ss: seq<State>, actions: seq<Action>, ticksPerMs: u32, n: nat) returns (first: nat)
    requires IsRun(ss, actions) && Clocked(ss, ticksPerMs) && 6000 * ticksPerMs < 0x1_0000_0000
    requires n < |actions| && Processes(ss[n].control, actions[n]) && !ss[n].control.pwm
    requires ss[n + 1].hardware.relay && !Log(ss[n + 1].trace).refusedOff
    ensures first <= n && Stopped(ss[first], actions[first]) && NoPwmBetween(ss, actions, first, n + 1)
    ensures (actions[n].input.pwmCheckTime - actions[first].input.pwmStartTime) % 0x1_0000_0000 < 6000 * ticksPerMs
  {
    first := YoungerThanPeriod(ss, actions, n);
    PeriodIsSixSeconds(ss, ticksPerMs);
    TicksBetween(actions[n].input.pwmCheckTime, actions[first].input.pwmStartTime);
  }

  /** IEC 61851-1 Table A.6, sequence 10.2. From six seconds after the first step in C or D that
      finds the PWM stopped with the relay closed, until the clock wraps around to the same
      reading, every step with a stable signal leaves the relay open, whatever states and
      commands came in between, unless a step saw the PWM running again. */
  lemma ForcedStop(ss: seq<State>, actions: seq<Action>, ticksPerMs: u32, first: nat, later: nat)
    requires IsRun(ss, actions) && Clocked(ss, ticksPerMs) && 6000 * ticksPerMs < 0x1_0000_0000
    requires first < later < |actions| && FirstStopped(ss, actions, first)
    requires NoPwmBetween(ss, actions, first, later + 1)
    requires Processes(ss[later].control, actions[later])
    requires var t0, time := actions[first].input.pwmStartTime, actions[later].input.pwmCheckTime;
      t0 + 6000 * ticksPerMs <= time < t0 + 0x1_0000_0000
    requires !Log(ss[later + 1].trace).refusedOff
    ensures !ss[later + 1].hardware.relay
  {
    PeriodIsSixSeconds(ss, ticksPerMs);
    OpenAfterPeriod(ss, actions, first, later);
  }

  // ---------- Permission is a function of history ----------

  predicate RevokesPwm(c: Control, a: Action) {
    a.Enable? || a.Disable? || a.SetPwmOff? || a.SetPwmF? || (Processes(c, a) && (SeenBy(c, a) == A || SeenBy(c, a) == E))
  }

  predicate RevokesPermission(c: Control, a: Action) {
    RevokesPwm(c, a) || a == AllowPowerOn(false) || (Processes(c, a) && SeenBy(c, a) == Disabled)
  }

  /** The PWM was switched on at some point and nothing has revoked that since. */
  predicate LivePwm(ss: seq<State>, actions: seq<Action>, n: nat)
    requires n <= |actions| < |ss|
  {
    exists g :: 0 <= g < n && actions[g].SetPwmOn? && forall k :: g < k < n ==> !RevokesPwm(ss[k].control, actions[k])
  }

  predicate LivePermission(ss: seq<State>, actions: seq<Action>, n: nat)
    requires n <= |actions| < |ss|
  {
    exists g :: 0 <= g < n && actions[g] == AllowPowerOn(true) &&
      forall k :: g < k < n ==> !RevokesPermission(ss[k].control, actions[k])
  }

  lemma {:induction false} PermissionIsHistory(ss: seq<State>, actions: seq<Action>, n: nat)
    requires IsRun(ss, actions) && n <= |actions|
    ensures ss[n].control.allowed <==> LivePermission(ss, actions, n)
    decreases n
  {
    if n > 0 {
      var c, a := ss[n - 1].control, actions[n - 1];
      PermissionIsHistory(ss, actions, n - 1);
      Refines(ss, actions, n - 1);
      PermissionStep(ss, actions, n - 1);
      assert ControlAfter(c, a).allowed <==> a == AllowPowerOn(true) || (c.allowed && !RevokesPermission(c, a));
    }
  }

  lemma PermissionStep(ss: seq<State>, actions: seq<Action>, n: nat)
    requires IsRun(ss, actions) && n < |actions|
    ensures LivePermission(ss, actions, n + 1) <==> (
      actions[n] == AllowPowerOn(true) ||
      (LivePermission(ss, actions, n) && !RevokesPermission(ss[n].control, actions[n])))
  {
    if actions[n] == AllowPowerOn(true) {
      assert 0 <= n < n + 1 && actions[n] == AllowPowerOn(true);
    }
  }

  lemma {:induction false} PwmIsHistory(ss: seq<State>, actions: seq<Action>, n: nat)
    requires IsRun(ss, actions) && n <= |actions|
    ensures ss[n].control.pwm <==> LivePwm(ss, actions, n)
    decreases n
  {
    if n > 0 {
      var c, a := ss[n - 1].control, actions[n - 1];
      PwmIsHistory(ss, actions, n - 1);
      Refines(ss, actions, n - 1);
      PwmStep(ss, actions, n - 1);
      assert ControlAfter(c, a).pwm <==> a.SetPwmOn? || (c.pwm && !RevokesPwm(c, a));
    }
  }

  lemma PwmStep(ss: seq<State>, actions: seq<Action>, n: nat)
    requires IsRun(ss, actions) && n < |actions|
    ensures LivePwm(ss, actions, n + 1) <==> (
      actions[n].SetPwmOn? || (LivePwm(ss, actions, n) && !RevokesPwm(ss[n].control, actions[n])))
  {
    if actions[n].SetPwmOn? {
      assert 0 <= n < n + 1 && actions[n].SetPwmOn?;
    }
  }

  /** An open relay closes, and PowerOn is emitted, exactly in a step that finds the vehicle
      ready with both grants live, in state D only with ventilation, if the relay obeys. */
  lemma ClosesExactly(ss: seq<State>, actions: seq<Action>, n: nat)
    requires IsRun(ss, actions) && n < |actions| && !ss[n].hardware.relay
    ensures var c, a := ss[n].control, actions[n];
      ss[n + 1].hardware.relay <==>
        Processes(c, a) && a.input.closes && LivePermission(ss, actions, n) && LivePwm(ss, actions, n) &&
        (SeenBy(c, a) == C || (SeenBy(c, a) == D && c.ventilation))
  {
    var s, a := ss[n], actions[n];
    PermissionIsHistory(ss, actions, n);
    PwmIsHistory(ss, actions, n);
    Refines(ss, actions, n);
  }
}
