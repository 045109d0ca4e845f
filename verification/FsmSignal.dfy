/** What the pilot signal means, in volts, and on which voltages the relay closes. */
module FsmSignal {
  import opened Words
  import opened Fsm
  import opened FsmRuns
  import opened FsmSafety
  import opened FsmHistory

  /** With the PWM stopped, or running down to -12 V, the high half tells the state. */
  lemma HighHalfTells(c: Control, a: Action)
    requires a.Run? && a.input.signal.valid && c.cur != Disabled
    requires !c.pwm || -13.1 < a.input.signal.low < -10.9
    ensures var high := a.input.signal.high;
      && (Sees(c, a, A) <==> 10.9 < high < 13.1)
      && (Sees(c, a, B) <==> 7.9 < high < 10.1)
      && (Sees(c, a, C) <==> 4.9 < high < 7.1)
      && (Sees(c, a, D) <==> 1.9 < high < 4.1)
      && (Sees(c, a, F) <==> -13.1 < high < -10.9)
      && !Sees(c, a, E) && !Sees(c, a, DF) && !Sees(c, a, Disabled)
  {
    var high := a.input.signal.high;
    assert Processes(c, a) ==> SeenBy(c, a) in {A, B, C, D, F};
  }

  /** A running PWM that does not come down to -12 V is a fault, or no state at all. */
  lemma LowHalfTells(c: Control, a: Action)
    requires a.Run? && a.input.signal.valid && c.cur != Disabled
    requires c.pwm && !(-13.1 < a.input.signal.low < -10.9)
    ensures var high, low := a.input.signal.high, a.input.signal.low;
      && (Sees(c, a, E) <==> -1.1 < low < 1.1 && -1.1 < high < 1.1)
      && (Sees(c, a, DF) <==> -1.1 < high + low < 1.1 && !(-1.1 < low < 1.1 && -1.1 < high < 1.1))
      && (Processes(c, a) <==> Sees(c, a, E) || Sees(c, a, DF))
  {
  }

  /** In every run, what a step sees is a matter of the voltages, of whether the controller is
      enabled and of whether the PWM runs, both as the history tells. */
  lemma SeesInVolts(ss: seq<State>, actions: seq<Action>, n: nat)
    requires IsRun(ss, actions) && n < |actions| && actions[n].Run?
    ensures var c, a, cp := ss[n].control, actions[n], actions[n].input.signal;
      var on, fell := cp.valid && Enabled(actions, n), !LivePwm(ss, actions, n) || -13.1 < cp.low < -10.9;
      && (Sees(c, a, A) <==> on && fell && 10.9 < cp.high < 13.1)
      && (Sees(c, a, B) <==> on && fell && 7.9 < cp.high < 10.1)
      && (Sees(c, a, C) <==> on && fell && 4.9 < cp.high < 7.1)
      && (Sees(c, a, D) <==> on && fell && 1.9 < cp.high < 4.1)
      && (Sees(c, a, F) <==> on && fell && -13.1 < cp.high < -10.9)
  {
    var c, a, cp := ss[n].control, actions[n], actions[n].input.signal;
    EnabledIsHistory(ss, actions, n);
    PwmIsHistory(ss, actions, n);
    if cp.valid && c.cur != Disabled {
      if !c.pwm || -13.1 < cp.low < -10.9 {
        HighHalfTells(c, a);
      } else {
        LowHalfTells(c, a);
      }
    }
  }

  lemma FaultsInVolts(ss: seq<State>, actions: seq<Action>, n: nat)
    requires IsRun(ss, actions) && n < |actions| && actions[n].Run?
    ensures var c, a, cp := ss[n].control, actions[n], actions[n].input.signal;
      var stuck := cp.valid && Enabled(actions, n) && LivePwm(ss, actions, n) && !(-13.1 < cp.low < -10.9);
      && (Sees(c, a, E) <==> stuck && -1.1 < cp.low < 1.1 && -1.1 < cp.high < 1.1)
      && (Sees(c, a, DF) <==> stuck && -1.1 < cp.high + cp.low < 1.1 && !(-1.1 < cp.low < 1.1 && -1.1 < cp.high < 1.1))
      && (Sees(c, a, Disabled) <==> cp.valid && !Enabled(actions, n))
  {
    var c, a, cp := ss[n].control, actions[n], actions[n].input.signal;
    EnabledIsHistory(ss, actions, n);
    PwmIsHistory(ss, actions, n);
    if cp.valid && c.cur != Disabled {
      if !c.pwm || -13.1 < cp.low < -10.9 {
        HighHalfTells(c, a);
      } else {
        LowHalfTells(c, a);
      }
    }
  }

  /** What a step sees is the state that it leaves, current and previous; a step that sees none
      leaves both. */
  lemma SeenIsLeft(ss: seq<State>, actions: seq<Action>, n: nat)
    requires IsRun(ss, actions) && n < |actions| && actions[n].Run?
    ensures forall p :: Sees(ss[n].control, actions[n], p) ==> ss[n + 1].control.cur == ss[n + 1].control.prev == p
    ensures (forall p :: !Sees(ss[n].control, actions[n], p)) ==> ss[n + 1].control == ss[n].control
  {
    var c, a := ss[n].control, actions[n];
    Refines(ss, actions, n);
    assert Processes(c, a) ==> Sees(c, a, SeenBy(c, a));
  }

  /** An open relay closes exactly in a step with a stable signal that shows a vehicle ready,
      at 6 V, or with ventilation at 3 V, above a PWM that comes down to -12 V; with PWM and
      permission granted and not revoked since; if the relay obeys. */
  lemma ClosesInVolts(ss: seq<State>, actions: seq<Action>, n: nat)
    requires IsRun(ss, actions) && n < |actions| && !ss[n].hardware.relay
    ensures ss[n + 1].hardware.relay <==>
      && actions[n].Run? && actions[n].input.signal.valid && actions[n].input.closes
      && Enabled(actions, n) && LivePwm(ss, actions, n) && LivePermission(ss, actions, n)
      && -13.1 < actions[n].input.signal.low < -10.9
      && var high := actions[n].input.signal.high;
        4.9 < high < 7.1 || (1.9 < high < 4.1 && Ventilated(actions, n))
  {
    ClosesExactly(ss, actions, n);
    VentilationIsHistory(ss, actions, n);
    if actions[n].Run? {
      SeesInVolts(ss, actions, n);
    }
  }

  /** A step that sees 12 V, 9 V or -12 V leaves the relay open, and so does one in which the
      PWM fails to come down and the voltages cancel, and any while disabled. */
  lemma OpensInVolts(ss: seq<State>, actions: seq<Action>, n: nat)
    requires IsRun(ss, actions) && n < |actions| && actions[n].Run? && actions[n].input.signal.valid
    requires !Log(ss[n + 1].trace).refusedOff
    requires var high, low := actions[n].input.signal.high, actions[n].input.signal.low;
      if !Enabled(actions, n) then true
      else if LivePwm(ss, actions, n) && !(-13.1 < low < -10.9) then
        (-1.1 < low < 1.1 && -1.1 < high < 1.1) || -1.1 < high + low < 1.1
      else 10.9 < high < 13.1 || 7.9 < high < 10.1 || -13.1 < high < -10.9
    ensures !ss[n + 1].hardware.relay
  {
    SeesInVolts(ss, actions, n);
    FaultsInVolts(ss, actions, n);
    OpenOutsideCharging(ss, actions, n);
  }
}
