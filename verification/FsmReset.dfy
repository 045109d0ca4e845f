/** When unplugging resets the emergency switch: a matter of the country's rules. */
module FsmReset {
  import opened Fsm
  import opened FsmRuns
  import opened FsmSafety

  /** What resetting depends on and what it does. */
  datatype Reclosing = Reclosing(allowed: bool, resets: nat)

  function ReclosingOf(s: State): Reclosing {
    Reclosing(s.session.reclosing, s.hardware.resets)
  }

  /** A processed step resets exactly when it reports an unplugged vehicle and may. */
  function Reset(r: Reclosing, prev: CPState, seen: CPState): Reclosing {
    r.(resets := r.resets + if seen == A && Leaves(prev) && r.allowed then 1 else 0)
  }

  lemma SwitchesKeep(s: State, i: Input)
    ensures ReclosingOf(SwitchOn(s, i)) == ReclosingOf(s) && ReclosingOf(SwitchOff(s, i)) == ReclosingOf(s)
  {
  }

  lemma ProcessResets(s: State, i: Input)
    ensures ReclosingOf(Process(s, i)) == Reset(ReclosingOf(s), s.control.prev, s.control.cur)
  {
    match s.control.cur
    case Disabled =>
    case A => ResetsInA(s, i);
    case B =>
    case C =>
    case D =>
    case E =>
    case F =>
    case DF =>
  }

  lemma ResetsInA(s: State, i: Input)
    ensures ReclosingOf(InA(s, i)) == Reset(ReclosingOf(s), s.control.prev, A)
  {
    SwitchesKeep(EmitIf(Idle(s), true, CarRequestedStopPower), i);
  }

  lemma StepResets(s: State, a: Action)
    ensures ReclosingOf(Act(s, a)) ==
      if Processes(s.control, a) then Reset(ReclosingOf(s), s.control.prev, SeenBy(s.control, a))
      else if a.SetCountryCode? then Reclosing(Lenient(a), s.hardware.resets)
      else ReclosingOf(s)
  {
    if Processes(s.control, a) {
      ProcessResets(WithState(Checks(s, a.input), SeenBy(s.control, a)), a.input);
    }
  }

  /** A country in which the breaker may reclose by itself. */
  predicate Lenient(a: Action) {
    a.SetCountryCode? && a.code != "CH" && a.code != "DK" && a.code != "GB" && a.code != "FR"
  }

  /** The latest country set, if any, is such a one. */
  predicate CountryAllows(actions: seq<Action>, n: nat)
    requires n <= |actions|
  {
    exists g :: 0 <= g < n && Lenient(actions[g]) && forall k :: g < k < n ==> !actions[k].SetCountryCode?
  }

  lemma CountryStep(actions: seq<Action>, n: nat)
    requires n < |actions|
    ensures CountryAllows(actions, n + 1) <==>
      if actions[n].SetCountryCode? then Lenient(actions[n]) else CountryAllows(actions, n)
  {
    if Lenient(actions[n]) {
      assert 0 <= n < n + 1 && Lenient(actions[n]);
    }
  }

  /** The flag is a function of history: no country, no reclosing. */
  lemma {:induction false} ReclosingIsHistory(ss: seq<State>, actions: seq<Action>, n: nat)
    requires IsRun(ss, actions) && n <= |actions|
    ensures ss[n].session.reclosing <==> CountryAllows(actions, n)
    decreases n
  {
    if n > 0 {
      ReclosingIsHistory(ss, actions, n - 1);
      assert Follows(ss, actions, n - 1);
      StepResets(ss[n - 1], actions[n - 1]);
      CountryStep(actions, n - 1);
    }
  }

  /** The emergency switch is reset exactly in the steps that report an unplugged vehicle while
      the latest country set allows reclosing: never before a country is set, and never after
      CH, DK, GB or FR until another one is. */
  lemma ResetsExactly(ss: seq<State>, actions: seq<Action>, n: nat)
    requires IsRun(ss, actions) && n < |actions|
    ensures var c, a := ss[n].control, actions[n];
      ss[n + 1].hardware.resets == ss[n].hardware.resets +
        if Processes(c, a) && SeenBy(c, a) == A && c.prev !in {A, Disabled, F} && CountryAllows(actions, n) then 1 else 0
  {
    ReclosingIsHistory(ss, actions, n);
    assert Follows(ss, actions, n);
    StepResets(ss[n], actions[n]);
  }
}
