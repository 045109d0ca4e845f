/** From samples to the relay: the counts of the converter as volts, what they mean to the
    charging state machine, and on which samples it closes the relay. */
module PilotVoltage {
  import opened RingBuffer
  import opened Sampler
  import opened Fsm
  import opened FsmRuns
  import opened FsmSafety
  import opened FsmHistory
  import opened FsmSignal

  /** The voltage divider in front of the converter, and its reference. */
  const R1 := 200.0
  const R2 := 56.0
  const R3 := 66.5
  const REFERENCE := 3.3

  const PARALLEL := 1.0 / (1.0 / R1 + 1.0 / R2 + 1.0 / R3)
  const SCALE := R1 / PARALLEL * REFERENCE
  const OFFSET := -REFERENCE * R1 / R2

  /** The pilot voltage that a twelve-bit reading stands for. */
  function Volts(counts: u16): real {
    OFFSET + SCALE * counts as real / 4096.0
  }

  /** get_latest_cp_signal. An invalid signal carries whatever voltages memory held. */
  function LatestCpSignal(raw: RawCpSignal, garbage: Signal): Signal {
    if raw.valid then Signal(true, Volts(raw.high), Volts(raw.low)) else garbage.(valid := false)
  }

  lemma VoltsAre(counts: u16)
    ensures Volts(counts) == (3326.4 * counts as real / 4096.0 - 1567.5) / 133.0
  {
    assert 1.0 / R1 + 1.0 / R2 + 1.0 / R3 == 1008.0 / 26600.0;
    assert SCALE == 3326.4 / 133.0;
    assert OFFSET == -1567.5 / 133.0;
  }

  /** The windows around the nominal voltages, in counts. The lowest reading is -11.8 V. */
  lemma WindowsInCounts(counts: u16)
    ensures 10.9 < Volts(counts) < 13.1 <==> 3716 <= counts <= 4075
    ensures 7.9 < Volts(counts) < 10.1 <==> 3224 <= counts <= 3584
    ensures 4.9 < Volts(counts) < 7.1 <==> 2733 <= counts <= 3092
    ensures 1.9 < Volts(counts) < 4.1 <==> 2242 <= counts <= 2601
    ensures -13.1 < Volts(counts) < -10.9 <==> counts <= 145
    ensures -1.1 < Volts(counts) < 1.1 <==> 1751 <= counts <= 2110
  {
    VoltsAre(counts);
  }

  lemma CancellationInCounts(high: u16, low: u16)
    ensures -1.1 < Volts(high) + Volts(low) < 1.1 <==> 3681 <= high + low <= 4040
  {
    VoltsAre(high);
    VoltsAre(low);
  }

  /** What a step sees in the signal published for two histories of samples: the state that
      the means of the last ten samples lie in, if these are trustworthy. */
  lemma SeesInCounts(ss: seq<State>, actions: seq<Action>, n: nat, raw: RawCpSignal, garbage: Signal,
                     high: seq<u16>, low: seq<u16>)
    requires IsRun(ss, actions) && n < |actions| && actions[n].Run?
    requires Reports(raw, high, low) && actions[n].input.signal == LatestCpSignal(raw, garbage)
    ensures var c, a := ss[n].control, actions[n];
      if Trustworthy(high) && Trustworthy(low) && Enabled(actions, n) then
        var h, l := MeanOfTen(high), MeanOfTen(low);
        if LivePwm(ss, actions, n) && l > 145 then
          var gone := 1751 <= l <= 2110 && 1751 <= h <= 2110;
          && (Sees(c, a, E) <==> gone)
          && (Sees(c, a, DF) <==> 3681 <= h + l <= 4040 && !gone)
        else
          && (Sees(c, a, A) <==> 3716 <= h <= 4075)
          && (Sees(c, a, B) <==> 3224 <= h <= 3584)
          && (Sees(c, a, C) <==> 2733 <= h <= 3092)
          && (Sees(c, a, D) <==> 2242 <= h <= 2601)
          && (Sees(c, a, F) <==> h <= 145)
      else forall p :: Sees(c, a, p) ==> p == Disabled
  {
    SeesInVolts(ss, actions, n);
    FaultsInVolts(ss, actions, n);
    if raw.valid {
      WindowsInCounts(raw.high);
      WindowsInCounts(raw.low);
      CancellationInCounts(raw.high, raw.low);
    }
  }

  /** An open relay closes exactly where the last ten samples are trustworthy in either phase,
      the low ones near the lowest reading, the high ones around 6 V, or with ventilation
      around 3 V, with PWM and permission live, if the relay obeys. */
  lemma ClosesOnSamples(ss: seq<State>, actions: seq<Action>, n: nat, raw: RawCpSignal, garbage: Signal,
                        high: seq<u16>, low: seq<u16>)
    requires IsRun(ss, actions) && n < |actions| && actions[n].Run? && !ss[n].hardware.relay
    requires Reports(raw, high, low) && actions[n].input.signal == LatestCpSignal(raw, garbage)
    ensures ss[n + 1].hardware.relay <==>
      && actions[n].input.closes && Enabled(actions, n) && LivePwm(ss, actions, n) && LivePermission(ss, actions, n)
      && Trustworthy(high) && Trustworthy(low) && MeanOfTen(low) <= 145
      && var h := MeanOfTen(high);
        2733 <= h <= 3092 || (2242 <= h <= 2601 && Ventilated(actions, n))
  {
    ClosesInVolts(ss, actions, n);
    if raw.valid {
      WindowsInCounts(raw.high);
      WindowsInCounts(raw.low);
    }
  }
}
