/** The Sampler: the interrupt handlers and the task's accesses as methods that follow the
    protocol, and the publication of the averaged pilot signal. */
module Sampler {
  import opened RingBuffer
  import opened SamplerProtocol

  const SPI_BURST_ADC_READS := 3

  datatype CombinedAdcSample = CombinedAdcSample(cp: u16, pp: u16)

  /** The buffer that interrupts fill and the task empties. */
  class SampleExchange {
    var sampleBufFree: bool
    var newSampleAvailable: bool
    var writeAccessAcquired: bool
    var tbd: Phase
    var highDone: bool
    var lowDone: bool
    var transferBusy: bool
    const highSamples: array<u16>
    const lowSamples: array<u16>

    /** What the task has decoded. */
    var highSample: CombinedAdcSample
    var lowSample: CombinedAdcSample

    ghost var memory: Memory
    ghost var task: Task
    ghost var ledger: Ledger

    /** The bursts that each acquisition delivered. */
    ghost var highBursts: map<nat, seq<u16>>
    ghost var lowBursts: map<nat, seq<u16>>

    ghost function View(): State
      reads this
    {
      State(Semaphores(sampleBufFree, newSampleAvailable),
        Writer(writeAccessAcquired, tbd, highDone, lowDone, transferBusy), memory, task, ledger)
    }

    /** A half of acquisition k holds the burst that k delivered. */
    ghost predicate Holds(half: Half, samples: seq<u16>, bursts: map<nat, seq<u16>>) {
      |samples| == 3 && (half.From? && half.acquisition > 0 ==>
        half.acquisition in bursts && bursts[half.acquisition] == samples)
    }

    ghost predicate Decoded(half: Half, sample: CombinedAdcSample, bursts: map<nat, seq<u16>>) {
      half.From? && half.acquisition in bursts && |bursts[half.acquisition]| == 3 &&
      sample == CombinedAdcSample(bursts[half.acquisition][1], bursts[half.acquisition][2])
    }

    ghost predicate Valid()
      reads this, highSamples, lowSamples
    {
      && highSamples != lowSamples
      && Inv(View())
      && Holds(memory.high, highSamples[..], highBursts)
      && Holds(memory.low, lowSamples[..], lowBursts)
      && (task.ReadLow? ==> Decoded(task.high, highSample, highBursts))
      && (task.GiveBuffer? ==> Decoded(task.high, highSample, highBursts) && Decoded(task.low, lowSample, lowBursts))
    }

    /** `transaction.status` starts out completed. */
    constructor ()
      ensures Valid() && View() == INITIAL && fresh(highSamples) && fresh(lowSamples)
    {
      sampleBufFree, newSampleAvailable := true, false;
      writeAccessAcquired, tbd, highDone, lowDone, transferBusy := false, High, false, false, false;
      highSamples, lowSamples := new u16[3], new u16[3];
      highSample, lowSample := CombinedAdcSample(0, 0), CombinedAdcSample(0, 0);
      memory, task, ledger := INITIAL.memory, INITIAL.task, INITIAL.ledger;
      highBursts, lowBursts := map[], map[];
    }

    // ---------- Interrupt handlers ----------

    method AcquireWriteAccess() returns (ok: bool)
      modifies this`sampleBufFree
      ensures ok == old(sampleBufFree) && !sampleBufFree
    {
      ok := sampleBufFree;
      sampleBufFree := false;
    }

    /** The end of trigger_adc_readout: the transfer goes to the half of the phase. */
    method BeginTransfer(isHigh: bool)
      modifies this`tbd, this`memory, this`transferBusy, this`ledger
      ensures View() == StartTransfer(old(View()), if isHigh then High else Low)
    {
      tbd := if isHigh then High else Low;
      memory := if tbd == High then memory.(high := Torn) else memory.(low := Torn);
      transferBusy := true;
      ledger := Begin(ledger, tbd);
    }

    /** The beginning of a fresh sample. */
    method StartSample()
      modifies this`writeAccessAcquired, this`highDone, this`lowDone, this`ledger
      ensures writeAccessAcquired && !highDone && !lowDone && ledger == old(ledger).(started := old(ledger).started + 1)
    {
      writeAccessAcquired := true;
      highDone := false;
      lowDone := false;
      ledger := ledger.(started := ledger.started + 1);
    }

    /** trigger_adc_readout. */
    method HandleTimer(isHigh: bool)
      modifies this`sampleBufFree, this`writeAccessAcquired, this`tbd, this`highDone, this`lowDone, this`transferBusy
      modifies this`memory, this`ledger
      ensures View() == OnTimer(old(View()), isHigh)
    {
      if transferBusy {
        return;
      }
      if !writeAccessAcquired {
        var ok := AcquireWriteAccess();
        if !ok {
          return;
        }
        StartSample();
      } else if (highDone && isHigh) || (lowDone && !isHigh) {
        return;
      }
      BeginTransfer(isHigh);
    }

    /** trigger_high and trigger_low. A transfer in flight is left alone: nothing changes. A
        transfer that begins is of the event's own phase. */
    method TriggerAdcReadout(isHigh: bool)
      requires Valid()
      modifies this`sampleBufFree, this`writeAccessAcquired, this`tbd, this`highDone, this`lowDone, this`transferBusy
      modifies this`memory, this`ledger
      ensures Valid() && View() == OnTimer(old(View()), isHigh)
      ensures old(transferBusy) ==> View() == old(View())
      ensures transferBusy && !old(transferBusy) ==> tbd == if isHigh then High else Low
    {
      TimerKeepsInv(View(), isHigh);
      HandleTimer(isHigh);
    }

    /** release_adc_sample_write_access. */
    method ReleaseWriteAccess()
      modifies this`writeAccessAcquired, this`sampleBufFree, this`newSampleAvailable, this`ledger
      ensures !writeAccessAcquired && sampleBufFree && newSampleAvailable
      ensures ledger == old(ledger).(completed := old(ledger).completed + 1)
    {
      writeAccessAcquired := false;
      sampleBufFree := true;
      newSampleAvailable := true;
      ledger := ledger.(completed := ledger.completed + 1);
    }

    /** adc_spi_cb. */
    method AdcSpiCallback()
      modifies this`sampleBufFree, this`newSampleAvailable, this`writeAccessAcquired, this`highDone, this`lowDone
      modifies this`transferBusy, this`ledger
      ensures View() == Finished(old(View()))
    {
      transferBusy := false;
      if tbd == High {
        highDone := true;
      } else if tbd == Low {
        lowDone := true;
      }
      if lowDone && highDone {
        ReleaseWriteAccess();
      }
    }

    /** The transfer writes the half of the phase being sampled. */
    method Receive(burst: seq<u16>)
      requires Valid() && transferBusy && |burst| == 3
      modifies this`memory, this`ledger, this`highBursts, this`lowBursts, highSamples, lowSamples
      ensures View() == Delivered(old(View()))
      ensures Holds(memory.high, highSamples[..], highBursts) && Holds(memory.low, lowSamples[..], lowBursts)
      ensures highBursts == if tbd == High then old(highBursts)[ledger.started := burst] else old(highBursts)
      ensures lowBursts == if tbd == Low then old(lowBursts)[ledger.started := burst] else old(lowBursts)
    {
      if tbd == High {
        highSamples[0], highSamples[1], highSamples[2] := burst[0], burst[1], burst[2];
        assert highSamples[..] == burst;
        memory := memory.(high := From(ledger.started));
        highBursts := highBursts[ledger.started := burst];
      } else {
        lowSamples[0], lowSamples[1], lowSamples[2] := burst[0], burst[1], burst[2];
        assert lowSamples[..] == burst;
        memory := memory.(low := From(ledger.started));
        lowBursts := lowBursts[ledger.started := burst];
      }
      ledger := Deliver(ledger, tbd);
    }

    /** A burst arrives, and the callback runs. */
    method CompleteTransfer(burst: seq<u16>)
      requires Valid() && transferBusy && |burst| == SPI_BURST_ADC_READS
      modifies this`sampleBufFree, this`newSampleAvailable, this`writeAccessAcquired, this`highDone, this`lowDone
      modifies this`transferBusy, this`memory, this`ledger, this`highBursts, this`lowBursts, highSamples, lowSamples
      ensures Valid() && View() == OnSpiDone(old(View()))
      ensures highBursts == if old(tbd) == High then old(highBursts)[old(ledger).started := burst] else old(highBursts)
      ensures lowBursts == if old(tbd) == Low then old(lowBursts)[old(ledger).started := burst] else old(lowBursts)
    {
      SpiKeepsInv(View());
      Receive(burst);
      AdcSpiCallback();
    }

    // ---------- The task's accesses, in the order of its loop ----------

    method TakeNewSample() returns (ok: bool)
      requires Valid() && task.TakeWake?
      modifies this`newSampleAvailable, this`task
      ensures Valid() && ok == old(newSampleAvailable)
      ensures View() == if ok then OnTask(old(View())) else old(View())
    {
      ok := newSampleAvailable;
      if ok {
        TaskKeepsInv(View());
        newSampleAvailable := false;
        task := TakeBuffer;
      }
    }

    method TakeSampleBuf() returns (ok: bool)
      requires Valid() && task.TakeBuffer?
      modifies this`sampleBufFree, this`task
      ensures Valid() && ok == old(sampleBufFree)
      ensures View() == if ok then OnTask(old(View())) else old(View())
    {
      ok := sampleBufFree;
      if ok {
        TaskKeepsInv(View());
        sampleBufFree := false;
        task := ReadHigh;
      }
    }

    /** decode_burst_adc_samples on the high half. */
    method DecodeHigh()
      requires Valid() && task.ReadHigh?
      modifies this`highSample, this`task
      ensures Valid() && View() == OnTask(old(View()))
    {
      TaskKeepsInv(View());
      highSample := CombinedAdcSample(highSamples[1], highSamples[2]);
      task := ReadLow(memory.high);
    }

    /** decode_burst_adc_samples on the low half. What the task now holds are the second and
        third sample of both bursts of the latest completed acquisition. */
    method DecodeLow()
      requires Valid() && task.ReadLow?
      modifies this`lowSample, this`task, this`ledger
      ensures Valid() && View() == OnTask(old(View()))
      ensures ledger.completed in highBursts && ledger.completed in lowBursts
      ensures var high, low := highBursts[ledger.completed], lowBursts[ledger.completed];
        |high| == |low| == 3 &&
        highSample == CombinedAdcSample(high[1], high[2]) && lowSample == CombinedAdcSample(low[1], low[2])
    {
      TaskKeepsInv(View());
      lowSample := CombinedAdcSample(lowSamples[1], lowSamples[2]);
      ledger := ledger.(pairs := ledger.pairs + [(task.high, memory.low)]);
      task := GiveBuffer(task.high, memory.low);
    }

    method GiveSampleBuf()
      requires Valid() && task.GiveBuffer?
      modifies this`sampleBufFree, this`task
      ensures Valid() && View() == OnTask(old(View()))
    {
      TaskKeepsInv(View());
      sampleBufFree := true;
      task := Publish(task.high, task.low);
    }

    /** The end of the loop, after the publication. */
    method EndLoop()
      requires Valid() && task.Publish?
      modifies this`task
      ensures Valid() && View() == OnTask(old(View()))
    {
      TaskKeepsInv(View());
      task := TakeWake;
    }

    // ---------- The task among interrupts ----------

    /** What completed acquisitions delivered stays on record. */
    twostate predicate RecordKept()
      reads this
    {
      && ledger.completed >= old(ledger.completed)
      && Kept(old(highBursts), highBursts, old(ledger.completed)) && Kept(old(lowBursts), lowBursts, old(ledger.completed))
    }

    /** Interrupts leave alone what the task has read. */
    twostate predicate TaskUndisturbed()
      reads this
    {
      && RecordKept() && ledger.pairs == old(ledger.pairs)
      && task == old(task) && highSample == old(highSample) && lowSample == old(lowSample)
    }

    /** What the task holds comes from one acquisition. */
    ghost predicate HoldsFrame(frame: nat)
      reads this
    {
      frame <= ledger.completed && SampledFrom(frame, highSample, lowSample, highBursts, lowBursts)
    }

    /** Any interrupts, one after the other. A completion without a transfer does not occur. */
    method HandleInterrupts(irqs: seq<Interrupt>)
      requires Valid()
      modifies this`sampleBufFree, this`newSampleAvailable, this`writeAccessAcquired, this`tbd, this`highDone, this`lowDone
      modifies this`transferBusy, this`memory, this`ledger, this`highBursts, this`lowBursts, highSamples, lowSamples
      ensures Valid() && TaskUndisturbed()
    {
      for n := 0 to |irqs|
        invariant Valid() && TaskUndisturbed()
      {
        HandleInterrupt(irqs[n]);
      }
    }

    method HandleInterrupt(irq: Interrupt)
      requires Valid()
      modifies this`sampleBufFree, this`newSampleAvailable, this`writeAccessAcquired, this`tbd, this`highDone, this`lowDone
      modifies this`transferBusy, this`memory, this`ledger, this`highBursts, this`lowBursts, highSamples, lowSamples
      ensures Valid() && TaskUndisturbed()
    {
      match irq
      case TimerIrq(isHigh) =>
        TriggerAdcReadout(isHigh);
      case SpiIrq(burst) =>
        if transferBusy && |burst| == SPI_BURST_ADC_READS {
          CompleteTransfer(burst);
        }
    }

    method DecodeHighAmid(irqs: seq<Interrupt>)
      requires Valid() && task.ReadHigh?
      modifies this, highSamples, lowSamples
      ensures Valid() && RecordKept() && task.ReadLow? && ledger.pairs == old(ledger.pairs)
    {
      HandleInterrupts(irqs);
      DecodeHigh();
    }

    method DecodeLowAmid(irqs: seq<Interrupt>) returns (ghost frame: nat)
      requires Valid() && task.ReadLow?
      modifies this, highSamples, lowSamples
      ensures Valid() && RecordKept() && task.GiveBuffer? && HoldsFrame(frame)
      ensures ledger.pairs == old(ledger.pairs) + [(From(frame), From(frame))]
    {
      HandleInterrupts(irqs);
      DecodeLow();
      frame := ledger.completed;
    }

    method GiveSampleBufAmid(irqs: seq<Interrupt>, ghost frame: nat)
      requires Valid() && task.GiveBuffer? && HoldsFrame(frame)
      modifies this, highSamples, lowSamples
      ensures Valid() && RecordKept() && task.Publish? && HoldsFrame(frame) && ledger.pairs == old(ledger.pairs)
    {
      HandleInterrupts(irqs);
      GiveSampleBuf();
    }

    method ReadHalves(first: seq<Interrupt>, second: seq<Interrupt>) returns (ghost frame: nat)
      requires Valid() && task.ReadHigh?
      modifies this, highSamples, lowSamples
      ensures Valid() && RecordKept() && task.GiveBuffer? && HoldsFrame(frame)
      ensures ledger.pairs == old(ledger.pairs) + [(From(frame), From(frame))]
    {
      DecodeHighAmid(first);
      frame := DecodeLowAmid(second);
    }

    /** The accesses while the task owns the buffer. */
    method ReadOwned(first: seq<Interrupt>, second: seq<Interrupt>, third: seq<Interrupt>) returns (ghost frame: nat)
      requires Valid() && task.ReadHigh?
      modifies this, highSamples, lowSamples
      ensures Valid() && RecordKept() && task.Publish? && HoldsFrame(frame)
      ensures ledger.pairs == old(ledger.pairs) + [(From(frame), From(frame))]
    {
      frame := ReadHalves(first, second);
      GiveSampleBufAmid(third, frame);
    }

    method TakeNewSampleAmid(irqs: seq<Interrupt>) returns (ok: bool)
      requires Valid() && task.TakeWake?
      modifies this, highSamples, lowSamples
      ensures Valid() && RecordKept() && ledger.pairs == old(ledger.pairs)
      ensures if ok then task.TakeBuffer? else task.TakeWake?
    {
      HandleInterrupts(irqs);
      ok := TakeNewSample();
    }

    /** The semaphores of the loop; it stops where the task has to wait, and goes on there. */
    method TakeBoth(woken: bool, first: seq<Interrupt>, second: seq<Interrupt>) returns (ok: bool)
      requires Valid() && if woken then task.TakeBuffer? else task.TakeWake?
      modifies this, highSamples, lowSamples
      ensures Valid() && RecordKept() && ledger.pairs == old(ledger.pairs)
      ensures if ok then task.ReadHigh? else task.TakeWake? || task.TakeBuffer?
    {
      if !woken {
        ok := TakeNewSampleAmid(first);
        if !ok {
          return;
        }
      }
      HandleInterrupts(second);
      ok := TakeSampleBuf();
    }

    /** The loop up to giving the buffer back, with any interrupts before each access. What it
        reads is one frame, and that frame is recorded as read. */
    method ReadFrame(woken: bool, gaps: seq<seq<Interrupt>>) returns (ok: bool, ghost frame: nat)
      requires Valid() && |gaps| == 5 && if woken then task.TakeBuffer? else task.TakeWake?
      modifies this, highSamples, lowSamples
      ensures Valid() && RecordKept()
      ensures !ok ==> (task.TakeWake? || task.TakeBuffer?) && ledger.pairs == old(ledger.pairs)
      ensures ok ==> task.Publish? && HoldsFrame(frame) && ledger.pairs == old(ledger.pairs) + [(From(frame), From(frame))]
    {
      frame := 0;
      ok := TakeBoth(woken, gaps[0], gaps[1]);
      if ok {
        frame := ReadOwned(gaps[2], gaps[3], gaps[4]);
      }
    }
  }

  /** An interrupt: a timer event, or a transfer that has brought a burst. */
  datatype Interrupt = TimerIrq(isHigh: bool) | SpiIrq(burst: seq<u16>)

  /** What acquisitions up to `completed` delivered is still on record. */
  predicate Kept(was: map<nat, seq<u16>>, now: map<nat, seq<u16>>, completed: nat) {
    forall k {:trigger k in was} :: k <= completed && k in was ==> k in now && now[k] == was[k]
  }

  /** The samples are the second and third of both bursts of one acquisition. */
  predicate SampledFrom(frame: nat, highSample: CombinedAdcSample, lowSample: CombinedAdcSample,
                        highBursts: map<nat, seq<u16>>, lowBursts: map<nat, seq<u16>>) {
    && frame in highBursts && frame in lowBursts && |highBursts[frame]| == |lowBursts[frame]| == 3
    && highSample == CombinedAdcSample(highBursts[frame][1], highBursts[frame][2])
    && lowSample == CombinedAdcSample(lowBursts[frame][1], lowBursts[frame][2])
  }

  // ---------- Publication ----------

  datatype RawCpSignal = RawCpSignal(high: u16, low: u16, valid: bool)

  function Average(history: seq<u16>): (a: nat)
    ensures a < 65536
  {
    SumBound(Window(history));
    Sum(Window(history)) / 10
  }

  function StrayCount(history: seq<u16>): nat {
    Misfits(Window(history), Average(history), CP_SAMPLE_MAX_DEVIATION)
  }

  /** What the ring buffers tell of a history. */
  predicate Stable(history: seq<u16>) {
    |history| >= CP_SAMPLE_SIZE && StrayCount(history) <= CP_SAMPLE_MAX_MISFITS
  }

  /** The mean of the last ten samples, rounded down. */
  function MeanOfTen(history: seq<u16>): nat
    requires |history| >= 10
  {
    Sum(history[|history| - 10..]) / 10
  }

  /** There are ten samples, and nine of the last ten are within 400 counts of their mean. */
  predicate Trustworthy(history: seq<u16>) {
    |history| >= 10 && Near(history[|history| - 10..], MeanOfTen(history), 400) >= 9
  }

  /** A history is stable if and only if it is trustworthy. */
  lemma StableIsTrustworthy(history: seq<u16>)
    ensures Stable(history) <==> Trustworthy(history)
    ensures |history| >= 10 ==> Average(history) == MeanOfTen(history)
  {
    NearOrMisfit(Window(history), Average(history), 400);
  }

  /** What is published for a pair of histories. */
  predicate Reports(signal: RawCpSignal, high: seq<u16>, low: seq<u16>) {
    && (signal.valid <==> Trustworthy(high) && Trustworthy(low))
    && (signal.valid ==> signal.high == MeanOfTen(high) && signal.low == MeanOfTen(low))
  }

  lemma ReportsIfStable(signal: RawCpSignal, high: seq<u16>, low: seq<u16>)
    requires signal.valid <==> Stable(high) && Stable(low)
    requires signal.valid ==> signal.high == Average(high) && signal.low == Average(low)
    ensures Reports(signal, high, low)
  {
    StableIsTrustworthy(high);
    StableIsTrustworthy(low);
  }

  /** A ring buffer knows whether its history is stable. */
  lemma KnowsStable(ring: AveragingRingBuffer)
    requires ring.Valid() && ring.maxDeviation == 400
    ensures ring.misfitsCount <= CP_SAMPLE_MAX_MISFITS && ring.filled <==> Stable(ring.history)
    ensures ring.filled ==> ring.average == Average(ring.history)
  {
  }

  class SignalAverager {
    const cpHighAvg: AveragingRingBuffer
    const cpLowAvg: AveragingRingBuffer
    const ppAvg: AveragingRingBuffer
    var rawCpSignal: RawCpSignal

    ghost predicate Valid()
      reads this, cpHighAvg, cpHighAvg.values, cpLowAvg, cpLowAvg.values, ppAvg, ppAvg.values
    {
      && cpHighAvg != cpLowAvg && cpHighAvg != ppAvg && cpLowAvg != ppAvg
      && cpHighAvg.values != cpLowAvg.values && cpHighAvg.values != ppAvg.values && cpLowAvg.values != ppAvg.values
      && cpHighAvg.Valid() && cpLowAvg.Valid() && ppAvg.Valid()
      && cpHighAvg.maxDeviation == cpLowAvg.maxDeviation == 400 && ppAvg.maxDeviation == 500
    }

    /** The published signal is uninitialised until the first publication. */
    constructor (garbage: RawCpSignal)
      ensures Valid() && fresh(cpHighAvg) && fresh(cpLowAvg) && fresh(ppAvg)
      ensures fresh(cpHighAvg.values) && fresh(cpLowAvg.values) && fresh(ppAvg.values)
      ensures cpHighAvg.history == [] && cpLowAvg.history == [] && ppAvg.history == []
    {
      cpHighAvg := new AveragingRingBuffer(CP_SAMPLE_MAX_DEVIATION);
      cpLowAvg := new AveragingRingBuffer(CP_SAMPLE_MAX_DEVIATION);
      ppAvg := new AveragingRingBuffer(PP_SAMPLE_MAX_DEVIATION);
      rawCpSignal := garbage;
    }

    /** The new samples enter the averages. */
    method AddSamples(highSample: CombinedAdcSample, lowSample: CombinedAdcSample)
      requires Valid()
      modifies cpHighAvg, cpHighAvg.values, cpLowAvg, cpLowAvg.values, ppAvg, ppAvg.values
      ensures Valid()
      ensures cpHighAvg.history == old(cpHighAvg.history) + [highSample.cp]
      ensures cpLowAvg.history == old(cpLowAvg.history) + [lowSample.cp]
      ensures ppAvg.history == old(ppAvg.history) + [highSample.pp]
    {
      cpHighAvg.AddValue(highSample.cp);
      cpLowAvg.AddValue(lowSample.cp);
      ppAvg.AddValue(highSample.pp);
    }

    /** The signal is marked valid exactly if both histories are trustworthy, and then carries
        their means; otherwise the old values stay, marked invalid. */
    method UpdateSignal()
      requires Valid()
      modifies this`rawCpSignal
      ensures Valid() && Reports(rawCpSignal, cpHighAvg.history, cpLowAvg.history)
      ensures !rawCpSignal.valid ==> rawCpSignal == old(rawCpSignal).(valid := false)
    {
      KnowsStable(cpHighAvg);
      KnowsStable(cpLowAvg);
      if cpHighAvg.misfitsCount <= CP_SAMPLE_MAX_MISFITS && cpLowAvg.misfitsCount <= CP_SAMPLE_MAX_MISFITS &&
         cpHighAvg.filled && cpLowAvg.filled {
        rawCpSignal := RawCpSignal(cpHighAvg.average, cpLowAvg.average, true);
      } else {
        rawCpSignal := rawCpSignal.(valid := false);
      }
      ReportsIfStable(rawCpSignal, cpHighAvg.history, cpLowAvg.history);
    }

    /** The rest of the loop: the samples enter the averages, and the signal is published. */
    method PublishSample(highSample: CombinedAdcSample, lowSample: CombinedAdcSample)
      requires Valid()
      modifies this, cpHighAvg, cpHighAvg.values, cpLowAvg, cpLowAvg.values, ppAvg, ppAvg.values
      ensures Valid()
      ensures cpHighAvg.history == old(cpHighAvg.history) + [highSample.cp]
      ensures cpLowAvg.history == old(cpLowAvg.history) + [lowSample.cp]
      ensures ppAvg.history == old(ppAvg.history) + [highSample.pp]
      ensures Reports(rawCpSignal, cpHighAvg.history, cpLowAvg.history)
    {
      AddSamples(highSample, lowSample);
      UpdateSignal();
    }
  }

  // ---------- The loop ----------

  /** The samples that entered the averages for one pair of halves read: the pilot voltage of
      both bursts of one acquisition, and the proximity voltage of the high one. */
  predicate FromPair(pair: (Half, Half), high: u16, low: u16, pp: u16,
                     highBursts: map<nat, seq<u16>>, lowBursts: map<nat, seq<u16>>) {
    pair.0.From? && pair.1 == pair.0 && var k := pair.0.acquisition;
      k in highBursts && k in lowBursts && |highBursts[k]| == |lowBursts[k]| == 3 &&
      high == highBursts[k][1] && pp == highBursts[k][2] && low == lowBursts[k][1]
  }

  /** Sample by sample, the averaged histories are the frames that the task has read. */
  predicate Averaged(pairs: seq<(Half, Half)>, highBursts: map<nat, seq<u16>>, lowBursts: map<nat, seq<u16>>,
                     high: seq<u16>, low: seq<u16>, pp: seq<u16>) {
    && |pairs| == |high| == |low| == |pp|
    && forall j :: 0 <= j < |pairs| ==> FromPair(pairs[j], high[j], low[j], pp[j], highBursts, lowBursts)
  }

  lemma AveragedStays(pairs: seq<(Half, Half)>, completed: nat, high: seq<u16>, low: seq<u16>, pp: seq<u16>,
                      hb: map<nat, seq<u16>>, lb: map<nat, seq<u16>>, hb': map<nat, seq<u16>>, lb': map<nat, seq<u16>>)
    requires Averaged(pairs, hb, lb, high, low, pp) && ReadsSound(pairs, completed)
    requires Kept(hb, hb', completed) && Kept(lb, lb', completed)
    ensures Averaged(pairs, hb', lb', high, low, pp)
  {
    forall j | 0 <= j < |pairs|
      ensures FromPair(pairs[j], high[j], low[j], pp[j], hb', lb')
    {
      assert pairs[j].0.acquisition in hb && pairs[j].0.acquisition in lb;
    }
  }

  lemma AveragedGrows(pairs: seq<(Half, Half)>, frame: nat, high: seq<u16>, low: seq<u16>, pp: seq<u16>,
                      hb: map<nat, seq<u16>>, lb: map<nat, seq<u16>>, h: CombinedAdcSample, l: CombinedAdcSample)
    requires Averaged(pairs, hb, lb, high, low, pp) && SampledFrom(frame, h, l, hb, lb)
    ensures Averaged(pairs + [(From(frame), From(frame))], hb, lb, high + [h.cp], low + [l.cp], pp + [h.pp])
  {
  }

  /** The task's objects have no array in common. */
  ghost predicate Apart(x: SampleExchange, a: SignalAverager) {
    {x.highSamples, x.lowSamples} !! {a.cpHighAvg.values, a.cpLowAvg.values, a.ppAvg.values}
  }

  ghost predicate InStep(x: SampleExchange, a: SignalAverager)
    reads x, a.cpHighAvg, a.cpLowAvg, a.ppAvg
  {
    Averaged(x.ledger.pairs, x.highBursts, x.lowBursts, a.cpHighAvg.history, a.cpLowAvg.history, a.ppAvg.history)
  }

  /** One iteration of the loop, with any interrupts before each access. It publishes, or it
      stops where the task has to wait, to go on there. After it, the averages and the published signal are
      those of exactly the frames that the task has read, this one included; and these are
      coherent and never go backwards. */
  method LoopOnce(x: SampleExchange, a: SignalAverager, woken: bool, gaps: seq<seq<Interrupt>>) returns (published: bool)
    requires x.Valid() && a.Valid() && Apart(x, a) && InStep(x, a)
    requires |gaps| == 6 && if woken then x.task.TakeBuffer? else x.task.TakeWake?
    modifies x, x.highSamples, x.lowSamples
    modifies a, a.cpHighAvg, a.cpHighAvg.values, a.cpLowAvg, a.cpLowAvg.values, a.ppAvg, a.ppAvg.values
    ensures x.Valid() && a.Valid() && InStep(x, a) && ReadsSound(x.ledger.pairs, x.ledger.completed)
    ensures |x.ledger.pairs| == old(|x.ledger.pairs|) + if published then 1 else 0
    ensures published ==> x.task.TakeWake? && Reports(a.rawCpSignal, a.cpHighAvg.history, a.cpLowAvg.history)
    ensures !published ==> (x.task.TakeWake? || x.task.TakeBuffer?) && a.rawCpSignal == old(a.rawCpSignal)
  {
    ghost var frame;
    published, frame := x.ReadFrame(woken, gaps[..5]);
    AveragedStays(old(x.ledger.pairs), old(x.ledger.completed), a.cpHighAvg.history, a.cpLowAvg.history, a.ppAvg.history,
      old(x.highBursts), old(x.lowBursts), x.highBursts, x.lowBursts);
    if published {
      AveragedGrows(old(x.ledger.pairs), frame, a.cpHighAvg.history, a.cpLowAvg.history, a.ppAvg.history,
        x.highBursts, x.lowBursts, x.highSample, x.lowSample);
      PublishFrame(x, a, gaps[5]);
    }
  }

  /** The iteration from giving the buffer back to its end. */
  method PublishFrame(x: SampleExchange, a: SignalAverager, irqs: seq<Interrupt>)
    requires x.Valid() && a.Valid() && Apart(x, a) && x.task.Publish?
    requires Averaged(x.ledger.pairs, x.highBursts, x.lowBursts, a.cpHighAvg.history + [x.highSample.cp],
      a.cpLowAvg.history + [x.lowSample.cp], a.ppAvg.history + [x.highSample.pp])
    modifies x, x.highSamples, x.lowSamples
    modifies a, a.cpHighAvg, a.cpHighAvg.values, a.cpLowAvg, a.cpLowAvg.values, a.ppAvg, a.ppAvg.values
    ensures x.Valid() && a.Valid() && InStep(x, a) && x.ledger.pairs == old(x.ledger.pairs) && x.task.TakeWake?
    ensures Reports(a.rawCpSignal, a.cpHighAvg.history, a.cpLowAvg.history)
  {
    a.PublishSample(x.highSample, x.lowSample);
    ghost var signal, high, low := a.rawCpSignal, a.cpHighAvg.history, a.cpLowAvg.history;
    FinishLoop(x, a, irqs);
    assert a.rawCpSignal == signal && a.cpHighAvg.history == high && a.cpLowAvg.history == low;
  }

  /** Interrupts up to the end of the iteration do not change what was averaged. */
  method FinishLoop(x: SampleExchange, a: SignalAverager, irqs: seq<Interrupt>)
    requires x.Valid() && x.task.Publish? && InStep(x, a) && a.Valid() && Apart(x, a)
    modifies x, x.highSamples, x.lowSamples
    ensures x.Valid() && InStep(x, a) && x.ledger.pairs == old(x.ledger.pairs) && x.task.TakeWake? && a.Valid()
  {
    WaitAmid(x, irqs);
    AveragedStays(x.ledger.pairs, old(x.ledger.completed), a.cpHighAvg.history, a.cpLowAvg.history, a.ppAvg.history,
      old(x.highBursts), old(x.lowBursts), x.highBursts, x.lowBursts);
  }

  method WaitAmid(x: SampleExchange, irqs: seq<Interrupt>)
    requires x.Valid() && x.task.Publish?
    modifies x, x.highSamples, x.lowSamples
    ensures x.Valid() && x.RecordKept() && x.ledger.pairs == old(x.ledger.pairs) && x.task.TakeWake?
  {
    x.HandleInterrupts(irqs);
    x.EndLoop();
  }
}
