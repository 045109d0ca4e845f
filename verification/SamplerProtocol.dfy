/** The protocol by which timer interrupts, the SPI completion callback and the sampling task
    share one sample buffer, as a transition system: an interrupt handler is one step, and the
    task may be preempted between any two of its accesses. */
module SamplerProtocol {

  datatype Phase = High | Low

  /** What one half of the sample buffer holds: an unfinished transfer, or the samples of one
      acquisition. Acquisition 0 is what memory held at the start. */
  datatype Half = Torn | From(acquisition: nat)

  /** The two binary semaphores: the buffer is free; a new sample is available. */
  datatype Semaphores = Semaphores(buffer: bool, wake: bool)

  /** The interrupt side: the write access flag, the phase being sampled, the done flags, and
      whether a transfer is in flight. */
  datatype Writer = Writer(acquired: bool, tbd: Phase, highDone: bool, lowDone: bool, busy: bool)

  datatype Memory = Memory(high: Half, low: Half)

  /** Where the task is: the next thing it does, with what it has read so far. */
  datatype Task =
    | TakeWake
    | TakeBuffer
    | ReadHigh
    | ReadLow(high: Half)
    | GiveBuffer(high: Half, low: Half)
    | Publish(high: Half, low: Half)

  /** A transfer of one phase for one acquisition. */
  datatype Transfer = Transfer(phase: Phase, acquisition: nat)

  /** Bookkeeping of the transfers: those begun, with the phase of the timer event that began
      them, and those done, with the half that they filled. */
  datatype Bus = Bus(begun: seq<Transfer>, done: seq<Transfer>)

  /** Bookkeeping: acquisitions started, acquisitions completed, the transfers, and the pairs
      that the task has read, in order. */
  datatype Ledger = Ledger(started: nat, completed: nat, bus: Bus, pairs: seq<(Half, Half)>)

  datatype State = State(sems: Semaphores, writer: Writer, memory: Memory, task: Task, ledger: Ledger)

  datatype Step = Timer(isHigh: bool) | SpiDone | TaskStep

  const INITIAL := State(
    Semaphores(true, false), Writer(false, High, false, false, false), Memory(From(0), From(0)), TakeWake,
    Ledger(0, 0, Bus([], []), []))

  // ---------- The interrupt handlers ----------

  function Begin(ledger: Ledger, phase: Phase): Ledger {
    ledger.(bus := ledger.bus.(begun := ledger.bus.begun + [Transfer(phase, ledger.started)]))
  }

  /** Starting a transfer into one half of the buffer. */
  function StartTransfer(s: State, phase: Phase): State {
    s.(writer := s.writer.(tbd := phase, busy := true),
      memory := if phase == High then s.memory.(high := Torn) else s.memory.(low := Torn),
      ledger := Begin(s.ledger, phase))
  }

  /** trigger_adc_readout. */
  function OnTimer(s: State, isHigh: bool): State {
    var phase := if isHigh then High else Low;
    if s.writer.busy then s
    else if !s.writer.acquired then
      if !s.sems.buffer then s
      else StartTransfer(s.(
        sems := s.sems.(buffer := false),
        writer := Writer(true, phase, false, false, false),
        ledger := s.ledger.(started := s.ledger.started + 1)), phase)
    else if (s.writer.highDone && isHigh) || (s.writer.lowDone && !isHigh) then s
    else StartTransfer(s, phase)
  }

  function Deliver(ledger: Ledger, phase: Phase): Ledger {
    ledger.(bus := ledger.bus.(done := ledger.bus.done + [Transfer(phase, ledger.started)]))
  }

  /** The transfer completes: the half of the current phase holds the current acquisition. */
  function Delivered(s: State): State {
    var samples := From(s.ledger.started);
    s.(memory := if s.writer.tbd == High then s.memory.(high := samples) else s.memory.(low := samples),
      ledger := Deliver(s.ledger, s.writer.tbd))
  }

  /** adc_spi_cb. With both phases done, the buffer is released and the task woken. */
  function Finished(s: State): State {
    var high := s.writer.tbd == High;
    var writer := s.writer.(busy := false, highDone := s.writer.highDone || high, lowDone := s.writer.lowDone || !high);
    if writer.highDone && writer.lowDone then s.(
      writer := writer.(acquired := false),
      sems := Semaphores(true, true),
      ledger := s.ledger.(completed := s.ledger.completed + 1))
    else s.(writer := writer)
  }

  function OnSpiDone(s: State): State {
    Finished(Delivered(s))
  }

  // ---------- The task ----------

  /** Whether the task's next access can proceed; otherwise it waits. */
  predicate Ready(s: State) {
    (s.task.TakeWake? ==> s.sems.wake) && (s.task.TakeBuffer? ==> s.sems.buffer)
  }

  function OnTask(s: State): State
    requires Ready(s)
  {
    match s.task
    case TakeWake => s.(sems := s.sems.(wake := false), task := TakeBuffer)
    case TakeBuffer => s.(sems := s.sems.(buffer := false), task := ReadHigh)
    case ReadHigh => s.(task := ReadLow(s.memory.high))
    case ReadLow(high) =>
      s.(task := GiveBuffer(high, s.memory.low), ledger := s.ledger.(pairs := s.ledger.pairs + [(high, s.memory.low)]))
    case GiveBuffer(high, low) => s.(sems := s.sems.(buffer := true), task := Publish(high, low))
    case Publish(_, _) => s.(task := TakeWake)
  }

  predicate Enabled(s: State, step: Step) {
    match step
    case Timer(_) => true
    case SpiDone => s.writer.busy
    case TaskStep => Ready(s)
  }

  function Next(s: State, step: Step): State
    requires Enabled(s, step)
  {
    match step
    case Timer(isHigh) => OnTimer(s, isHigh)
    case SpiDone => OnSpiDone(s)
    case TaskStep => OnTask(s)
  }

  // ---------- Runs ----------

  predicate Follows(ss: seq<State>, steps: seq<Step>, k: nat)
    requires k < |steps| && k + 1 < |ss|
  {
    Enabled(ss[k], steps[k]) && ss[k + 1] == Next(ss[k], steps[k])
  }

  /** Any interleaving from the start. */
  predicate IsRun(ss: seq<State>, steps: seq<Step>) {
    && |ss| == |steps| + 1 && ss[0] == INITIAL
    && forall k {:trigger Follows(ss, steps, k)} :: 0 <= k < |steps| ==> Follows(ss, steps, k)
  }

  // ---------- The invariant ----------

  predicate TaskOwns(t: Task) {
    t.ReadHigh? || t.ReadLow? || t.GiveBuffer?
  }

  /** Exactly one of these: the buffer is free, the interrupt side owns it, the task owns it. */
  predicate OneOwner(s: State) {
    if s.sems.buffer then !s.writer.acquired && !TaskOwns(s.task)
    else s.writer.acquired <==> !TaskOwns(s.task)
  }

  /** A finished half belongs to the current acquisition, and a transfer runs only for a phase
      that is not done, on the writer's account. */
  predicate WriterSound(w: Writer, m: Memory, started: nat) {
    && (w.busy ==> w.acquired && (if w.tbd == High then !w.highDone else !w.lowDone))
    && (w.acquired ==> !(w.highDone && w.lowDone))
    && (w.acquired ==> (w.highDone <==> m.high == From(started)) && (w.lowDone <==> m.low == From(started)))
    && Until(m.high, started) && Until(m.low, started)
  }

  predicate Until(half: Half, started: nat) {
    half.From? ==> half.acquisition <= started
  }

  /** The transfers done are those begun, in order, but for one that is in flight, for the
      current phase and acquisition. */
  predicate BusSound(w: Writer, bus: Bus, started: nat) {
    && |bus.begun| == |bus.done| + (if w.busy then 1 else 0)
    && (forall j :: 0 <= j < |bus.done| ==> bus.done[j] == bus.begun[j])
    && (w.busy ==> bus.begun[|bus.done|] == Transfer(w.tbd, started))
  }

  /** Every acquisition takes two transfers. */
  predicate TransfersPaid(w: Writer, ledger: Ledger) {
    |ledger.bus.done| == 2 * ledger.completed +
      if w.acquired then (if w.highDone then 1 else 0) + (if w.lowDone then 1 else 0) else 0
  }

  /** What a half holds, a transfer of its phase has brought. */
  predicate HalvesBrought(m: Memory, done: seq<Transfer>) {
    && (m.high.From? && m.high.acquisition > 0 ==> Transfer(High, m.high.acquisition) in done)
    && (m.low.From? && m.low.acquisition > 0 ==> Transfer(Low, m.low.acquisition) in done)
  }

  /** Transfers are of acquisitions started, and no two are of the same phase of the same one. */
  predicate OnceEach(done: seq<Transfer>, w: Writer, started: nat) {
    && (forall j :: 0 <= j < |done| ==> 1 <= done[j].acquisition <= started)
    && (forall j, k :: 0 <= j < k < |done| ==> done[j] != done[k])
    && (w.acquired && !w.highDone ==> Transfer(High, started) !in done)
    && (w.acquired && !w.lowDone ==> Transfer(Low, started) !in done)
  }

  /** Every completed acquisition had a transfer of either phase. */
  predicate BothPhases(done: seq<Transfer>, completed: nat) {
    forall k {:trigger Transfer(High, k)} {:trigger Transfer(Low, k)} :: 1 <= k <= completed ==>
      Transfer(High, k) in done && Transfer(Low, k) in done
  }

  predicate TransfersSound(s: State) {
    && BusSound(s.writer, s.ledger.bus, s.ledger.started)
    && TransfersPaid(s.writer, s.ledger)
    && HalvesBrought(s.memory, s.ledger.bus.done)
    && OnceEach(s.ledger.bus.done, s.writer, s.ledger.started)
    && BothPhases(s.ledger.bus.done, s.ledger.completed)
  }

  /** Without a writer, the buffer holds the latest completed acquisition, entirely. */
  predicate BufferWhole(s: State) {
    if s.writer.acquired then s.ledger.started == s.ledger.completed + 1
    else s.ledger.started == s.ledger.completed && s.memory == Memory(From(s.ledger.completed), From(s.ledger.completed))
  }

  /** What the task holds came from the latest completed acquisition while it owns the buffer. */
  predicate TaskSound(t: Task, completed: nat) {
    && (t.ReadLow? ==> t.high == From(completed))
    && (t.GiveBuffer? ==> t.high == From(completed) && t.low == From(completed))
  }

  /** Whether the task is between its wake-up and its read. */
  function Pending(t: Task): nat {
    if t.TakeBuffer? || t.ReadHigh? || t.ReadLow? then 1 else 0
  }

  /** Every wake-up was a completed acquisition's. */
  predicate WakesPaid(s: State) {
    |s.ledger.pairs| + Pending(s.task) + (if s.sems.wake then 1 else 0) <= s.ledger.completed
  }

  /** The n-th read pair has equal halves, from a completed acquisition, and none is older than
      the one before. */
  predicate ReadsSound(pairs: seq<(Half, Half)>, completed: nat) {
    && (forall k :: 0 <= k < |pairs| ==>
      pairs[k].0 == pairs[k].1 && pairs[k].0.From? && 1 <= pairs[k].0.acquisition <= completed)
    && (forall j, k :: 0 <= j < k < |pairs| ==> pairs[j].0.acquisition <= pairs[k].0.acquisition)
  }

  predicate Inv(s: State) {
    && OneOwner(s)
    && WriterSound(s.writer, s.memory, s.ledger.started)
    && BufferWhole(s)
    && TaskSound(s.task, s.ledger.completed)
    && WakesPaid(s)
    && ReadsSound(s.ledger.pairs, s.ledger.completed)
    && TransfersSound(s)
  }

  lemma TimerKeepsTransfers(s: State, isHigh: bool)
    requires Inv(s)
    ensures TransfersSound(OnTimer(s, isHigh))
  {
  }

  lemma TimerKeepsInv(s: State, isHigh: bool)
    requires Inv(s)
    ensures Inv(OnTimer(s, isHigh))
  {
    TimerKeepsTransfers(s, isHigh);
  }

  lemma SpiKeepsBus(s: State)
    requires Inv(s) && s.writer.busy
    ensures var t := OnSpiDone(s);
      BusSound(t.writer, t.ledger.bus, t.ledger.started) && TransfersPaid(t.writer, t.ledger)
  {
  }

  lemma SpiKeepsOnce(s: State)
    requires Inv(s) && s.writer.busy
    ensures var t := OnSpiDone(s);
      OnceEach(t.ledger.bus.done, t.writer, t.ledger.started)
  {
  }

  lemma SpiKeepsHalves(s: State)
    requires Inv(s) && s.writer.busy
    ensures var t := OnSpiDone(s);
      HalvesBrought(t.memory, t.ledger.bus.done) && BothPhases(t.ledger.bus.done, t.ledger.completed)
  {
    var t := Delivered(s);
    assert HalvesBrought(t.memory, t.ledger.bus.done);
  }

  lemma SpiKeepsInv(s: State)
    requires Inv(s) && s.writer.busy
    ensures Inv(OnSpiDone(s))
  {
    SpiKeepsBus(s);
    SpiKeepsOnce(s);
    SpiKeepsHalves(s);
  }

  lemma TaskKeepsInv(s: State)
    requires Inv(s) && Ready(s)
    ensures Inv(OnTask(s))
  {
    match s.task
    case TakeWake =>
    case TakeBuffer =>
    case ReadHigh =>
    case ReadLow(high) =>
    case GiveBuffer(high, low) =>
    case Publish(_, _) =>
  }

  lemma {:induction false} RunKeepsInv(ss: seq<State>, steps: seq<Step>, n: nat)
    requires IsRun(ss, steps) && n <= |steps|
    ensures Inv(ss[n])
    decreases n
  {
    if n > 0 {
      RunKeepsInv(ss, steps, n - 1);
      assert Follows(ss, steps, n - 1);
      match steps[n - 1]
      case Timer(isHigh) => TimerKeepsInv(ss[n - 1], isHigh);
      case SpiDone => SpiKeepsInv(ss[n - 1]);
      case TaskStep => TaskKeepsInv(ss[n - 1]);
    }
  }

  // ---------- What every interleaving guarantees ----------

  function Count(b: bool): nat {
    if b then 1 else 0
  }

  /** Exclusion: the buffer is free, or the interrupt side owns it, or the task does, and
      never two of these; and no transfer is in flight while the task owns it. */
  lemma Exclusion(ss: seq<State>, steps: seq<Step>, n: nat)
    requires IsRun(ss, steps) && n <= |steps|
    ensures Count(ss[n].sems.buffer) + Count(ss[n].writer.acquired) + Count(TaskOwns(ss[n].task)) == 1
    ensures TaskOwns(ss[n].task) ==> !ss[n].writer.busy
  {
    RunKeepsInv(ss, steps, n);
  }

  /** Coherence: both halves that the task reads belong to one acquisition, which is completed
      and the latest one completed. */
  lemma ReadsLatestFrame(ss: seq<State>, steps: seq<Step>, n: nat)
    requires IsRun(ss, steps) && n < |steps| && steps[n].TaskStep? && ss[n].task.ReadLow?
    ensures var frame := From(ss[n].ledger.completed);
      ss[n].ledger.completed >= 1 && ss[n + 1].ledger.pairs == ss[n].ledger.pairs + [(frame, frame)]
  {
    RunKeepsInv(ss, steps, n);
    assert Follows(ss, steps, n);
  }

  /** The frames read never go backwards, and there are never more of them than acquisitions
      completed. */
  lemma ReadsNeverGoBack(ss: seq<State>, steps: seq<Step>, n: nat)
    requires IsRun(ss, steps) && n <= |steps|
    ensures |ss[n].ledger.pairs| <= ss[n].ledger.completed
    ensures ReadsSound(ss[n].ledger.pairs, ss[n].ledger.completed)
  {
    RunKeepsInv(ss, steps, n);
  }

  // ---------- The transfers ----------

  function HalfOf(m: Memory, phase: Phase): Half {
    if phase == High then m.high else m.low
  }

  function Other(phase: Phase): Phase {
    if phase == High then Low else High
  }

  /** At most one transfer is in flight, and those done are those begun, in order. */
  lemma OneInFlight(ss: seq<State>, steps: seq<Step>, n: nat)
    requires IsRun(ss, steps) && n <= |steps|
    ensures var bus := ss[n].ledger.bus;
      |bus.done| <= |bus.begun| <= |bus.done| + 1 && bus.done == bus.begun[..|bus.done|] &&
      (|bus.begun| > |bus.done| <==> ss[n].writer.busy)
  {
    RunKeepsInv(ss, steps, n);
  }

  /** A timer event begins a transfer of its own phase, for the current acquisition, or none:
      none while one is in flight, none for a phase that the acquisition already has, and no
      new acquisition while the buffer is not free. Nothing else begins one. */
  lemma TimerBegins(ss: seq<State>, steps: seq<Step>, n: nat)
    requires IsRun(ss, steps) && n < |steps|
    ensures var s, t := ss[n].ledger, ss[n + 1].ledger;
      if !steps[n].Timer? then t.bus.begun == s.bus.begun
      else
        var phase := if steps[n].isHigh then High else Low;
        t.bus.begun == s.bus.begun +
          if |s.bus.begun| == |s.bus.done| &&
            (if s.started > s.completed then Transfer(phase, s.started) !in s.bus.done else ss[n].sems.buffer)
          then [Transfer(phase, s.completed + 1)] else []
  {
    RunKeepsInv(ss, steps, n);
    assert Follows(ss, steps, n);
  }

  /** A completion fills the half of the transfer in flight with its burst, and no other. */
  lemma CompletionFills(ss: seq<State>, steps: seq<Step>, n: nat)
    requires IsRun(ss, steps) && n < |steps| && steps[n].SpiDone?
    ensures var bus := ss[n].ledger.bus;
      |bus.done| < |bus.begun| && var transfer := bus.begun[|bus.done|];
      && ss[n + 1].ledger.bus.done == bus.done + [transfer]
      && HalfOf(ss[n + 1].memory, transfer.phase) == From(transfer.acquisition)
      && HalfOf(ss[n + 1].memory, Other(transfer.phase)) == HalfOf(ss[n].memory, Other(transfer.phase))
  {
    RunKeepsInv(ss, steps, n);
    assert Follows(ss, steps, n);
  }

  /** Every transfer was begun by a timer event of its phase. */
  lemma {:induction false} BegunByTimer(ss: seq<State>, steps: seq<Step>, n: nat, j: nat) returns (m: nat)
    requires IsRun(ss, steps) && n <= |steps| && j < |ss[n].ledger.bus.begun|
    ensures m < n && steps[m] == Timer(ss[n].ledger.bus.begun[j].phase == High)
    ensures |ss[m].ledger.bus.begun| == j && ss[m + 1].ledger.bus.begun == ss[n].ledger.bus.begun[..j + 1]
    decreases n
  {
    if n > 0 {
      TimerBegins(ss, steps, n - 1);
      if j < |ss[n - 1].ledger.bus.begun| {
        m := BegunByTimer(ss, steps, n - 1, j);
      } else {
        m := n - 1;
      }
    }
  }

  /** What a half holds was sampled in its own phase: a timer event of that phase began the
      transfer, as the only one of that phase for that acquisition. */
  lemma HalfIsItsPhase(ss: seq<State>, steps: seq<Step>, n: nat, phase: Phase) returns (m: nat, j: nat)
    requires IsRun(ss, steps) && n <= |steps|
    requires HalfOf(ss[n].memory, phase).From? && HalfOf(ss[n].memory, phase).acquisition > 0
    ensures var transfer := Transfer(phase, HalfOf(ss[n].memory, phase).acquisition);
      var done := ss[n].ledger.bus.done;
      && j < |done| && done[j] == transfer && (forall k :: 0 <= k < |done| && done[k] == transfer ==> k == j)
      && m < n && steps[m] == Timer(phase == High)
      && ss[m + 1].ledger.bus.begun == ss[m].ledger.bus.begun + [transfer]
  {
    RunKeepsInv(ss, steps, n);
    var transfer := Transfer(phase, HalfOf(ss[n].memory, phase).acquisition);
    var bus := ss[n].ledger.bus;
    assert transfer in bus.done;
    j :| 0 <= j < |bus.done| && bus.done[j] == transfer;
    m := BegunByTimer(ss, steps, n, j);
    TimerBegins(ss, steps, m);
  }

  /** Every completed acquisition took exactly two transfers, one of either phase. */
  lemma TwoTransfersEach(ss: seq<State>, steps: seq<Step>, n: nat)
    requires IsRun(ss, steps) && n <= |steps|
    ensures var ledger := ss[n].ledger;
      && 2 * ledger.completed <= |ledger.bus.done| <= 2 * ledger.completed + 1
      && (forall k {:trigger Transfer(High, k)} :: 1 <= k <= ledger.completed ==>
        Transfer(High, k) in ledger.bus.done && Transfer(Low, k) in ledger.bus.done)
      && (forall j, k :: 0 <= j < k < |ledger.bus.done| ==> ledger.bus.done[j] != ledger.bus.done[k])
  {
    RunKeepsInv(ss, steps, n);
  }

  /** A completion completes the acquisition exactly if the other half already belongs to it.
      Then both halves do, the buffer is free and the task is woken; otherwise neither
      semaphore moves. */
  lemma CompletionWakes(ss: seq<State>, steps: seq<Step>, n: nat)
    requires IsRun(ss, steps) && n < |steps| && steps[n].SpiDone?
    ensures var s, t := ss[n], ss[n + 1];
      s.ledger.bus.begun != [] && var phase := s.ledger.bus.begun[|s.ledger.bus.begun| - 1].phase;
      if HalfOf(s.memory, Other(phase)) == From(s.ledger.completed + 1) then
        && t.ledger.completed == s.ledger.completed + 1 && t.sems.wake && t.sems.buffer
        && t.memory == Memory(From(t.ledger.completed), From(t.ledger.completed))
      else t.ledger.completed == s.ledger.completed && t.sems == s.sems
  {
    RunKeepsInv(ss, steps, n);
    assert Follows(ss, steps, n);
  }

  // ---------- When frames repeat ----------

  function LastRead(pairs: seq<(Half, Half)>): nat {
    if pairs == [] || !pairs[|pairs| - 1].0.From? then 0 else pairs[|pairs| - 1].0.acquisition
  }

  /** Every read is of a newer frame than the one before. */
  predicate Increasing(pairs: seq<(Half, Half)>) {
    && (forall k :: 0 <= k < |pairs| ==> pairs[k].0.From?)
    && (forall j, k :: 0 <= j < k < |pairs| ==> pairs[j].0.acquisition < pairs[k].0.acquisition)
  }

  /** The step completes an acquisition while the task, already woken, waits for the buffer. */
  predicate Overtakes(s: State, step: Step) {
    step.SpiDone? && s.task.TakeBuffer? && Finished(Delivered(s)).ledger.completed > s.ledger.completed
  }

  /** A wake-up that is pending, or under way, is for a frame not read yet; and not both. */
  predicate WakeIsNews(s: State) {
    && (s.sems.wake || Pending(s.task) == 1 ==> LastRead(s.ledger.pairs) < s.ledger.completed)
    && !(s.sems.wake && Pending(s.task) == 1)
  }

  lemma StepKeepsNews(s: State, step: Step)
    requires Inv(s) && Enabled(s, step) && WakeIsNews(s) && Increasing(s.ledger.pairs) && !Overtakes(s, step)
    ensures WakeIsNews(Next(s, step)) && Increasing(Next(s, step).ledger.pairs)
  {
  }

  /** As long as no acquisition completes between the task's wake-up and its taking of the
      buffer, no frame is read twice. */
  lemma {:induction false} ReadsIncrease(ss: seq<State>, steps: seq<Step>, n: nat)
    requires IsRun(ss, steps) && n <= |steps|
    requires forall k {:trigger ss[k]} :: 0 <= k < n ==> !Overtakes(ss[k], steps[k])
    ensures Increasing(ss[n].ledger.pairs) && WakeIsNews(ss[n])
    decreases n
  {
    if n > 0 {
      ReadsIncrease(ss, steps, n - 1);
      RunKeepsInv(ss, steps, n - 1);
      assert Follows(ss, steps, n - 1);
      StepKeepsNews(ss[n - 1], steps[n - 1]);
    }
  }

  lemma Extend(ss: seq<State>, steps: seq<Step>, step: Step) returns (tt: seq<State>, more: seq<Step>)
    requires IsRun(ss, steps) && Enabled(ss[|steps|], step)
    ensures IsRun(tt, more) && more == steps + [step] && ss < tt && tt[|more|] == Next(ss[|steps|], step)
  {
    tt, more := ss + [Next(ss[|steps|], step)], steps + [step];
    forall k | 0 <= k < |more|
      ensures Follows(tt, more, k)
    {
      assert k < |steps| ==> Follows(ss, steps, k);
    }
  }

  /** The task reads a free buffer, to the end of its loop. */
  lemma ReadFree(ss: seq<State>, steps: seq<Step>) returns (tt: seq<State>, more: seq<Step>)
    requires IsRun(ss, steps) && ss[|steps|].sems.buffer && ss[|steps|].task == TakeBuffer
    ensures IsRun(tt, more) && ss < tt && steps < more
    ensures var s, t := ss[|steps|], tt[|more|];
      t == s.(task := TakeWake, ledger := s.ledger.(pairs := s.ledger.pairs + [(s.memory.high, s.memory.low)]))
  {
    tt, more := Extend(ss, steps, TaskStep);
    tt, more := Extend(tt, more, TaskStep);
    tt, more := Extend(tt, more, TaskStep);
    tt, more := Extend(tt, more, TaskStep);
    tt, more := Extend(tt, more, TaskStep);
  }

  /** t is s after some interrupts only, and no later than the end of the acquisition. */
  predicate Advanced(s: State, t: State) {
    && t.task == s.task && t.ledger.pairs == s.ledger.pairs
    && (s.sems.wake ==> t.sems.wake)
    && (s.sems.buffer ==> t == s)
  }

  /** The phase is sampled, if the acquisition still needs it. */
  lemma SamplePhase(ss: seq<State>, steps: seq<Step>, isHigh: bool) returns (tt: seq<State>, more: seq<Step>)
    requires IsRun(ss, steps) && Inv(ss[|steps|]) && !ss[|steps|].writer.busy
    ensures IsRun(tt, more) && ss <= tt && steps <= more && Advanced(ss[|steps|], tt[|more|])
    ensures var v, w := ss[|steps|].writer, tt[|more|].writer;
      !w.busy && (w.acquired ==> v.acquired && w.highDone == (v.highDone || isHigh) && w.lowDone == (v.lowDone || !isHigh))
  {
    tt, more := ss, steps;
    var w := ss[|steps|].writer;
    if w.acquired && !(if isHigh then w.highDone else w.lowDone) {
      tt, more := Extend(tt, more, Timer(isHigh));
      tt, more := Extend(tt, more, SpiDone);
    }
  }

  lemma EndTransfer(ss: seq<State>, steps: seq<Step>) returns (tt: seq<State>, more: seq<Step>)
    requires IsRun(ss, steps) && Inv(ss[|steps|])
    ensures IsRun(tt, more) && ss <= tt && steps <= more && Advanced(ss[|steps|], tt[|more|]) && !tt[|more|].writer.busy
  {
    tt, more := ss, steps;
    if tt[|more|].writer.busy {
      tt, more := Extend(tt, more, SpiDone);
    }
  }

  /** An acquisition that was begun can be brought to its end. */
  lemma FinishAcquisition(ss: seq<State>, steps: seq<Step>) returns (tt: seq<State>, more: seq<Step>)
    requires IsRun(ss, steps) && !TaskOwns(ss[|steps|].task)
    ensures IsRun(tt, more) && ss <= tt && steps <= more && Advanced(ss[|steps|], tt[|more|]) && tt[|more|].sems.buffer
  {
    RunKeepsInv(ss, steps, |steps|);
    tt, more := EndTransfer(ss, steps);
    RunKeepsInv(tt, more, |more|);
    tt, more := SamplePhase(tt, more, true);
    RunKeepsInv(tt, more, |more|);
    tt, more := SamplePhase(tt, more, false);
    RunKeepsInv(tt, more, |more|);
  }

  /** Conversely, from any reachable state in which an acquisition has completed there, so that
      the task waits for the buffer with another wake-up pending, the run has a continuation
      in which one frame is read twice: if the buffer is free, the latest one completed. */
  lemma PendingWakeRepeats(ss: seq<State>, steps: seq<Step>) returns (tt: seq<State>, more: seq<Step>, frame: Half)
    requires IsRun(ss, steps) && ss[|steps|].task.TakeBuffer? && ss[|steps|].sems.wake
    ensures IsRun(tt, more) && ss < tt && steps < more
    ensures tt[|more|].ledger.pairs == ss[|steps|].ledger.pairs + [(frame, frame), (frame, frame)]
    ensures ss[|steps|].sems.buffer ==> frame == From(ss[|steps|].ledger.completed)
  {
    tt, more := FinishAcquisition(ss, steps);
    RunKeepsInv(tt, more, |more|);
    frame := From(tt[|more|].ledger.completed);
    tt, more := ReadFree(tt, more);
    tt, more := Extend(tt, more, TaskStep);
    tt, more := ReadFree(tt, more);
  }

  /** In particular, a frame that completes there can itself be read twice. */
  lemma OvertakenFrameRepeats(ss: seq<State>, steps: seq<Step>, n: nat) returns (tt: seq<State>, more: seq<Step>)
    requires IsRun(ss, steps) && |steps| == n + 1 && Overtakes(ss[n], steps[n])
    ensures IsRun(tt, more) && ss < tt && steps < more
    ensures var frame := From(ss[n].ledger.completed + 1);
      tt[|more|].ledger.pairs == ss[n].ledger.pairs + [(frame, frame), (frame, frame)]
  {
    assert Follows(ss, steps, n);
    var frame;
    tt, more, frame := PendingWakeRepeats(ss, steps);
  }

  /** One whole acquisition while the buffer is free. */
  lemma Acquire(ss: seq<State>, steps: seq<Step>) returns (tt: seq<State>, more: seq<Step>)
    requires IsRun(ss, steps) && ss[|steps|].sems.buffer
    ensures IsRun(tt, more) && |more| >= 1 && more[|more| - 1] == SpiDone
    ensures tt[|more|].sems == Semaphores(true, true) && tt[|more|].task == tt[|more| - 1].task == ss[|steps|].task
    ensures tt[|more|].ledger.pairs == ss[|steps|].ledger.pairs
    ensures tt[|more|].ledger.completed > tt[|more| - 1].ledger.completed
  {
    RunKeepsInv(ss, steps, |steps|);
    tt, more := Extend(ss, steps, Timer(true));
    tt, more := Extend(tt, more, SpiDone);
    tt, more := Extend(tt, more, Timer(false));
    tt, more := Extend(tt, more, SpiDone);
  }

  /** This does happen: there is a run in which one frame is read twice. */
  lemma FramesMayRepeat() returns (ss: seq<State>, steps: seq<Step>)
    ensures IsRun(ss, steps)
    ensures var pairs := ss[|steps|].ledger.pairs;
      |pairs| == 2 && pairs[0] == pairs[1]
  {
    ss, steps := [INITIAL], [];
    ss, steps := Acquire(ss, steps);
    ss, steps := Extend(ss, steps, TaskStep);
    ss, steps := Acquire(ss, steps);
    assert Follows(ss, steps, |steps| - 1);
    ss, steps := OvertakenFrameRepeats(ss, steps, |steps| - 1);
  }
}
