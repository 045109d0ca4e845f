/** The two messages that the microcontroller and the Linux side exchange, as instances of the
    codec: what their unions hold, what they look like on the wire, and how they merge. */
module EvseMessages {
  import opened Words
  import opened Varint
  import opened Schema
  import opened Codec
  import opened Merge

  const EMPTY := Desc([])
  const SET_PWM := Desc([Field(1, Singular(UVarint(4))), Field(2, Singular(Fixed32))])
  const HIGH_TO_LOW := Desc([
    Field(1, OneofMessage(0, SET_PWM)), Field(2, OneofScalar(0, Bool)), Field(3, OneofMessage(0, EMPTY)),
    Field(4, OneofMessage(0, EMPTY)), Field(5, OneofMessage(0, EMPTY))])
  const LOW_TO_HIGH := Desc([Field(1, OneofScalar(0, UVarint(4))), Field(2, OneofMessage(0, EMPTY))])

  lemma DescriptorsValid()
    ensures ValidDesc(EMPTY) && ValidDesc(SET_PWM) && ValidDesc(HIGH_TO_LOW) && ValidDesc(LOW_TO_HIGH)
  {
    assert ValidDesc(EMPTY);
    PwmValid();
    HighValid();
    assert ValidKind(LOW_TO_HIGH, 0) && ValidKind(LOW_TO_HIGH, 1);
  }

  lemma PwmValid()
    ensures ValidDesc(SET_PWM)
  {
    assert ValidKind(SET_PWM, 0) && ValidKind(SET_PWM, 1);
  }

  lemma HighValid()
    ensures ValidDesc(HIGH_TO_LOW)
  {
    var d := HIGH_TO_LOW;
    assert ValidDesc(EMPTY);
    PwmValid();
    assert forall i :: 0 <= i < 5 ==> d.fields[i].tag == i + 1;
    assert d.fields[0].kind == OneofMessage(0, SET_PWM) && d.fields[1].kind == OneofScalar(0, Bool);
    assert forall i :: 2 <= i < 5 ==> d.fields[i].kind == OneofMessage(0, EMPTY);
    assert forall i :: 0 <= i < 5 ==> ValidKind(d, i);
    assert forall i, j :: 0 <= i < j < 5 ==> Ascending(d, i, j);
    assert |d.fields| == 5;
  }

  /** The union HighToLow.message. A float is its 32-bit pattern; the enum is whatever its C
      variable holds, which need not be a declared enumerator. */
  datatype HighToLow =
    | NoCommand
    | SetPwm(state: u32, dutyCycle: u32)
    | AllowPowerOn(on: bool)
    | Enable
    | Disable
    | CpuHeartbeat

  datatype LowToHigh = NoReport | Event(event: u32) | McuHeartbeat

  const NO_FIELDS := Msg([])

  /** which_message. */
  function Which(h: HighToLow): nat {
    match h
    case NoCommand => 0
    case SetPwm(_, _) => 1
    case AllowPowerOn(_) => 2
    case Enable => 3
    case Disable => 4
    case CpuHeartbeat => 5
  }

  /** The selected union member. */
  function Member(h: HighToLow): Slot {
    match h
    case NoCommand => Unset
    case SetPwm(state, dutyCycle) => SetMsg(Msg([Num(state), Num(dutyCycle)]))
    case AllowPowerOn(on) => SetNum(if on then 1 else 0)
    case _ => SetMsg(NO_FIELDS)
  }

  function High(h: HighToLow): (m: Msg)
    ensures ValidDesc(HIGH_TO_LOW) && Shaped(HIGH_TO_LOW, m)
    ensures |m.slots| == 5 && forall i :: 0 <= i < 5 ==> m.slots[i] == if i + 1 == Which(h) then Member(h) else Unset
  {
    var m := Msg(seq(5, i requires 0 <= i < 5 => if i + 1 == Which(h) then Member(h) else Unset));
    HighShaped(h, m);
    m
  }

  lemma PwmShaped(state: u32, dutyCycle: u32)
    ensures ValidDesc(SET_PWM) && Shaped(SET_PWM, Msg([Num(state), Num(dutyCycle)]))
  {
    var d, m := SET_PWM, Msg([Num(state), Num(dutyCycle)]);
    PwmValid();
    assert ValidKind(d, 0) && SlotShaped(d, 0, m.slots[0]);
    assert ValidKind(d, 1) && SlotShaped(d, 1, m.slots[1]);
    assert forall i, j :: 0 <= i < 2 && 0 <= j < 2 ==> !SameUnion(d, i, j);
  }

  lemma HighShaped(h: HighToLow, m: Msg)
    requires |m.slots| == 5 && forall i :: 0 <= i < 5 ==> m.slots[i] == if i + 1 == Which(h) then Member(h) else Unset
    ensures ValidDesc(HIGH_TO_LOW) && Shaped(HIGH_TO_LOW, m)
  {
    var d := HIGH_TO_LOW;
    HighValid();
    assert ValidDesc(EMPTY) && Shaped(EMPTY, NO_FIELDS);
    if h.SetPwm? {
      PwmShaped(h.state, h.dutyCycle);
    }
    forall i | 0 <= i < |d.fields|
      ensures ValidKind(d, i) && SlotShaped(d, i, m.slots[i])
    {
      assert ValidKind(d, i);
    }
  }

  function WhichReport(l: LowToHigh): nat {
    match l
    case NoReport => 0
    case Event(_) => 1
    case McuHeartbeat => 2
  }

  function Report(l: LowToHigh): Slot {
    match l
    case NoReport => Unset
    case Event(event) => SetNum(event)
    case McuHeartbeat => SetMsg(NO_FIELDS)
  }

  function Low(l: LowToHigh): (m: Msg)
    ensures ValidDesc(LOW_TO_HIGH) && Shaped(LOW_TO_HIGH, m)
    ensures |m.slots| == 2 && forall i :: 0 <= i < 2 ==> m.slots[i] == if i + 1 == WhichReport(l) then Report(l) else Unset
  {
    var m := Msg(seq(2, i requires 0 <= i < 2 => if i + 1 == WhichReport(l) then Report(l) else Unset));
    LowShaped(l, m);
    m
  }

  lemma LowShaped(l: LowToHigh, m: Msg)
    requires |m.slots| == 2 && forall i :: 0 <= i < 2 ==> m.slots[i] == if i + 1 == WhichReport(l) then Report(l) else Unset
    ensures ValidDesc(LOW_TO_HIGH) && Shaped(LOW_TO_HIGH, m)
  {
    var d := LOW_TO_HIGH;
    DescriptorsValid();
    assert ValidDesc(EMPTY) && Shaped(EMPTY, NO_FIELDS);
    assert ValidKind(d, 0) && SlotShaped(d, 0, m.slots[0]);
    assert ValidKind(d, 1) && SlotShaped(d, 1, m.slots[1]);
  }

  // ---------- On the wire ----------

  /** A message with at most one field that says something is that field. */
  lemma {:induction false} OnlyField(d: Desc, m: Msg, k: nat, n: nat)
    requires ValidDesc(d) && Shaped(d, m) && k < n <= |d.fields|
    requires forall i :: 0 <= i < n && i != k ==> m.slots[i] == DefaultSlot(d.fields[i].kind)
    requires ValidKind(d, k) && SlotShaped(d, k, m.slots[k])
    ensures PrefixBytes(d, m, n) == FieldBytes(d, k, m.slots[k])
    decreases n
  {
    if n == k + 1 {
      NoFields(d, m, k);
    } else {
      OnlyField(d, m, k, n - 1);
      assert ValidKind(d, n - 1) && SlotShaped(d, n - 1, m.slots[n - 1]);
      SilentField(d, n - 1, m.slots[n - 1]);
    }
  }

  lemma {:induction false} NoFields(d: Desc, m: Msg, n: nat)
    requires ValidDesc(d) && Shaped(d, m) && n <= |d.fields|
    requires forall i :: 0 <= i < n ==> m.slots[i] == DefaultSlot(d.fields[i].kind)
    ensures PrefixBytes(d, m, n) == []
    decreases n
  {
    if n > 0 {
      NoFields(d, m, n - 1);
      assert ValidKind(d, n - 1) && SlotShaped(d, n - 1, m.slots[n - 1]);
      SilentField(d, n - 1, m.slots[n - 1]);
    }
  }

  function PwmBytes(state: u32, dutyCycle: u32): seq<byte> {
    (if state == 0 then [] else [0x08] + VarintBytes(state)) +
    (if dutyCycle == 0 then [] else [0x15] + ScalarBytes(Fixed32, dutyCycle))
  }

  /** The complete frame of a command: key, and length or value. */
  function HighBytes(h: HighToLow): seq<byte> {
    match h
    case NoCommand => []
    case SetPwm(state, dutyCycle) => [0x0A, |PwmBytes(state, dutyCycle)| % 256] + PwmBytes(state, dutyCycle)
    case AllowPowerOn(on) => [0x10, if on then 1 else 0]
    case Enable => [0x1A, 0]
    case Disable => [0x22, 0]
    case CpuHeartbeat => [0x2A, 0]
  }

  function LowBytes(l: LowToHigh): seq<byte> {
    match l
    case NoReport => []
    case Event(event) => [0x08] + VarintBytes(event)
    case McuHeartbeat => [0x12, 0]
  }

  lemma PwmWire(state: u32, dutyCycle: u32, m: Msg)
    requires m == Msg([Num(state), Num(dutyCycle)])
    ensures ValidDesc(SET_PWM) && Shaped(SET_PWM, m) && MsgBytes(SET_PWM, m) == PwmBytes(state, dutyCycle)
    ensures |PwmBytes(state, dutyCycle)| <= 11
    ensures |PwmBytes(state, dutyCycle)| <= 7 <==> state < 128 || dutyCycle == 0
  {
    var d := SET_PWM;
    PwmShaped(state, dutyCycle);
    assert ValidKind(d, 0) && SlotShaped(d, 0, m.slots[0]) && ValidKind(d, 1) && SlotShaped(d, 1, m.slots[1]);
    assert FieldBytes(d, 0, m.slots[0]) == if state == 0 then [] else [0x08] + VarintBytes(state);
    assert FieldBytes(d, 1, m.slots[1]) == if dutyCycle == 0 then [] else [0x15] + ScalarBytes(Fixed32, dutyCycle);
    assert PrefixBytes(d, m, 1) == FieldBytes(d, 0, m.slots[0]);
    assert PrefixBytes(d, m, 2) == PrefixBytes(d, m, 1) + FieldBytes(d, 1, m.slots[1]);
    FiveDigits(state);
  }

  /** What a command looks like on the wire. */
  lemma HighWire(h: HighToLow)
    ensures MsgBytes(HIGH_TO_LOW, High(h)) == HighBytes(h)
  {
    var d, m := HIGH_TO_LOW, High(h);
    assert forall i :: 0 <= i < 5 ==> DefaultSlot(d.fields[i].kind) == Unset;
    if h.NoCommand? {
      NoFields(d, m, 5);
    } else {
      var k := Which(h) - 1;
      assert ValidKind(d, k) && SlotShaped(d, k, m.slots[k]);
      OnlyField(d, m, k, 5);
      HighFieldWire(h, k);
    }
  }

  lemma HighFieldWire(h: HighToLow, k: nat)
    requires k + 1 == Which(h) && ValidKind(HIGH_TO_LOW, k) && SlotShaped(HIGH_TO_LOW, k, Member(h))
    ensures FieldBytes(HIGH_TO_LOW, k, Member(h)) == HighBytes(h)
  {
    if h.SetPwm? {
      PwmFieldWire(h.state, h.dutyCycle, Member(h).msg);
    } else if h.AllowPowerOn? {
      BoolFieldWire(Member(h).n);
    } else {
      EmptyFieldWire(k);
    }
  }

  lemma MessageFieldWire(d: Desc, i: nat, group: nat, sub: Desc, m: Msg)
    requires i < |d.fields| && d.fields[i].kind == OneofMessage(group, sub)
    requires ValidKind(d, i) && SlotShaped(d, i, SetMsg(m))
    ensures FieldBytes(d, i, SetMsg(m)) == TagBytes(d.fields[i].tag, WT_STRING) + Delimited(MsgBytes(sub, m))
  {
  }

  lemma ShortDelimited(payload: seq<byte>)
    requires |payload| < 128
    ensures Delimited(payload) == [|payload|] + payload
  {
  }

  lemma PwmFrame(state: u32, dutyCycle: u32, payload: seq<byte>)
    requires payload == PwmBytes(state, dutyCycle) && |payload| < 128
    ensures TagBytes(1, WT_STRING) + Delimited(payload) == HighBytes(SetPwm(state, dutyCycle))
  {
    assert TagBytes(1, WT_STRING) == [0x0A];
    ShortDelimited(payload);
  }

  lemma PwmFieldWire(state: u32, dutyCycle: u32, m: Msg)
    requires m == Msg([Num(state), Num(dutyCycle)])
    requires ValidKind(HIGH_TO_LOW, 0) && SlotShaped(HIGH_TO_LOW, 0, SetMsg(m))
    ensures FieldBytes(HIGH_TO_LOW, 0, SetMsg(m)) == HighBytes(SetPwm(state, dutyCycle))
  {
    PwmWire(state, dutyCycle, m);
    MessageFieldWire(HIGH_TO_LOW, 0, 0, SET_PWM, m);
    PwmFrame(state, dutyCycle, PwmBytes(state, dutyCycle));
  }

  lemma BoolFieldWire(n: int)
    requires 0 <= n <= 1 && ValidKind(HIGH_TO_LOW, 1) && SlotShaped(HIGH_TO_LOW, 1, SetNum(n))
    ensures FieldBytes(HIGH_TO_LOW, 1, SetNum(n)) == [0x10, n]
  {
  }

  lemma EmptyFieldWire(k: nat)
    requires 2 <= k < 5 && ValidKind(HIGH_TO_LOW, k) && SlotShaped(HIGH_TO_LOW, k, SetMsg(NO_FIELDS))
    ensures FieldBytes(HIGH_TO_LOW, k, SetMsg(NO_FIELDS)) == [8 * k + 10, 0]
  {
    assert HIGH_TO_LOW.fields[k] == Field(k + 1, OneofMessage(0, EMPTY));
    assert ValidDesc(EMPTY) && Shaped(EMPTY, NO_FIELDS) && MsgBytes(EMPTY, NO_FIELDS) == [];
    assert Delimited([]) == [0];
  }

  /** HighToLow_size: nine bytes suffice for a command unless it sets both a duty cycle and a
      state that no one-byte varint holds; in particular for every declared state. */
  lemma HighSize(h: HighToLow)
    ensures |MsgBytes(HIGH_TO_LOW, High(h))| <= 13
    ensures |MsgBytes(HIGH_TO_LOW, High(h))| <= 9 <==> !(h.SetPwm? && h.state >= 128 && h.dutyCycle != 0)
  {
    HighWire(h);
    if h.SetPwm? {
      PwmWire(h.state, h.dutyCycle, Msg([Num(h.state), Num(h.dutyCycle)]));
    }
  }

  lemma LowWire(l: LowToHigh)
    ensures MsgBytes(LOW_TO_HIGH, Low(l)) == LowBytes(l)
  {
    var d, m := LOW_TO_HIGH, Low(l);
    assert forall i :: 0 <= i < 2 ==> DefaultSlot(d.fields[i].kind) == Unset;
    if l.NoReport? {
      NoFields(d, m, 2);
    } else {
      var k := WhichReport(l) - 1;
      assert ValidKind(d, k) && SlotShaped(d, k, m.slots[k]);
      OnlyField(d, m, k, 2);
      if l.McuHeartbeat? {
        assert ValidDesc(EMPTY) && Shaped(EMPTY, NO_FIELDS) && MsgBytes(EMPTY, NO_FIELDS) == [];
      }
    }
  }

  /** LowToHigh_size: two bytes suffice exactly for the events below 128, hence for all the
      declared ones. */
  lemma LowSize(l: LowToHigh)
    ensures |MsgBytes(LOW_TO_HIGH, Low(l))| <= 6
    ensures |MsgBytes(LOW_TO_HIGH, Low(l))| <= 2 <==> !(l.Event? && l.event >= 128)
  {
    LowWire(l);
    if l.Event? {
      FiveDigits(l.event);
    }
  }

  // ---------- Several messages in one buffer ----------

  /** Last one wins; but a zero state or duty cycle leaves what an earlier SetPwm set. */
  function MergeHigh(a: HighToLow, b: HighToLow): HighToLow {
    if b.NoCommand? then a
    else if b.SetPwm? && a.SetPwm? then
      SetPwm(if b.state == 0 then a.state else b.state, if b.dutyCycle == 0 then a.dutyCycle else b.dutyCycle)
    else b
  }

  lemma NothingToFit(m: Msg)
    requires m == Msg([])
    ensures ValidDesc(EMPTY) && Shaped(EMPTY, m) && MergeFits(EMPTY, m, m) && Merged(EMPTY, m, m) == m && Default(EMPTY) == m
  {
    assert ValidDesc(EMPTY) && Shaped(EMPTY, m);
  }

  lemma PwmMerge(a: HighToLow, b: HighToLow, ma: Msg, mb: Msg)
    requires a.SetPwm? && b.SetPwm?
    requires ma == Msg([Num(a.state), Num(a.dutyCycle)]) && mb == Msg([Num(b.state), Num(b.dutyCycle)])
    ensures ValidDesc(SET_PWM) && Shaped(SET_PWM, ma) && Shaped(SET_PWM, mb) && MergeFits(SET_PWM, ma, mb)
    ensures SetMsg(Merged(SET_PWM, ma, mb)) == Member(MergeHigh(a, b))
  {
    PwmShaped(a.state, a.dutyCycle);
    PwmShaped(b.state, b.dutyCycle);
    var d, r := SET_PWM, Merged(SET_PWM, ma, mb);
    assert ValidKind(d, 0) && SlotShaped(d, 0, ma.slots[0]) && SlotShaped(d, 0, mb.slots[0]);
    assert ValidKind(d, 1) && SlotShaped(d, 1, ma.slots[1]) && SlotShaped(d, 1, mb.slots[1]);
    assert !Displaced(d, mb, 0) && !Displaced(d, mb, 1);
    assert r.slots[0] == MergeSlot(d, 0, ma.slots[0], mb.slots[0]);
    assert r.slots[1] == MergeSlot(d, 1, ma.slots[1], mb.slots[1]);
    var c := MergeHigh(a, b);
    assert r.slots == [Num(c.state), Num(c.dutyCycle)];
  }

  /** The member that b selects, on top of what a had there. */
  lemma MemberMerge(a: HighToLow, b: HighToLow, k: nat, was: Slot)
    requires k + 1 == Which(b) && was == if Which(a) == Which(b) then Member(a) else Unset
    requires ValidKind(HIGH_TO_LOW, k) && SlotShaped(HIGH_TO_LOW, k, was) && SlotShaped(HIGH_TO_LOW, k, Member(b))
    ensures MergeSlot(HIGH_TO_LOW, k, was, Member(b)) == Member(MergeHigh(a, b))
    ensures SlotMergeFits(HIGH_TO_LOW, k, was, Member(b))
  {
    if b.SetPwm? && a.SetPwm? {
      PwmMerge(a, b, was.msg, Member(b).msg);
    } else if b.SetPwm? {
      var mb := Member(b).msg;
      PwmShaped(b.state, b.dutyCycle);
      MergeIntoDefault(SET_PWM, mb);
      assert CountsFit(SET_PWM, mb);
    } else if b.AllowPowerOn? {
    } else {
      assert HIGH_TO_LOW.fields[k].kind == OneofMessage(0, EMPTY);
      NothingToFit(NO_FIELDS);
    }
  }

  lemma HighMerges(a: HighToLow, b: HighToLow)
    ensures Merged(HIGH_TO_LOW, High(a), High(b)) == High(MergeHigh(a, b))
    ensures MergeFits(HIGH_TO_LOW, High(a), High(b))
  {
    var r, expected := Merged(HIGH_TO_LOW, High(a), High(b)), High(MergeHigh(a, b));
    forall i | 0 <= i < |HIGH_TO_LOW.fields|
      ensures ValidKind(HIGH_TO_LOW, i) && SlotShaped(HIGH_TO_LOW, i, High(a).slots[i]) && SlotShaped(HIGH_TO_LOW, i, High(b).slots[i])
      ensures SlotMergeFits(HIGH_TO_LOW, i, High(a).slots[i], High(b).slots[i])
      ensures r.slots[i] == expected.slots[i]
    {
      HighMergesAt(a, b, i);
    }
    assert r.slots == expected.slots;
  }

  /** Slot i of a merge in which b selects at most the member at index `selected`. */
  lemma UnionMerge(d: Desc, a: Msg, b: Msg, i: nat, selected: nat)
    requires ValidDesc(d) && Shaped(d, a) && Shaped(d, b) && i < |d.fields|
    requires forall j :: 0 <= j < |d.fields| && j != selected ==> !IsSet(b.slots[j])
    requires selected < |d.fields| && selected != i ==> SameUnion(d, i, selected)
    ensures ValidKind(d, i) && SlotShaped(d, i, a.slots[i]) && SlotShaped(d, i, b.slots[i])
    ensures Merged(d, a, b).slots[i] ==
      if selected < |d.fields| && selected != i && IsSet(b.slots[selected]) then Unset
      else MergeSlot(d, i, a.slots[i], b.slots[i])
  {
    assert ValidKind(d, i) && SlotShaped(d, i, a.slots[i]) && SlotShaped(d, i, b.slots[i]);
    assert Displaced(d, b, i) <==> selected < |d.fields| && selected != i && IsSet(b.slots[selected]);
  }

  lemma HighMergesAt(a: HighToLow, b: HighToLow, i: nat)
    requires i < 5
    ensures var d := HIGH_TO_LOW;
      ValidKind(d, i) && SlotShaped(d, i, High(a).slots[i]) && SlotShaped(d, i, High(b).slots[i]) &&
      SlotMergeFits(d, i, High(a).slots[i], High(b).slots[i]) &&
      Merged(d, High(a), High(b)).slots[i] == High(MergeHigh(a, b)).slots[i]
  {
    var d, ma, mb := HIGH_TO_LOW, High(a), High(b);
    var selected := if b.NoCommand? then 5 else Which(b) - 1;
    UnionMerge(d, ma, mb, i, selected);
    if i == selected {
      MemberMerge(a, b, i, ma.slots[i]);
    } else {
      assert d.fields[i].kind.OneofScalar? || d.fields[i].kind.OneofMessage?;
      MergeNothing(d, i, ma.slots[i]);
    }
  }

  /** The frames of several commands, one after the other. */
  function HighStream(hs: seq<HighToLow>): seq<byte> {
    if hs == [] then [] else HighBytes(hs[0]) + HighStream(hs[1..])
  }

  function FoldHigh(h: HighToLow, hs: seq<HighToLow>): HighToLow
    decreases |hs|
  {
    if hs == [] then h else FoldHigh(MergeHigh(h, hs[0]), hs[1..])
  }

  /** Decoding any number of concatenated commands is the left fold of MergeHigh. */
  lemma {:induction false} CommandsMerge(h: HighToLow, hs: seq<HighToLow>)
    ensures DecodeMsg(HIGH_TO_LOW, High(h), HighStream(hs)) == Some(High(FoldHigh(h, hs)))
    decreases |hs|
  {
    if hs != [] {
      HighWire(hs[0]);
      HighSize(hs[0]);
      HighMerges(h, hs[0]);
      DecodeIsMerge(HIGH_TO_LOW, High(h), High(hs[0]), HighStream(hs[1..]));
      CommandsMerge(MergeHigh(h, hs[0]), hs[1..]);
    }
  }

  /** pb_decode of a command stream; a single command is the round trip. */
  lemma CommandsDecode(hs: seq<HighToLow>)
    ensures ValidDesc(HIGH_TO_LOW) && Decode(HIGH_TO_LOW, HighStream(hs)) == Some(High(FoldHigh(NoCommand, hs)))
    ensures |hs| == 1 ==> Decode(HIGH_TO_LOW, HighBytes(hs[0])) == Some(High(hs[0]))
  {
    CommandsMerge(NoCommand, hs);
    HighDefault();
    if |hs| == 1 {
      OneCommand(hs[0], hs);
    }
  }

  lemma OneCommand(h: HighToLow, hs: seq<HighToLow>)
    requires hs == [h]
    ensures HighStream(hs) == HighBytes(h) && FoldHigh(NoCommand, hs) == h
  {
    var tail := hs[1..];
    assert tail == [];
    assert HighStream(hs) == HighBytes(h) + HighStream(tail);
    assert FoldHigh(NoCommand, hs) == FoldHigh(MergeHigh(NoCommand, h), tail);
  }

  lemma HighDefault()
    ensures ValidDesc(HIGH_TO_LOW) && Default(HIGH_TO_LOW) == High(NoCommand)
  {
    HighValid();
    assert forall i :: 0 <= i < 5 ==> DefaultSlot(HIGH_TO_LOW.fields[i].kind) == Unset;
    assert Default(HIGH_TO_LOW).slots == High(NoCommand).slots;
  }

  lemma HighInjective(a: HighToLow, b: HighToLow)
    requires High(a) == High(b)
    ensures a == b
  {
    assert a.NoCommand? || IsSet(High(b).slots[Which(a) - 1]);
    assert b.NoCommand? || IsSet(High(a).slots[Which(b) - 1]);
    assert Which(a) == Which(b);
    assert a.NoCommand? || High(a).slots[Which(a) - 1] == High(b).slots[Which(a) - 1];
  }

  lemma TwoCommands(a: HighToLow, b: HighToLow, hs: seq<HighToLow>)
    requires hs == [a, b]
    ensures HighStream(hs) == HighBytes(a) + HighBytes(b) && FoldHigh(NoCommand, hs) == MergeHigh(a, b)
  {
    var tail := hs[1..];
    assert tail == [b] && tail[1..] == [];
    assert HighStream(tail) == HighBytes(b);
    assert FoldHigh(a, tail) == FoldHigh(MergeHigh(a, b), []);
    assert MergeHigh(NoCommand, a) == a;
  }

  /** "Last One Wins" holds of two commands in one buffer except where the second leaves out
      what it wants to be zero: PWMState_ON after another state, or duty cycle zero after
      another duty cycle; or where it selects no member at all. */
  lemma LastCommandWins(a: HighToLow, b: HighToLow)
    ensures ValidDesc(HIGH_TO_LOW)
    ensures Decode(HIGH_TO_LOW, HighBytes(a) + HighBytes(b)) == Some(High(b)) <==>
      (b.NoCommand? ==> a.NoCommand?) &&
      (a.SetPwm? && b.SetPwm? ==> (b.state == 0 ==> a.state == 0) && (b.dutyCycle == 0 ==> a.dutyCycle == 0))
  {
    var hs := [a, b];
    TwoCommands(a, b, hs);
    CommandsDecode(hs);
    if High(MergeHigh(a, b)) == High(b) {
      HighInjective(MergeHigh(a, b), b);
    }
  }

  /** A selected member is the member of some command. */
  lemma AnyMember(k: nat, s: Slot) returns (h: HighToLow)
    requires k < 5 && ValidKind(HIGH_TO_LOW, k) && SlotShaped(HIGH_TO_LOW, k, s) && IsSet(s)
    ensures Which(h) == k + 1 && Member(h) == s
  {
    if k == 0 {
      PwmValid();
      var d, m := SET_PWM, s.msg;
      assert ValidKind(d, 0) && SlotShaped(d, 0, m.slots[0]) && ValidKind(d, 1) && SlotShaped(d, 1, m.slots[1]);
      h := SetPwm(m.slots[0].n, m.slots[1].n);
      assert m.slots == [m.slots[0], m.slots[1]];
    } else if k == 1 {
      h := AllowPowerOn(s.n == 1);
    } else {
      assert HIGH_TO_LOW.fields[k].kind == OneofMessage(0, EMPTY);
      assert ValidDesc(EMPTY) && s.msg.slots == [];
      h := if k == 2 then Enable else if k == 3 then Disable else CpuHeartbeat;
    }
  }

  /** Every value of the C struct is one command, hence so is whatever is decoded from
      whatever bytes. */
  lemma AnyMessageIsACommand(m: Msg) returns (h: HighToLow)
    requires ValidDesc(HIGH_TO_LOW) && Shaped(HIGH_TO_LOW, m)
    ensures m == High(h)
  {
    var d := HIGH_TO_LOW;
    assert forall i, j :: 0 <= i < 5 && 0 <= j < 5 ==> SameUnion(d, i, j);
    if i :| 0 <= i < 5 && IsSet(m.slots[i]) {
      assert ValidKind(d, i) && SlotShaped(d, i, m.slots[i]);
      h := AnyMember(i, m.slots[i]);
      assert forall j :: 0 <= j < 5 && j != i && SameUnion(d, i, j) ==> !IsSet(m.slots[j]);
    } else {
      h := NoCommand;
    }
    forall j | 0 <= j < 5
      ensures m.slots[j] == High(h).slots[j]
    {
      assert ValidKind(d, j) && SlotShaped(d, j, m.slots[j]);
      assert d.fields[j].kind.OneofScalar? || d.fields[j].kind.OneofMessage?;
    }
    assert m.slots == High(h).slots;
  }

  // ---------- Reports ----------

  /** Decoding any number of concatenated reports gives the last one that is not empty. */
  function LastReport(l: LowToHigh, ls: seq<LowToHigh>): LowToHigh
    decreases |ls|
  {
    if ls == [] then l else LastReport(if ls[0].NoReport? then l else ls[0], ls[1..])
  }

  function LowStream(ls: seq<LowToHigh>): seq<byte> {
    if ls == [] then [] else LowBytes(ls[0]) + LowStream(ls[1..])
  }

  lemma LowMerges(a: LowToHigh, b: LowToHigh)
    ensures Merged(LOW_TO_HIGH, Low(a), Low(b)) == Low(if b.NoReport? then a else b)
    ensures MergeFits(LOW_TO_HIGH, Low(a), Low(b))
  {
    var r, expected := Merged(LOW_TO_HIGH, Low(a), Low(b)), Low(if b.NoReport? then a else b);
    LowMergesAt(a, b, 0);
    LowMergesAt(a, b, 1);
    assert r.slots == expected.slots;
  }

  lemma LowMergesAt(a: LowToHigh, b: LowToHigh, i: nat)
    requires i < 2
    ensures var d := LOW_TO_HIGH;
      ValidKind(d, i) && SlotShaped(d, i, Low(a).slots[i]) && SlotShaped(d, i, Low(b).slots[i]) &&
      SlotMergeFits(d, i, Low(a).slots[i], Low(b).slots[i]) &&
      Merged(d, Low(a), Low(b)).slots[i] == Low(if b.NoReport? then a else b).slots[i]
  {
    UnionMerge(LOW_TO_HIGH, Low(a), Low(b), i, if b.NoReport? then 2 else WhichReport(b) - 1);
    NothingToFit(NO_FIELDS);
  }

  lemma {:induction false} ReportsDecode(l: LowToHigh, ls: seq<LowToHigh>)
    ensures DecodeMsg(LOW_TO_HIGH, Low(l), LowStream(ls)) == Some(Low(LastReport(l, ls)))
    decreases |ls|
  {
    if ls != [] {
      LowWire(ls[0]);
      LowSize(ls[0]);
      LowMerges(l, ls[0]);
      DecodeIsMerge(LOW_TO_HIGH, Low(l), Low(ls[0]), LowStream(ls[1..]));
      ReportsDecode(if ls[0].NoReport? then l else ls[0], ls[1..]);
    }
  }
}
