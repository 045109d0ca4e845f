/** Decoding an encoded message on top of another one merges the two ("Last One Wins").
    Merged says, without reference to bytes, what the merge of two messages is. */
module Merge {
  import opened Words
  import opened Varint
  import opened Schema
  import opened Codec
  import opened WireLemmas

  // ---------- What a merge is ----------

  /** Field i of the merge, as far as its own slots decide: a nonzero scalar replaces, array
      elements are appended, a selected union member replaces, and a selected submessage is
      merged with the same member's present contents. */
  function MergeSlot(d: Desc, i: nat, a: Slot, b: Slot): (r: Slot)
    requires i < |d.fields| && ValidKind(d, i) && SlotShaped(d, i, a) && SlotShaped(d, i, b)
    ensures SlotShaped(d, i, r) && (IsSet(r) <==> IsSet(a) || IsSet(b))
    decreases d, 0
  {
    match d.fields[i].kind
    case Singular(_) => if b.n == 0 then a else b
    case Repeated(_, _) => Arr(a.ns + b.ns)
    case OneofScalar(_, _) => if b.Unset? then a else b
    case OneofMessage(_, sub) => if b.Unset? then a else SetMsg(Merged(sub, Start(sub, a), b.msg))
  }

  /** b selects another member of the union that field i belongs to. */
  predicate Displaced(d: Desc, b: Msg, i: nat)
    requires |b.slots| == |d.fields| && i < |d.fields|
  {
    exists j {:trigger SameUnion(d, i, j)} :: 0 <= j < |d.fields| && j != i && SameUnion(d, i, j) && IsSet(b.slots[j])
  }

  lemma UnionsStayExclusive(d: Desc, a: Msg, b: Msg, r: Msg)
    requires ValidDesc(d) && Shaped(d, a) && Shaped(d, b) && |r.slots| == |d.fields|
    requires forall i :: 0 <= i < |d.fields| && IsSet(r.slots[i]) ==>
      !Displaced(d, b, i) && (IsSet(a.slots[i]) || IsSet(b.slots[i]))
    ensures forall i, j {:trigger SameUnion(d, i, j)} :: 0 <= i < |d.fields| && 0 <= j < |d.fields| && i != j && SameUnion(d, i, j) ==>
      !IsSet(r.slots[i]) || !IsSet(r.slots[j])
  {
    forall i, j | 0 <= i < |d.fields| && 0 <= j < |d.fields| && i != j && SameUnion(d, i, j)
      ensures !IsSet(r.slots[i]) || !IsSet(r.slots[j])
    {
      assert SameUnion(d, j, i);
    }
  }

  function Merged(d: Desc, a: Msg, b: Msg): (r: Msg)
    requires ValidDesc(d) && Shaped(d, a) && Shaped(d, b)
    ensures Shaped(d, r)
    decreases d, 1
  {
    var r := Msg(seq(|d.fields|, i requires 0 <= i < |d.fields| =>
      assert ValidKind(d, i) && SlotShaped(d, i, a.slots[i]) && SlotShaped(d, i, b.slots[i]);
      if Displaced(d, b, i) then Unset else MergeSlot(d, i, a.slots[i], b.slots[i])));
    assert forall i :: 0 <= i < |d.fields| ==> ValidKind(d, i) && SlotShaped(d, i, r.slots[i]);
    UnionsStayExclusive(d, a, b, r);
    r
  }

  /** Every array of the merge has room for its elements. */
  predicate MergeFits(d: Desc, a: Msg, b: Msg)
    requires ValidDesc(d) && Shaped(d, a) && Shaped(d, b)
    decreases d, 1
  {
    forall i {:trigger SlotMergeFits(d, i, a.slots[i], b.slots[i])} :: 0 <= i < |d.fields| ==>
      ValidKind(d, i) && SlotShaped(d, i, a.slots[i]) && SlotShaped(d, i, b.slots[i]) &&
      SlotMergeFits(d, i, a.slots[i], b.slots[i])
  }

  predicate SlotMergeFits(d: Desc, i: nat, a: Slot, b: Slot)
    requires i < |d.fields| && ValidKind(d, i) && SlotShaped(d, i, a) && SlotShaped(d, i, b)
    decreases d, 0
  {
    match d.fields[i].kind
    case Singular(_) => true
    case Repeated(_, arraySize) => b.ns == [] || |a.ns| + |b.ns| <= arraySize
    case OneofScalar(_, _) => true
    case OneofMessage(_, sub) => b.Unset? || MergeFits(sub, Start(sub, a), b.msg)
  }

  // ---------- One field ----------

  /** The record that the encoder emits for a field, if it emits one. */
  function FieldRecord(d: Desc, i: nat, s: Slot): Record
    requires i < |d.fields| && ValidKind(d, i) && SlotShaped(d, i, s) && !s.Unset?
  {
    var tag := d.fields[i].tag;
    match d.fields[i].kind
    case Singular(t) => Record(tag, WireType(t), ScalarBytes(t, s.n))
    case Repeated(t, _) => Record(tag, WT_STRING, PackedBytes(t, s.ns))
    case OneofScalar(_, t) => Record(tag, WireType(t), ScalarBytes(t, s.n))
    case OneofMessage(_, sub) => Record(tag, WT_STRING, MsgBytes(sub, s.msg))
  }

  lemma SilentField(d: Desc, i: nat, s: Slot)
    requires i < |d.fields| && ValidKind(d, i) && SlotShaped(d, i, s)
    ensures FieldBytes(d, i, s) == [] <==> s == DefaultSlot(d.fields[i].kind)
  {
  }

  lemma ScalarPayload(s: Scalar, n: int, rest: seq<byte>)
    requires ValidScalar(s) && InRange(s, n)
    ensures ReadPayload(WireType(s), ScalarBytes(s, n) + rest) == Some((ScalarBytes(s, n), |ScalarBytes(s, n)|))
  {
    if !IsFixed(s) {
      EncodingInFront(Pattern(s, n), rest);
    }
  }

  lemma ScalarRecord(tag: nat, s: Scalar, n: int, rest: seq<byte>)
    requires 0 < tag < 0x1000_0000 && ValidScalar(s) && InRange(s, n)
    ensures var bytes := TagBytes(tag, WireType(s)) + ScalarBytes(s, n);
      ReadRecord(bytes + rest) == Some((Record(tag, WireType(s), ScalarBytes(s, n)), |bytes|))
  {
    ScalarPayload(s, n, rest);
    RecordRoundTrip(tag, WireType(s), ScalarBytes(s, n), rest);
  }

  lemma DelimitedRecord(tag: nat, payload: seq<byte>, rest: seq<byte>)
    requires 0 < tag < 0x1000_0000 && |payload| < TWO_32
    ensures var bytes := TagBytes(tag, WT_STRING) + Delimited(payload);
      ReadRecord(bytes + rest) == Some((Record(tag, WT_STRING, payload), |bytes|))
  {
    DelimitedRoundTrip(payload, rest);
    RecordRoundTrip(tag, WT_STRING, Delimited(payload), rest);
  }

  /** The bytes of a field read as the field's record. */
  lemma FieldReads(d: Desc, i: nat, s: Slot, rest: seq<byte>)
    requires i < |d.fields| && ValidKind(d, i) && SlotShaped(d, i, s)
    requires s != DefaultSlot(d.fields[i].kind) && |FieldBytes(d, i, s)| < TWO_32
    ensures !s.Unset? && ReadRecord(FieldBytes(d, i, s) + rest) == Some((FieldRecord(d, i, s), |FieldBytes(d, i, s)|))
  {
    var tag := d.fields[i].tag;
    match d.fields[i].kind
    case Singular(t) => ScalarRecord(tag, t, s.n, rest);
    case Repeated(t, _) => DelimitedRecord(tag, PackedBytes(t, s.ns), rest);
    case OneofScalar(_, t) => ScalarRecord(tag, t, s.n, rest);
    case OneofMessage(_, sub) => DelimitedRecord(tag, MsgBytes(sub, s.msg), rest);
  }

  lemma ScalarOfRecord(tag: nat, s: Scalar, n: int)
    requires ValidScalar(s) && InRange(s, n)
    ensures ScalarOf(s, Record(tag, WireType(s), ScalarBytes(s, n))) == Some(n)
  {
    ScalarRoundTrip(s, n, []);
    assert ScalarBytes(s, n) + [] == ScalarBytes(s, n);
  }

  /** Decoding a field's own record merges the field into the slot. */
  lemma {:induction false} FieldDecodes(d: Desc, i: nat, was: Slot, s: Slot)
    requires i < |d.fields| && ValidKind(d, i) && SlotShaped(d, i, was) && SlotShaped(d, i, s)
    requires s != DefaultSlot(d.fields[i].kind) && |FieldBytes(d, i, s)| < TWO_32 && !s.Unset?
    ensures DecodeSlot(d, i, was, FieldRecord(d, i, s)) ==
      if SlotMergeFits(d, i, was, s) then Some(MergeSlot(d, i, was, s)) else None
    decreases d, 0
  {
    var tag := d.fields[i].tag;
    match d.fields[i].kind
    case Singular(t) => ScalarOfRecord(tag, t, s.n);
    case Repeated(t, arraySize) => PackedRoundTrip(t, arraySize, was.ns, s.ns);
    case OneofScalar(_, t) => ScalarOfRecord(tag, t, s.n);
    case OneofMessage(_, sub) => DecodeExactlyIsMerge(sub, Start(sub, was), s.msg);
  }

  // ---------- The fields in order ----------

  /** b with all fields from the k-th on at their defaults. */
  function Upto(d: Desc, b: Msg, k: nat): (r: Msg)
    requires ValidDesc(d) && Shaped(d, b) && k <= |d.fields|
    ensures Shaped(d, r)
  {
    var r := Msg(seq(|d.fields|, i requires 0 <= i < |d.fields| =>
      if i < k then b.slots[i] else DefaultSlot(d.fields[i].kind)));
    assert forall i :: 0 <= i < |d.fields| && ValidKind(d, i) ==>
      SlotShaped(d, i, DefaultSlot(d.fields[i].kind)) && SlotShaped(d, i, b.slots[i]);
    r
  }

  /** Nothing arrives: nothing changes. */
  lemma MergeNothing(d: Desc, i: nat, a: Slot)
    requires i < |d.fields| && ValidKind(d, i) && SlotShaped(d, i, a)
    ensures SlotShaped(d, i, DefaultSlot(d.fields[i].kind))
    ensures MergeSlot(d, i, a, DefaultSlot(d.fields[i].kind)) == a
    ensures SlotMergeFits(d, i, a, DefaultSlot(d.fields[i].kind))
  {
  }

  /** A field that b sets is not displaced by b. */
  lemma NotDisplaced(d: Desc, b: Msg, k: nat, upto: nat)
    requires ValidDesc(d) && Shaped(d, b) && k < |d.fields| && upto <= |d.fields|
    requires ValidKind(d, k) && SlotShaped(d, k, b.slots[k]) && b.slots[k] != DefaultSlot(d.fields[k].kind)
    ensures !Displaced(d, Upto(d, b, upto), k)
  {
  }

  /** What the first k + 1 fields make of slot i, given what the first k fields made of it. */
  lemma MergedSlotStep(d: Desc, a: Msg, b: Msg, k: nat, i: nat)
    requires ValidDesc(d) && Shaped(d, a) && Shaped(d, b) && k < |d.fields| && i < |d.fields|
    requires ValidKind(d, k) && SlotShaped(d, k, a.slots[k]) && SlotShaped(d, k, b.slots[k])
    requires b.slots[k] != DefaultSlot(d.fields[k].kind)
    ensures Merged(d, a, Upto(d, b, k + 1)).slots[i] ==
      if i == k then MergeSlot(d, k, a.slots[k], b.slots[k])
      else if SameUnion(d, k, i) then Unset
      else Merged(d, a, Upto(d, b, k)).slots[i]
  {
    var before, after := Upto(d, b, k), Upto(d, b, k + 1);
    assert ValidKind(d, i) && SlotShaped(d, i, a.slots[i]) && SlotShaped(d, i, b.slots[i]);
    if i == k {
      NotDisplaced(d, b, k, k + 1);
    } else if SameUnion(d, k, i) {
      assert SameUnion(d, i, k) && IsSet(after.slots[k]);
    } else {
      assert !SameUnion(d, i, k);
      assert Displaced(d, after, i) <==> Displaced(d, before, i);
    }
  }

  /** Merging one more field into what the first k fields made. */
  lemma MergedStep(d: Desc, a: Msg, b: Msg, k: nat)
    requires ValidDesc(d) && Shaped(d, a) && Shaped(d, b) && k < |d.fields|
    requires ValidKind(d, k) && SlotShaped(d, k, a.slots[k]) && SlotShaped(d, k, b.slots[k])
    requires b.slots[k] != DefaultSlot(d.fields[k].kind)
    ensures Merged(d, a, Upto(d, b, k)).slots[k] == a.slots[k]
    ensures With(d, Merged(d, a, Upto(d, b, k)), k, MergeSlot(d, k, a.slots[k], b.slots[k])) == Merged(d, a, Upto(d, b, k + 1))
  {
    NotDisplaced(d, b, k, k);
    MergeNothing(d, k, a.slots[k]);
    var left := With(d, Merged(d, a, Upto(d, b, k)), k, MergeSlot(d, k, a.slots[k], b.slots[k]));
    var right := Merged(d, a, Upto(d, b, k + 1));
    forall i | 0 <= i < |d.fields|
      ensures left.slots[i] == right.slots[i]
    {
      MergedSlotStep(d, a, b, k, i);
    }
    assert left.slots == right.slots;
  }

  lemma MergedWithNothing(d: Desc, a: Msg, b: Msg)
    requires ValidDesc(d) && Shaped(d, a) && Shaped(d, b)
    ensures Merged(d, a, Upto(d, b, 0)) == a
  {
    var left := Merged(d, a, Upto(d, b, 0));
    forall i | 0 <= i < |d.fields|
      ensures left.slots[i] == a.slots[i]
    {
      assert ValidKind(d, i) && SlotShaped(d, i, a.slots[i]);
      MergeNothing(d, i, a.slots[i]);
    }
    assert left.slots == a.slots;
  }

  /** What follows the first k fields. */
  lemma {:induction false} PrefixSplit(d: Desc, b: Msg, k: nat, n: nat) returns (rest: seq<byte>)
    requires ValidDesc(d) && Shaped(d, b) && k <= n <= |d.fields|
    ensures PrefixBytes(d, b, n) == PrefixBytes(d, b, k) + rest
    decreases n
  {
    if k == n {
      rest := [];
    } else {
      var r := PrefixSplit(d, b, k, n - 1);
      rest := r + FieldBytes(d, n - 1, b.slots[n - 1]);
      RegroupField(PrefixBytes(d, b, k), r, FieldBytes(d, n - 1, b.slots[n - 1]), []);
    }
  }

  /** The decoder at the first byte of field k, with anything after the field. */
  lemma {:induction false} FieldStep(d: Desc, m: Msg, i: nat, s: Slot, rest: seq<byte>)
    requires ValidDesc(d) && Shaped(d, m) && i < |d.fields| && ValidKind(d, i)
    requires SlotShaped(d, i, s) && s != DefaultSlot(d.fields[i].kind) && |FieldBytes(d, i, s)| < TWO_32
    requires SlotShaped(d, i, m.slots[i])
    ensures DecodeMsg(d, m, FieldBytes(d, i, s) + rest) ==
      if SlotMergeFits(d, i, m.slots[i], s) then DecodeMsg(d, With(d, m, i, MergeSlot(d, i, m.slots[i], s)), rest)
      else None
    decreases d, 1, 0
  {
    FieldReads(d, i, s, rest);
    FieldDecodes(d, i, m.slots[i], s);
    IndexOfOwnTag(d, i);
    RecordFirst(d, m, FieldBytes(d, i, s), FieldRecord(d, i, s), rest);
  }

  /** Decoding the first k fields of b on top of a merges those fields into a. */
  lemma {:induction false} PrefixMerges(d: Desc, a: Msg, b: Msg, k: nat)
    requires ValidDesc(d) && Shaped(d, a) && Shaped(d, b) && k <= |d.fields| && |PrefixBytes(d, b, k)| < TWO_32
    requires FitsBelow(d, a, b, k)
    ensures DecodeMsg(d, a, PrefixBytes(d, b, k)) == Some(Merged(d, a, Upto(d, b, k)))
    decreases d, 2, k + 1
  {
    if k == 0 {
      MergedWithNothing(d, a, b);
    } else {
      var i := k - 1;
      PrefixMerges(d, a, b, i);
      assert ValidKind(d, i) && SlotShaped(d, i, a.slots[i]) && SlotShaped(d, i, b.slots[i]);
      SilentField(d, i, b.slots[i]);
      if b.slots[i] == DefaultSlot(d.fields[i].kind) {
        SilentStep(d, b, i);
      } else {
        LoudStep(d, a, b, i);
      }
    }
  }

  lemma SilentStep(d: Desc, b: Msg, i: nat)
    requires ValidDesc(d) && Shaped(d, b) && i < |d.fields| && ValidKind(d, i) && SlotShaped(d, i, b.slots[i])
    requires b.slots[i] == DefaultSlot(d.fields[i].kind)
    ensures PrefixBytes(d, b, i + 1) == PrefixBytes(d, b, i) && Upto(d, b, i + 1) == Upto(d, b, i)
  {
    SilentField(d, i, b.slots[i]);
  }

  lemma {:induction false} LoudStep(d: Desc, a: Msg, b: Msg, i: nat)
    requires ValidDesc(d) && Shaped(d, a) && Shaped(d, b) && i < |d.fields| && |PrefixBytes(d, b, i + 1)| < TWO_32
    requires ValidKind(d, i) && SlotShaped(d, i, a.slots[i]) && SlotShaped(d, i, b.slots[i])
    requires b.slots[i] != DefaultSlot(d.fields[i].kind) && SlotMergeFits(d, i, a.slots[i], b.slots[i])
    requires DecodeMsg(d, a, PrefixBytes(d, b, i)) == Some(Merged(d, a, Upto(d, b, i)))
    ensures DecodeMsg(d, a, PrefixBytes(d, b, i + 1)) == Some(Merged(d, a, Upto(d, b, i + 1)))
    decreases d, 2, 0
  {
    FieldAfterPrefix(d, a, b, i, []);
    assert PrefixBytes(d, b, i + 1) == PrefixBytes(d, b, i) + (FieldBytes(d, i, b.slots[i]) + []);
  }

  /** The arrays of the first k fields have room for the merge. */
  predicate FitsBelow(d: Desc, a: Msg, b: Msg, k: nat)
    requires ValidDesc(d) && Shaped(d, a) && Shaped(d, b) && k <= |d.fields|
  {
    forall i {:trigger SlotMergeFits(d, i, a.slots[i], b.slots[i])} :: 0 <= i < k ==>
      ValidKind(d, i) && SlotShaped(d, i, a.slots[i]) && SlotShaped(d, i, b.slots[i]) &&
      SlotMergeFits(d, i, a.slots[i], b.slots[i])
  }

  lemma {:induction false} FieldAfterPrefix(d: Desc, a: Msg, b: Msg, i: nat, rest: seq<byte>)
    requires ValidDesc(d) && Shaped(d, a) && Shaped(d, b) && i < |d.fields| && |FieldBytes(d, i, b.slots[i])| < TWO_32
    requires ValidKind(d, i) && SlotShaped(d, i, a.slots[i]) && SlotShaped(d, i, b.slots[i])
    requires b.slots[i] != DefaultSlot(d.fields[i].kind)
    requires DecodeMsg(d, a, PrefixBytes(d, b, i)) == Some(Merged(d, a, Upto(d, b, i)))
    ensures DecodeMsg(d, a, PrefixBytes(d, b, i) + (FieldBytes(d, i, b.slots[i]) + rest)) ==
      if SlotMergeFits(d, i, a.slots[i], b.slots[i]) then DecodeMsg(d, Merged(d, a, Upto(d, b, i + 1)), rest) else None
    decreases d, 1, 1
  {
    MergedStep(d, a, b, i);
    DecodeConcat(d, a, PrefixBytes(d, b, i), FieldBytes(d, i, b.slots[i]) + rest);
    FieldStep(d, Merged(d, a, Upto(d, b, i)), i, b.slots[i], rest);
  }

  // ---------- Whole messages ----------

  /** Decoding the encoding of b on top of a yields the merge of a and b if its arrays have
      room, and goes on with whatever follows; otherwise it fails. */
  lemma {:induction false} DecodeIsMerge(d: Desc, a: Msg, b: Msg, more: seq<byte>)
    requires ValidDesc(d) && Shaped(d, a) && Shaped(d, b) && |MsgBytes(d, b)| < TWO_32
    ensures DecodeMsg(d, a, MsgBytes(d, b) + more) ==
      if MergeFits(d, a, b) then DecodeMsg(d, Merged(d, a, b), more) else None
    decreases d, 4
  {
    DecodeFrom(d, a, b, 0, more);
  }

  lemma DecodeExactlyIsMerge(d: Desc, a: Msg, b: Msg)
    requires ValidDesc(d) && Shaped(d, a) && Shaped(d, b) && |MsgBytes(d, b)| < TWO_32
    ensures DecodeMsg(d, a, MsgBytes(d, b)) == if MergeFits(d, a, b) then Some(Merged(d, a, b)) else None
    decreases d, 5
  {
    DecodeIsMerge(d, a, b, []);
    assert MsgBytes(d, b) + [] == MsgBytes(d, b);
  }

  lemma {:induction false} DecodeFrom(d: Desc, a: Msg, b: Msg, k: nat, more: seq<byte>)
    requires ValidDesc(d) && Shaped(d, a) && Shaped(d, b) && |MsgBytes(d, b)| < TWO_32
    requires k <= |d.fields| && FitsBelow(d, a, b, k)
    ensures DecodeMsg(d, a, MsgBytes(d, b) + more) ==
      if MergeFits(d, a, b) then DecodeMsg(d, Merged(d, a, b), more) else None
    decreases d, 3, |d.fields| - k
  {
    if k == |d.fields| {
      PrefixMerges(d, a, b, k);
      assert Upto(d, b, k) == b;
      DecodeConcat(d, a, MsgBytes(d, b), more);
    } else {
      assert ValidKind(d, k) && SlotShaped(d, k, a.slots[k]) && SlotShaped(d, k, b.slots[k]);
      if SlotMergeFits(d, k, a.slots[k], b.slots[k]) {
        DecodeFrom(d, a, b, k + 1, more);
      } else {
        DecodeStops(d, a, b, k, more);
      }
    }
  }

  lemma SplitAtField(d: Desc, b: Msg, k: nat, more: seq<byte>) returns (rest: seq<byte>)
    requires ValidDesc(d) && Shaped(d, b) && k < |d.fields| && ValidKind(d, k) && SlotShaped(d, k, b.slots[k])
    ensures MsgBytes(d, b) + more == PrefixBytes(d, b, k) + (FieldBytes(d, k, b.slots[k]) + rest)
    ensures |PrefixBytes(d, b, k)| + |FieldBytes(d, k, b.slots[k])| <= |MsgBytes(d, b)|
  {
    var after := PrefixSplit(d, b, k + 1, |d.fields|);
    rest := after + more;
    RegroupField(PrefixBytes(d, b, k), FieldBytes(d, k, b.slots[k]), after, more);
  }

  lemma RegroupField(p: seq<byte>, f: seq<byte>, after: seq<byte>, more: seq<byte>)
    ensures p + f + after + more == p + (f + (after + more))
  {
  }

  /** An array without room makes the whole decode fail. */
  lemma {:induction false} DecodeStops(d: Desc, a: Msg, b: Msg, k: nat, more: seq<byte>)
    requires ValidDesc(d) && Shaped(d, a) && Shaped(d, b) && |MsgBytes(d, b)| < TWO_32
    requires k < |d.fields| && FitsBelow(d, a, b, k)
    requires ValidKind(d, k) && SlotShaped(d, k, a.slots[k]) && SlotShaped(d, k, b.slots[k])
    requires !SlotMergeFits(d, k, a.slots[k], b.slots[k])
    ensures DecodeMsg(d, a, MsgBytes(d, b) + more) == None
    decreases d, 2, k + 2
  {
    var rest := SplitAtField(d, b, k, more);
    PrefixMerges(d, a, b, k);
    MergeNothing(d, k, a.slots[k]);
    FieldAfterPrefix(d, a, b, k, rest);
  }

  // ---------- Round trip and concatenation ----------

  /** Merging into a fresh message changes nothing, and fits exactly if the counts do. */
  lemma {:induction false} MergeIntoDefault(d: Desc, m: Msg)
    requires ValidDesc(d) && Shaped(d, m)
    ensures Merged(d, Default(d), m) == m
    ensures MergeFits(d, Default(d), m) <==> CountsFit(d, m)
    decreases d
  {
    var r := Merged(d, Default(d), m);
    forall i | 0 <= i < |d.fields|
      ensures ValidKind(d, i) && SlotShaped(d, i, m.slots[i]) && SlotShaped(d, i, Default(d).slots[i])
      ensures r.slots[i] == m.slots[i]
      ensures SlotMergeFits(d, i, Default(d).slots[i], m.slots[i]) <==> SlotFits(d, i, m.slots[i])
    {
      DefaultSlotMerge(d, m, i);
    }
    assert r.slots == m.slots;
  }

  lemma {:induction false} DefaultSlotMerge(d: Desc, m: Msg, i: nat)
    requires ValidDesc(d) && Shaped(d, m) && i < |d.fields|
    ensures ValidKind(d, i) && SlotShaped(d, i, m.slots[i]) && SlotShaped(d, i, Default(d).slots[i])
    ensures Merged(d, Default(d), m).slots[i] == m.slots[i]
    ensures SlotMergeFits(d, i, Default(d).slots[i], m.slots[i]) <==> SlotFits(d, i, m.slots[i])
    decreases d, 0
  {
    var s := m.slots[i];
    assert ValidKind(d, i) && SlotShaped(d, i, s) && SlotShaped(d, i, Default(d).slots[i]);
    if d.fields[i].kind.OneofMessage? && s.SetMsg? {
      MergeIntoDefault(d.fields[i].kind.sub, s.msg);
    }
    if IsSet(s) {
      assert !Displaced(d, m, i);
    }
  }

  /** Round trip: for every message of every descriptor, decoding its encoding gives the
      message back if its array counts are within bounds, and fails otherwise. */
  lemma RoundTrip(d: Desc, m: Msg)
    requires ValidDesc(d) && Shaped(d, m) && |MsgBytes(d, m)| < TWO_32
    ensures Decode(d, MsgBytes(d, m)) == if CountsFit(d, m) then Some(m) else None
  {
    DecodeExactlyIsMerge(d, Default(d), m);
    MergeIntoDefault(d, m);
  }

  predicate AllShaped(d: Desc, ms: seq<Msg>)
    requires ValidDesc(d)
  {
    forall k :: 0 <= k < |ms| ==> Shaped(d, ms[k]) && |MsgBytes(d, ms[k])| < TWO_32
  }

  /** The encodings of several messages, one after the other. */
  function Concatenated(d: Desc, ms: seq<Msg>): seq<byte>
    requires ValidDesc(d) && AllShaped(d, ms)
  {
    if ms == [] then [] else MsgBytes(d, ms[0]) + Concatenated(d, ms[1..])
  }

  /** The left fold of Merged over the messages, as long as every array has room. */
  function MergeAll(d: Desc, m: Msg, ms: seq<Msg>): Option<Msg>
    requires ValidDesc(d) && Shaped(d, m) && AllShaped(d, ms)
    decreases |ms|
  {
    if ms == [] then Some(m)
    else if MergeFits(d, m, ms[0]) then MergeAll(d, Merged(d, m, ms[0]), ms[1..])
    else None
  }

  /** Decoding any number of concatenated encodings is the left fold of the merge. */
  lemma {:induction false} ConcatenationMerges(d: Desc, m: Msg, ms: seq<Msg>)
    requires ValidDesc(d) && Shaped(d, m) && AllShaped(d, ms)
    ensures DecodeMsg(d, m, Concatenated(d, ms)) == MergeAll(d, m, ms)
    decreases |ms|
  {
    if ms != [] {
      DecodeIsMerge(d, m, ms[0], Concatenated(d, ms[1..]));
      if MergeFits(d, m, ms[0]) {
        ConcatenationMerges(d, Merged(d, m, ms[0]), ms[1..]);
      }
    }
  }

  // ---------- Whatever the bytes ----------

  /** Decoding any byte string into a well-formed message leaves a well-formed message: no
      array overflows, no value leaves its C member's range, no union holds two members. */
  lemma {:induction false} DecodeKeepsCounts(d: Desc, m: Msg, bytes: seq<byte>)
    requires ValidDesc(d) && Shaped(d, m) && CountsFit(d, m) && DecodeMsg(d, m, bytes).Some?
    ensures Shaped(d, DecodeMsg(d, m, bytes).value) && CountsFit(d, DecodeMsg(d, m, bytes).value)
    decreases |bytes|, 1
  {
    if bytes != [] {
      var (rec, n) := ReadRecord(bytes).value;
      ApplyKeepsCounts(d, m, rec);
      DecodeKeepsCounts(d, Apply(d, m, rec).value, bytes[n..]);
    }
  }

  lemma {:induction false} ApplyKeepsCounts(d: Desc, m: Msg, rec: Record)
    requires ValidDesc(d) && Shaped(d, m) && CountsFit(d, m) && Apply(d, m, rec).Some?
    ensures CountsFit(d, Apply(d, m, rec).value)
    decreases |rec.payload|, 3
  {
    var next := Apply(d, m, rec).value;
    match IndexOfTag(d, rec.tag)
    case None =>
    case Some(i) =>
      assert ValidKind(d, i) && SlotShaped(d, i, m.slots[i]) && SlotFits(d, i, m.slots[i]);
      if d.fields[i].kind.OneofMessage? {
        var sub, start := d.fields[i].kind.sub, Start(d.fields[i].kind.sub, m.slots[i]);
        DecodeKeepsCounts(sub, start, rec.payload);
      }
      forall j | 0 <= j < |d.fields|
        ensures ValidKind(d, j) && SlotShaped(d, j, next.slots[j]) && SlotFits(d, j, next.slots[j])
      {
        assert ValidKind(d, j) && SlotShaped(d, j, m.slots[j]) && SlotFits(d, j, m.slots[j]);
      }
  }
}
