/** pb_encode and the field encoders below it, over an output stream. Every encoder attempts to
    write exactly the bytes that Codec prescribes: it succeeds if and only if no array count is
    out of bounds and the stream has room, and a sizing stream counts the same bytes. */
module Encoder {
  import opened Words
  import opened Varint
  import opened Schema
  import opened Codec
  import opened WireLemmas
  import opened OutStream
  import opened Merge

  // ---------- Scalars ----------

  /** pb_enc_bool, pb_enc_varint and pb_enc_fixed. */
  method EncodeScalar(s: OutStream, t: Scalar, n: int) returns (ok: bool)
    requires s.Valid() && ValidScalar(t) && InRange(t, n)
    modifies s, s.buf
    ensures s.Attempted(ScalarBytes(t, n), true, ok)
  {
    match t
    case Bool => ok := s.EncodeVarint(if n != 0 then 1 else 0);
    case UVarint(_) => ok := s.EncodeVarint(n);
    case SInt(_) => ok := s.EncodeVarint(Unsigned64(n));
    case ZigZagInt(_) => ok := s.EncodeSvarint(n);
    case Fixed32 => ok := s.EncodeFixed32(n);
    case Fixed64 => ok := s.EncodeFixed64(n);
  }

  /** pb_encode_tag_for_field followed by the scalar: encode_basic_field on a scalar. */
  method EncodeTaggedScalar(s: OutStream, tag: nat, t: Scalar, n: int) returns (ok: bool)
    requires s.Valid() && tag <= 0xFFFF && ValidScalar(t) && InRange(t, n)
    modifies s, s.buf
    ensures s.Attempted(TagBytes(tag, WireType(t)) + ScalarBytes(t, n), true, ok)
  {
    ghost var start := s.St();
    ok := s.EncodeTag(WireType(t), tag);
    ghost var mid := s.St();
    if !ok {
      AttemptFailed(s.sizing, s.maxSize, start, mid, TagBytes(tag, WireType(t)), ScalarBytes(t, n), true, true);
      return;
    }
    ok := EncodeScalar(s, t, n);
    AttemptBoth(s.sizing, s.maxSize, start, mid, s.St(), TagBytes(tag, WireType(t)), ScalarBytes(t, n), true, ok);
  }

  // ---------- Packed arrays ----------

  lemma FlattenStep(parts: seq<seq<byte>>, k: nat)
    requires k < |parts|
    ensures Flatten(parts[..k + 1]) == Flatten(parts[..k]) + parts[k]
  {
    assert parts[..k + 1][..k] == parts[..k];
  }

  lemma {:induction false} FlattenSplit(parts: seq<seq<byte>>, k: nat) returns (rest: seq<byte>)
    requires k <= |parts|
    ensures Flatten(parts) == Flatten(parts[..k]) + rest
    decreases |parts| - k
  {
    if k == |parts| {
      rest := [];
      assert parts[..k] == parts;
    } else {
      var more := FlattenSplit(parts, k + 1);
      FlattenStep(parts, k);
      rest := parts[k] + more;
    }
  }

  /** The elements of a packed array, without tag and length. */
  method EncodeElements(s: OutStream, t: Scalar, ns: seq<int>) returns (ok: bool)
    requires s.Valid() && ValidScalar(t) && AllInRange(t, ns)
    modifies s, s.buf
    ensures s.Attempted(PackedBytes(t, ns), true, ok)
  {
    ghost var start, parts := s.St(), Elements(t, ns);
    AttemptNothing(s.sizing, s.maxSize, start);
    var i := 0;
    while i < |ns|
      invariant i <= |ns| && s.Valid()
      invariant Attempt(s.sizing, s.maxSize, start, s.St(), Flatten(parts[..i]), true, true)
    {
      ghost var mid := s.St();
      ok := EncodeScalar(s, t, ns[i]);
      AttemptBoth(s.sizing, s.maxSize, start, mid, s.St(), Flatten(parts[..i]), parts[i], true, ok);
      FlattenStep(parts, i);
      i := i + 1;
      if !ok {
        ghost var rest := FlattenSplit(parts, i);
        AttemptFailed(s.sizing, s.maxSize, start, s.St(), Flatten(parts[..i]), rest, true, true);
        return;
      }
    }
    assert parts[..i] == parts;
    ok := true;
  }

  /** The size of a packed array: 4 or 8 bytes an element, or by a sizing stream. */
  method SizeOfElements(t: Scalar, ns: seq<int>) returns (size: nat)
    requires ValidScalar(t) && AllInRange(t, ns)
    ensures size == |PackedBytes(t, ns)|
  {
    PackedLength(t, ns);
    if t.Fixed32? {
      size := 4 * |ns|;
    } else if t.Fixed64? {
      size := 8 * |ns|;
    } else {
      var sizeStream := new OutStream.Sizing();
      var ok := EncodeElements(sizeStream, t, ns);
      size := sizeStream.written;
    }
  }

  /** encode_array on a packable type. */
  method EncodeArray(s: OutStream, tag: nat, t: Scalar, arraySize: nat, ns: seq<int>) returns (ok: bool)
    requires s.Valid() && tag <= 0xFFFF && ValidScalar(t) && AllInRange(t, ns) && |PackedBytes(t, ns)| < TWO_32
    modifies s, s.buf
    ensures s.Attempted(
      if ns == [] then [] else TagBytes(tag, WT_STRING) + Delimited(PackedBytes(t, ns)), |ns| <= arraySize, ok)
  {
    ghost var start := s.St();
    if |ns| == 0 {
      AttemptNothing(s.sizing, s.maxSize, start);
      return true;
    }
    if |ns| > arraySize {
      return false;
    }
    ok := s.EncodeTag(WT_STRING, tag);
    ghost var mid := s.St();
    if !ok {
      AttemptFailed(s.sizing, s.maxSize, start, mid, TagBytes(tag, WT_STRING), Delimited(PackedBytes(t, ns)), true, true);
      return;
    }
    ok := EncodeDelimitedElements(s, t, ns);
    AttemptBoth(s.sizing, s.maxSize, start, mid, s.St(), TagBytes(tag, WT_STRING), Delimited(PackedBytes(t, ns)), true, ok);
  }

  method EncodeDelimitedElements(s: OutStream, t: Scalar, ns: seq<int>) returns (ok: bool)
    requires s.Valid() && ValidScalar(t) && AllInRange(t, ns) && |PackedBytes(t, ns)| < TWO_32
    modifies s, s.buf
    ensures s.Attempted(Delimited(PackedBytes(t, ns)), true, ok)
  {
    ghost var start, payload := s.St(), PackedBytes(t, ns);
    var size := SizeOfElements(t, ns);
    ok := s.EncodeVarint(size);
    ghost var mid := s.St();
    if !ok {
      AttemptFailed(s.sizing, s.maxSize, start, mid, VarintBytes(size), payload, true, true);
      return;
    }
    if s.sizing {
      ok := s.Write(null, size, payload);
    } else {
      ok := EncodeElements(s, t, ns);
    }
    AttemptBoth(s.sizing, s.maxSize, start, mid, s.St(), VarintBytes(size), payload, true, ok);
  }

  // ---------- Submessages ----------

  /** pb_encode_submessage: once for the size, once for real. The second pass writes exactly
      as many bytes as the first one counted, so its final test never fails. */
  method EncodeSubmessage(s: OutStream, d: Desc, m: Msg) returns (ok: bool)
    requires s.Valid() && ValidDesc(d) && Shaped(d, m) && |MsgBytes(d, m)| < TWO_32
    modifies s, s.buf
    ensures s.Attempted(Delimited(MsgBytes(d, m)), CountsFit(d, m), ok)
    decreases d, 3
  {
    ghost var start, payload := s.St(), MsgBytes(d, m);
    var sizeStream := new OutStream.Sizing();
    ok := Encode(sizeStream, d, m);
    if !ok {
      return;
    }
    var size := sizeStream.written;
    ok := s.EncodeVarint(size);
    ghost var mid := s.St();
    if !ok {
      AttemptFailed(s.sizing, s.maxSize, start, mid, VarintBytes(size), payload, true, true);
      return;
    }
    if s.sizing {
      ok := s.Write(null, size, payload);
    } else {
      ok := EncodeCounted(s, d, m, size);
    }
    AttemptBoth(s.sizing, s.maxSize, start, mid, s.St(), VarintBytes(size), payload, true, ok);
  }

  /** The second pass, into a substream limited to the counted size. */
  method EncodeCounted(s: OutStream, d: Desc, m: Msg, size: nat) returns (ok: bool)
    requires s.Valid() && !s.sizing && ValidDesc(d) && Shaped(d, m) && CountsFit(d, m)
    requires size == |MsgBytes(d, m)| < TWO_32
    modifies s, s.buf
    ensures s.Attempted(MsgBytes(d, m), true, ok)
    decreases d, 2
  {
    if s.written + size > s.maxSize {
      return false;
    }
    var substream := new OutStream.Within(s, size);
    ok := Encode(substream, d, m);
    assert ok;
    s.written := s.written + substream.written;
    s.pos := substream.pos;
    if substream.written != size {
      assert false;
      return false;
    }
  }

  // ---------- Fields ----------

  /** encode_field with encode_basic_field. Absent union members and zero-valued singular
      fields are passed over. */
  method EncodeField(s: OutStream, d: Desc, i: nat, slot: Slot) returns (ok: bool)
    requires s.Valid() && i < |d.fields| && ValidKind(d, i) && SlotShaped(d, i, slot)
    requires |FieldBytes(d, i, slot)| < TWO_32
    modifies s, s.buf
    ensures s.Attempted(FieldBytes(d, i, slot), SlotFits(d, i, slot), ok)
    decreases d, 0
  {
    var tag := d.fields[i].tag;
    match d.fields[i].kind
    case Singular(t) =>
      if slot.n == 0 {
        AttemptNothing(s.sizing, s.maxSize, s.St());
        return true;
      }
      ok := EncodeTaggedScalar(s, tag, t, slot.n);
    case Repeated(t, arraySize) =>
      ok := EncodeArray(s, tag, t, arraySize, slot.ns);
    case OneofScalar(_, t) =>
      if slot.Unset? {
        AttemptNothing(s.sizing, s.maxSize, s.St());
        return true;
      }
      ok := EncodeTaggedScalar(s, tag, t, slot.n);
    case OneofMessage(_, sub) =>
      if slot.Unset? {
        AttemptNothing(s.sizing, s.maxSize, s.St());
        return true;
      }
      ok := EncodeTaggedMessage(s, tag, sub, slot.msg);
  }

  method EncodeTaggedMessage(s: OutStream, tag: nat, sub: Desc, m: Msg) returns (ok: bool)
    requires s.Valid() && tag <= 0xFFFF && ValidDesc(sub) && Shaped(sub, m) && |MsgBytes(sub, m)| < TWO_32
    modifies s, s.buf
    ensures s.Attempted(TagBytes(tag, WT_STRING) + Delimited(MsgBytes(sub, m)), CountsFit(sub, m), ok)
    decreases sub, 4
  {
    ghost var start, payload := s.St(), Delimited(MsgBytes(sub, m));
    ok := s.EncodeTag(WT_STRING, tag);
    ghost var mid := s.St();
    if !ok {
      AttemptFailed(s.sizing, s.maxSize, start, mid, TagBytes(tag, WT_STRING), payload, true, CountsFit(sub, m));
      return;
    }
    ok := EncodeSubmessage(s, sub, m);
    AttemptBoth(s.sizing, s.maxSize, start, mid, s.St(), TagBytes(tag, WT_STRING), payload, CountsFit(sub, m), ok);
  }

  // ---------- Messages ----------

  /** The first k fields have room in their arrays. */
  predicate FitsFirst(d: Desc, m: Msg, k: nat)
    requires ValidDesc(d) && Shaped(d, m) && k <= |d.fields|
  {
    forall i {:trigger SlotFits(d, i, m.slots[i])} :: 0 <= i < k ==>
      ValidKind(d, i) && SlotShaped(d, i, m.slots[i]) && SlotFits(d, i, m.slots[i])
  }

  /** pb_encode. */
  method Encode(s: OutStream, d: Desc, m: Msg) returns (ok: bool)
    requires s.Valid() && ValidDesc(d) && Shaped(d, m) && |MsgBytes(d, m)| < TWO_32
    modifies s, s.buf
    ensures s.Attempted(MsgBytes(d, m), CountsFit(d, m), ok)
    decreases d, 1
  {
    ghost var start := s.St();
    AttemptNothing(s.sizing, s.maxSize, start);
    var i := 0;
    while i < |d.fields|
      invariant i <= |d.fields| && s.Valid() && FitsFirst(d, m, i)
      invariant Attempt(s.sizing, s.maxSize, start, s.St(), PrefixBytes(d, m, i), true, true)
    {
      assert ValidKind(d, i) && SlotShaped(d, i, m.slots[i]);
      ghost var mid := s.St();
      ghost var rest := PrefixSplit(d, m, i + 1, |d.fields|);
      ok := EncodeField(s, d, i, m.slots[i]);
      AttemptBoth(s.sizing, s.maxSize, start, mid, s.St(), PrefixBytes(d, m, i), FieldBytes(d, i, m.slots[i]),
        SlotFits(d, i, m.slots[i]), ok);
      i := i + 1;
      if !ok {
        AttemptFailed(s.sizing, s.maxSize, start, s.St(), PrefixBytes(d, m, i), rest,
          SlotFits(d, i - 1, m.slots[i - 1]), CountsFit(d, m));
        return;
      }
    }
    ok := true;
  }

  /** pb_get_encoded_size. */
  method GetEncodedSize(d: Desc, m: Msg) returns (size: Option<nat>)
    requires ValidDesc(d) && Shaped(d, m) && |MsgBytes(d, m)| < TWO_32
    ensures size == if CountsFit(d, m) then Some(|MsgBytes(d, m)|) else None
  {
    var stream := new OutStream.Sizing();
    var ok := Encode(stream, d, m);
    size := if ok then Some(stream.written) else None;
  }

  /** pb_ostream_from_buffer and pb_encode: succeeds exactly if the size that
      pb_get_encoded_size reports is within bounds, and writes that many bytes at the front
      of the buffer and nothing else. */
  method EncodeToBuffer(buffer: array<byte>, size: nat, d: Desc, m: Msg) returns (written: Option<nat>)
    requires size <= buffer.Length && ValidDesc(d) && Shaped(d, m) && |MsgBytes(d, m)| < TWO_32
    modifies buffer
    ensures written.Some? <==> CountsFit(d, m) && |MsgBytes(d, m)| <= size
    ensures written.Some? ==> written.value == |MsgBytes(d, m)| && buffer[..written.value] == MsgBytes(d, m)
    ensures written.Some? ==> buffer[written.value..] == old(buffer[written.value..])
    ensures buffer[size..] == old(buffer[size..])
  {
    var stream := new OutStream.FromBuffer(buffer, size);
    ghost var start := stream.St();
    var ok := Encode(stream, d, m);
    if ok {
      written := Some(stream.written);
      ghost var data := MsgBytes(d, m);
      assert start.bytes[..0] == [];
      assert buffer[..] == data + start.bytes[|data|..];
      assert buffer[size..] == buffer[..][|data|..][size - |data|..];
    } else {
      written := None;
    }
  }
}
