/** pb_decode and the field decoders below it, over an input stream. Every decoder succeeds
    exactly if Codec's function of the remaining bytes does, with the same result and the same
    number of bytes consumed; none reads outside the stream, and all terminate. */
module Decoder {
  import opened Words
  import opened Varint
  import opened Schema
  import opened Codec
  import opened VarintScan
  import opened InStream

  // ---------- Scalars ----------

  /** What storing a signed value in a C integer of a size leaves of it. */
  function Truncate(size: nat, v: int): int {
    (v + SizeLimit(size) / 2) % SizeLimit(size) - SizeLimit(size) / 2
  }

  lemma TruncateKeeps(size: nat, v: int)
    ensures Truncate(size, v) == v <==> -SizeLimit(size) <= 2 * v < SizeLimit(size)
  {
  }

  /** pb_dec_varint on an unsigned member. The value is stored and compared with what was read. */
  method DecodeUnsigned(s: InStream, t: Scalar) returns (ok: bool, v: int)
    requires s.Valid() && ValidScalar(t) && t.UVarint?
    modifies s
    ensures ok <==> DecodeScalar(t, old(s.Rest())).Some?
    ensures ok ==> v == DecodeScalar(t, old(s.Rest())).value.0 && s.Consumed(DecodeScalar(t, old(s.Rest())).value.1)
    ensures s.Valid() && s.Inside()
  {
    var value;
    ok, value := s.DecodeVarint();
    v := value % SizeLimit(t.size);
    ok := ok && v == value;
  }

  /** pb_dec_varint on a signed member. */
  method DecodeSigned(s: InStream, t: Scalar) returns (ok: bool, v: int)
    requires s.Valid() && ValidScalar(t) && (t.SInt? || t.ZigZagInt?)
    modifies s
    ensures ok <==> DecodeScalar(t, old(s.Rest())).Some?
    ensures ok ==> v == DecodeScalar(t, old(s.Rest())).value.0 && s.Consumed(DecodeScalar(t, old(s.Rest())).value.1)
    ensures s.Valid() && s.Inside()
  {
    var svalue: int;
    if t.ZigZagInt? {
      ok, svalue := s.DecodeSvarint();
    } else {
      var value;
      ok, value := s.DecodeVarint();
      svalue := if t.size == 8 then Signed64(value) else Signed32(value % TWO_32);
    }
    v := Truncate(t.size, svalue);
    TruncateKeeps(t.size, svalue);
    ok := ok && v == svalue;
  }

  /** decode_basic_field on a scalar whose wire type was checked. */
  method DecodeBasic(s: InStream, t: Scalar) returns (ok: bool, v: int)
    requires s.Valid() && ValidScalar(t)
    modifies s
    ensures ok <==> DecodeScalar(t, old(s.Rest())).Some?
    ensures ok ==> v == DecodeScalar(t, old(s.Rest())).value.0 && s.Consumed(DecodeScalar(t, old(s.Rest())).value.1)
    ensures s.Valid() && s.Inside()
  {
    if t.Bool? {
      var value;
      ok, value := s.DecodeVarint32();
      v := if value != 0 then 1 else 0;
    } else if t.Fixed32? {
      ok, v := s.DecodeFixed(4);
    } else if t.Fixed64? {
      ok, v := s.DecodeFixed(8);
    } else if t.UVarint? {
      ok, v := DecodeUnsigned(s, t);
    } else {
      ok, v := DecodeSigned(s, t);
    }
  }

  /** A scalar that is decoded from the stream is the scalar in the record at its front. */
  lemma ScalarInRecord(t: Scalar, tag: nat, bytes: seq<byte>)
    requires ValidScalar(t)
    ensures DecodeScalar(t, bytes).Some? <==>
      ReadPayload(WireType(t), bytes).Some? &&
      ScalarOf(t, Record(tag, WireType(t), ReadPayload(WireType(t), bytes).value.0)).Some?
    ensures DecodeScalar(t, bytes).Some? ==>
      var (payload, n) := ReadPayload(WireType(t), bytes).value;
      DecodeScalar(t, bytes).value.1 == n &&
      ScalarOf(t, Record(tag, WireType(t), payload)) == Some(DecodeScalar(t, bytes).value.0)
  {
    if IsFixed(t) {
      var size := FixedSize(t);
      assert |bytes| >= size ==> bytes[..size][..size] == bytes[..size];
    } else if VarintLen(bytes).Some? {
      VarintInRecord(bytes);
    }
  }

  lemma VarintInRecord(bytes: seq<byte>)
    requires VarintLen(bytes).Some?
    ensures var n := VarintLen(bytes).value;
      VarintLen(bytes[..n]) == Some(n) &&
      ReadVarint32(bytes[..n]) == ReadVarint32(bytes) && ReadVarint64(bytes[..n]) == ReadVarint64(bytes)
  {
    var n := VarintLen(bytes).value;
    var code := bytes[..n];
    assert code[..n - 1] == bytes[..n - 1] && code[..n] == code;
    ScanLength(code, n);
  }

  /** decode_basic_field on a scalar, with the check of the wire type. */
  method DecodeTyped(s: InStream, wireType: nat, t: Scalar, ghost tag: nat) returns (ok: bool, v: int)
    requires s.Valid() && ValidScalar(t)
    modifies s
    ensures ok <==> (
      ReadPayload(wireType, old(s.Rest())).Some? &&
      ScalarOf(t, Record(tag, wireType, ReadPayload(wireType, old(s.Rest())).value.0)).Some?)
    ensures ok ==>
      ScalarOf(t, Record(tag, wireType, ReadPayload(wireType, old(s.Rest())).value.0)) == Some(v) &&
      s.Consumed(ReadPayload(wireType, old(s.Rest())).value.1)
    ensures s.Valid() && s.Inside()
  {
    if wireType != WireType(t) {
      return false, 0;
    }
    ScalarInRecord(t, tag, s.Rest());
    ok, v := DecodeBasic(s, t);
  }

  // ---------- Arrays ----------

  /** The packed branch of decode_static_field. */
  method DecodePackedArray(s: InStream, t: Scalar, arraySize: nat, ns: seq<int>) returns (ok: bool, elements: seq<int>)
    requires s.Valid() && ValidScalar(t) && AllInRange(t, ns)
    modifies s
    ensures ok <==> (
      ReadDelimited(old(s.Rest())).Some? &&
      DecodePacked(t, arraySize, ns, ReadDelimited(old(s.Rest())).value.0).Some?)
    ensures ok ==>
      DecodePacked(t, arraySize, ns, ReadDelimited(old(s.Rest())).value.0) == Some(elements) &&
      s.Consumed(ReadDelimited(old(s.Rest())).value.1)
    ensures s.Valid() && s.Inside()
  {
    elements := ns;
    var substream;
    ok, substream := s.MakeSubstream();
    if !ok {
      return;
    }
    ok, elements := DecodeElements(substream, t, arraySize, ns);
    if substream.bytesLeft != 0 {
      return false, elements;
    }
    var closed := s.CloseSubstream(substream);
  }

  /** The loop over a packed array: stops at the end of the substream, at the end of the
      array, or at an element that does not decode. */
  method DecodeElements(s: InStream, t: Scalar, arraySize: nat, ns: seq<int>) returns (ok: bool, elements: seq<int>)
    requires s.Valid() && ValidScalar(t) && AllInRange(t, ns)
    modifies s
    ensures s.Valid() && s.Inside()
    ensures ok && s.bytesLeft == 0 <==> DecodePacked(t, arraySize, ns, old(s.Rest())).Some?
    ensures ok && s.bytesLeft == 0 ==>
      DecodePacked(t, arraySize, ns, old(s.Rest())) == Some(elements) && s.Consumed(old(s.bytesLeft))
  {
    ghost var all := s.Rest();
    elements := ns;
    ok := true;
    while s.bytesLeft > 0 && |elements| < arraySize
      invariant s.Valid() && s.pos + s.bytesLeft == old(s.pos + s.bytesLeft) && s.bytesLeft <= old(s.bytesLeft)
      invariant AllInRange(t, elements)
      invariant DecodePacked(t, arraySize, ns, all) == DecodePacked(t, arraySize, elements, s.Rest())
      decreases s.bytesLeft
    {
      ghost var rest := s.Rest();
      label Before:
      var v;
      ok, v := DecodeBasic(s, t);
      if !ok {
        return;
      }
      s.RestAfter@Before(DecodeScalar(t, rest).value.1);
      elements := elements + [v];
    }
  }

  /** decode_static_field on a repeated field. */
  method DecodeArray(s: InStream, wireType: nat, t: Scalar, arraySize: nat, ns: seq<int>, ghost tag: nat)
      returns (ok: bool, elements: seq<int>)
    requires s.Valid() && ValidScalar(t) && AllInRange(t, ns)
    modifies s
    ensures ok <==> (
      ReadPayload(wireType, old(s.Rest())).Some? &&
      DecodeRepeated(t, arraySize, ns, Record(tag, wireType, ReadPayload(wireType, old(s.Rest())).value.0)).Some?)
    ensures ok ==>
      DecodeRepeated(t, arraySize, ns, Record(tag, wireType, ReadPayload(wireType, old(s.Rest())).value.0)) == Some(elements) &&
      s.Consumed(ReadPayload(wireType, old(s.Rest())).value.1)
    ensures s.Valid() && s.Inside()
  {
    if wireType == WT_STRING {
      ok, elements := DecodePackedArray(s, t, arraySize, ns);
    } else {
      elements := ns;
      if |ns| >= arraySize {
        return false, elements;
      }
      var v;
      ok, v := DecodeTyped(s, wireType, t, tag);
      if ok {
        elements := elements + [v];
      }
    }
  }

  // ---------- Submessages, fields and messages ----------

  /** pb_dec_submessage: decodes on top of what the destination holds. */
  method DecodeSubmessage(s: InStream, d: Desc, m: Msg) returns (ok: bool, r: Msg)
    requires s.Valid() && ValidDesc(d) && Shaped(d, m)
    modifies s
    ensures ok <==> ReadDelimited(old(s.Rest())).Some? && DecodeMsg(d, m, ReadDelimited(old(s.Rest())).value.0).Some?
    ensures ok ==>
      DecodeMsg(d, m, ReadDelimited(old(s.Rest())).value.0) == Some(r) &&
      s.Consumed(ReadDelimited(old(s.Rest())).value.1)
    ensures s.Valid() && s.Inside()
    decreases d, 2
  {
    r := m;
    var substream;
    ok, substream := s.MakeSubstream();
    if !ok {
      return;
    }
    ok, r := DecodeInner(substream, d, m);
    var closed := s.CloseSubstream(substream);
  }

  /** decode_static_field on the field at index i. */
  method DecodeField(s: InStream, wireType: nat, d: Desc, i: nat, was: Slot) returns (ok: bool, slot: Slot)
    requires s.Valid() && i < |d.fields| && ValidKind(d, i) && SlotShaped(d, i, was)
    modifies s
    ensures ok <==> (
      ReadPayload(wireType, old(s.Rest())).Some? &&
      DecodeSlot(d, i, was, Record(d.fields[i].tag, wireType, ReadPayload(wireType, old(s.Rest())).value.0)).Some?)
    ensures ok ==>
      DecodeSlot(d, i, was, Record(d.fields[i].tag, wireType, ReadPayload(wireType, old(s.Rest())).value.0)) == Some(slot) &&
      s.Consumed(ReadPayload(wireType, old(s.Rest())).value.1)
    ensures s.Valid() && s.Inside()
    decreases d, 0
  {
    slot := was;
    ghost var tag := d.fields[i].tag;
    match d.fields[i].kind
    case Singular(t) =>
      var v;
      ok, v := DecodeTyped(s, wireType, t, tag);
      slot := Num(v);
    case Repeated(t, arraySize) =>
      var ns;
      ok, ns := DecodeArray(s, wireType, t, arraySize, was.ns, tag);
      slot := Arr(ns);
    case OneofScalar(_, t) =>
      var v;
      ok, v := DecodeTyped(s, wireType, t, tag);
      slot := SetNum(v);
    case OneofMessage(_, sub) =>
      var start := if was.SetMsg? then was.msg else Default(sub);
      if wireType != WT_STRING {
        return false, slot;
      }
      var m;
      ok, m := DecodeSubmessage(s, sub, start);
      slot := SetMsg(m);
  }

  /** pb_decode_inner. */
  method DecodeInner(s: InStream, d: Desc, m: Msg) returns (ok: bool, r: Msg)
    requires s.Valid() && ValidDesc(d) && Shaped(d, m)
    modifies s
    ensures ok <==> DecodeMsg(d, m, old(s.Rest())).Some?
    ensures ok ==> DecodeMsg(d, m, old(s.Rest())) == Some(r) && s.Consumed(old(s.bytesLeft))
    ensures s.Valid() && s.Inside()
    decreases d, 1
  {
    ghost var all := s.Rest();
    r := m;
    while s.bytesLeft > 0
      invariant s.Valid() && s.pos + s.bytesLeft == old(s.pos + s.bytesLeft) && s.bytesLeft <= old(s.bytesLeft)
      invariant Shaped(d, r) && DecodeMsg(d, m, all) == DecodeMsg(d, r, s.Rest())
      decreases s.bytesLeft
    {
      label Before:
      ghost var rest := s.Rest();
      ok, r := DecodeOne(s, d, r);
      if !ok {
        return;
      }
      s.RestAfter@Before(ReadRecord(rest).value.1);
    }
    ok := true;
  }

  /** One round of the loop of pb_decode_inner: a key, then its field, or skipping it. */
  method DecodeOne(s: InStream, d: Desc, m: Msg) returns (ok: bool, r: Msg)
    requires s.Valid() && s.bytesLeft > 0 && ValidDesc(d) && Shaped(d, m)
    modifies s
    ensures ok <==> ReadRecord(old(s.Rest())).Some? && Apply(d, m, ReadRecord(old(s.Rest())).value.0).Some?
    ensures ok ==>
      Apply(d, m, ReadRecord(old(s.Rest())).value.0) == Some(r) && s.Consumed(ReadRecord(old(s.Rest())).value.1)
    ensures s.Valid() && s.Inside()
    decreases d, 1, 0
  {
    r := m;
    var wireType, tag, eof;
    ok, wireType, tag, eof := s.DecodeTag();
    if !ok {
      return;
    }
    if tag == 0 {
      return false, r;
    }
    s.RestAfter(ReadKey(old(s.Rest())).value.2);
    match IndexOfTag(d, tag)
    case None =>
      ok := s.SkipField(wireType);
    case Some(i) =>
      assert ValidKind(d, i) && SlotShaped(d, i, m.slots[i]);
      var slot;
      ok, slot := DecodeField(s, wireType, d, i, m.slots[i]);
      if ok {
        r := With(d, m, i, slot);
      }
  }

  /** pb_istream_from_buffer and pb_decode. */
  method DecodeBuffer(buffer: array<byte>, size: nat, d: Desc) returns (r: Option<Msg>)
    requires size <= buffer.Length && ValidDesc(d)
    ensures r == Decode(d, buffer[..size])
  {
    var stream := new InStream.FromBuffer(buffer, size);
    var ok, m := DecodeInner(stream, d, Default(d));
    r := if ok then Some(m) else None;
  }
}
