/** Reading back what was just written, piece by piece, and the fact that no reader looks
    beyond the record it consumes. */
module WireLemmas {
  import opened Words
  import opened Varint
  import opened Schema
  import opened Codec

  // ---------- Scalars ----------

  lemma {:induction false} LittleEndianRoundTrip(n: nat, count: nat)
    requires n < Shl(1, 8 * count)
    ensures FromLittleEndian(LittleEndian(n, count)) == n
    decreases count
  {
    if count > 0 {
      Shl7(1, 8 * (count - 1));
      LittleEndianRoundTrip(n / 256, count - 1);
      assert LittleEndian(n, count)[1..] == LittleEndian(n / 256, count - 1);
    }
  }

  lemma FixedRoundTrip(n: nat, count: nat, rest: seq<byte>)
    requires (count == 4 && n < TWO_32) || (count == 8 && n < TWO_64)
    ensures (LittleEndian(n, count) + rest)[..count] == LittleEndian(n, count)
    ensures FromLittleEndian(LittleEndian(n, count)) == n
  {
    Shl32(1, 8 * count);
    if count == 8 {
      Shl32(1, 8 * count - 32);
    }
    LittleEndianRoundTrip(n, count);
  }

  /** What pb_enc_varint writes for an integer, pb_dec_varint reads back. */
  lemma InterpretPattern(s: Scalar, n: int)
    requires ValidScalar(s) && InRange(s, n) && !IsFixed(s) && !s.Bool?
    ensures Interpret(s, Pattern(s, n)) == n
  {
    if s.ZigZagInt? {
      ZigZagBijection(n, 0);
    } else if s.SInt? && n < 0 && s.size != 8 {
      assert (n + TWO_64) % TWO_32 == n + TWO_32;
    }
  }

  /** Every scalar that its C member can hold is read back from its encoding. */
  lemma ScalarRoundTrip(s: Scalar, n: int, rest: seq<byte>)
    requires ValidScalar(s) && InRange(s, n)
    ensures DecodeScalar(s, ScalarBytes(s, n) + rest) == Some((n, |ScalarBytes(s, n)|))
  {
    if IsFixed(s) {
      FixedRoundTrip(n, FixedSize(s), rest);
    } else if s.Bool? {
      Varint32Canonical(n, rest);
    } else {
      InterpretPattern(s, n);
      Varint64RoundTrip(Pattern(s, n), rest);
    }
  }

  lemma DelimitedRoundTrip(payload: seq<byte>, rest: seq<byte>)
    requires |payload| < TWO_32
    ensures ReadDelimited(Delimited(payload) + rest) == Some((payload, |Delimited(payload)|))
  {
    var size := VarintBytes(|payload|);
    var bytes := Delimited(payload) + rest;
    assert bytes == size + (payload + rest);
    Varint32Canonical(|payload|, payload + rest);
    assert bytes[|size|..|size| + |payload|] == payload;
  }

  lemma DelimitedStable(bytes: seq<byte>, rest: seq<byte>)
    requires ReadDelimited(bytes).Some?
    ensures ReadDelimited(bytes + rest) == ReadDelimited(bytes)
  {
    VarintStable(bytes, rest);
    var (size, n) := ReadVarint32(bytes).value;
    assert (bytes + rest)[n..n + size] == bytes[n..n + size];
  }

  // ---------- Packed arrays ----------

  lemma {:induction false} FlattenCons(parts: seq<seq<byte>>)
    requires parts != []
    ensures Flatten(parts) == parts[0] + Flatten(parts[1..])
    decreases |parts|
  {
    var last := |parts| - 1;
    if last == 0 {
      assert parts[..last] == [] && parts[1..] == [];
    } else {
      var front, tail := parts[..last], parts[1..];
      FlattenCons(front);
      assert front[1..] == tail[..last - 1];
      Regroup(parts[0], Flatten(front[1..]), parts[last]);
    }
  }

  lemma Regroup(a: seq<byte>, b: seq<byte>, c: seq<byte>)
    ensures a + b + c == a + (b + c)
  {
  }

  lemma PackedBytesCons(s: Scalar, ns: seq<int>)
    requires ValidScalar(s) && AllInRange(s, ns) && ns != []
    ensures PackedBytes(s, ns) == ScalarBytes(s, ns[0]) + PackedBytes(s, ns[1..])
  {
    FlattenCons(Elements(s, ns));
    assert Elements(s, ns)[1..] == Elements(s, ns[1..]);
  }

  lemma PackedStep(s: Scalar, arraySize: nat, was: seq<int>, n: int, rest: seq<byte>)
    requires ValidScalar(s) && AllInRange(s, was) && InRange(s, n)
    ensures DecodePacked(s, arraySize, was, ScalarBytes(s, n) + rest) ==
      if |was| >= arraySize then None else DecodePacked(s, arraySize, was + [n], rest)
  {
    ScalarRoundTrip(s, n, rest);
    var bytes, head := ScalarBytes(s, n) + rest, |ScalarBytes(s, n)|;
    assert bytes[head..] == rest;
  }

  /** Packed elements are appended to the elements already decoded, as long as the array has
      room for all of them; otherwise decoding fails. */
  lemma {:induction false} PackedRoundTrip(s: Scalar, arraySize: nat, was: seq<int>, ns: seq<int>)
    requires ValidScalar(s) && AllInRange(s, was) && AllInRange(s, ns)
    ensures DecodePacked(s, arraySize, was, PackedBytes(s, ns)) ==
      if ns == [] || |was| + |ns| <= arraySize then Some(was + ns) else None
    decreases |ns|
  {
    if ns == [] {
      assert was + ns == was;
    } else {
      var n, more := ns[0], ns[1..];
      PackedBytesCons(s, ns);
      PackedStep(s, arraySize, was, n, PackedBytes(s, more));
      if |was| < arraySize {
        var next := was + [n];
        PackedRoundTrip(s, arraySize, next, more);
        MoveFirst(was, ns);
      }
    }
  }

  lemma MoveFirst(was: seq<int>, ns: seq<int>)
    requires ns != []
    ensures was + [ns[0]] + ns[1..] == was + ns
  {
  }

  lemma {:induction false} FlattenBounds(parts: seq<seq<byte>>)
    requires forall k :: 0 <= k < |parts| ==> 1 <= |parts[k]| <= 10
    ensures |parts| <= |Flatten(parts)| <= 10 * |parts|
    ensures (forall k :: 0 <= k < |parts| ==> |parts[k]| == 4) ==> |Flatten(parts)| == 4 * |parts|
    ensures (forall k :: 0 <= k < |parts| ==> |parts[k]| == 8) ==> |Flatten(parts)| == 8 * |parts|
    decreases |parts|
  {
    if parts != [] {
      FlattenBounds(parts[..|parts| - 1]);
    }
  }

  /** The length prefix of a packed array is the sum of the element encodings. */
  lemma PackedLength(s: Scalar, ns: seq<int>)
    requires ValidScalar(s) && AllInRange(s, ns)
    ensures s.Fixed32? ==> |PackedBytes(s, ns)| == 4 * |ns|
    ensures s.Fixed64? ==> |PackedBytes(s, ns)| == 8 * |ns|
    ensures |ns| <= |PackedBytes(s, ns)| <= 10 * |ns|
  {
    forall k | 0 <= k < |ns|
      ensures 1 <= |Elements(s, ns)[k]| <= 10 && (IsFixed(s) ==> |Elements(s, ns)[k]| == FixedSize(s))
    {
      ScalarLength(s, ns[k]);
    }
    FlattenBounds(Elements(s, ns));
  }

  lemma ScalarLength(s: Scalar, n: int)
    requires ValidScalar(s) && InRange(s, n)
    ensures 1 <= |ScalarBytes(s, n)| <= 10
    ensures IsFixed(s) ==> |ScalarBytes(s, n)| == FixedSize(s)
  {
    if !IsFixed(s) {
      VarintAtMost10(Pattern(s, n));
    }
  }

  // ---------- Records ----------

  lemma KeyRoundTrip(tag: nat, wireType: nat, rest: seq<byte>)
    requires 0 < tag < 0x1000_0000 && wireType < 8
    ensures ReadKey(TagBytes(tag, wireType) + rest) == Some((tag, wireType, |TagBytes(tag, wireType)|))
  {
    Varint32Canonical(8 * tag + wireType, rest);
  }

  /** A key in front of a readable payload makes a record. */
  lemma RecordRoundTrip(tag: nat, wireType: nat, bytes: seq<byte>, rest: seq<byte>)
    requires 0 < tag < 0x1000_0000 && wireType < 8
    requires ReadPayload(wireType, bytes + rest).Some?
    ensures var (payload, n) := ReadPayload(wireType, bytes + rest).value;
      ReadRecord(TagBytes(tag, wireType) + bytes + rest) == Some((Record(tag, wireType, payload), |TagBytes(tag, wireType)| + n))
  {
    var key := TagBytes(tag, wireType);
    KeyRoundTrip(tag, wireType, bytes + rest);
    assert key + bytes + rest == key + (bytes + rest);
    assert (key + bytes + rest)[|key|..] == bytes + rest;
  }

  lemma PayloadStable(wireType: nat, bytes: seq<byte>, rest: seq<byte>)
    requires ReadPayload(wireType, bytes).Some?
    ensures ReadPayload(wireType, bytes + rest) == ReadPayload(wireType, bytes)
  {
    var n := ReadPayload(wireType, bytes).value.1;
    assert (bytes + rest)[..n] == bytes[..n];
    if wireType == WT_VARINT {
      LenStable(bytes, rest);
    } else if wireType == WT_STRING {
      DelimitedStable(bytes, rest);
    }
  }

  lemma RecordStable(bytes: seq<byte>, rest: seq<byte>)
    requires ReadRecord(bytes).Some?
    ensures ReadRecord(bytes + rest) == ReadRecord(bytes)
  {
    VarintStable(bytes, rest);
    var (tag, wireType, n) := ReadKey(bytes).value;
    PayloadStable(wireType, bytes[n..], rest);
    assert (bytes + rest)[n..] == bytes[n..] + rest;
  }

  // ---------- Whole messages ----------

  /** Decoding a concatenation is decoding the second part on top of what the first part
      left, whenever the first part ends at a field boundary. */
  lemma {:induction false} DecodeConcat(d: Desc, m: Msg, first: seq<byte>, second: seq<byte>)
    requires ValidDesc(d) && Shaped(d, m) && DecodeMsg(d, m, first).Some?
    ensures DecodeMsg(d, m, first + second) == DecodeMsg(d, DecodeMsg(d, m, first).value, second)
    decreases |first|
  {
    if first == [] {
      assert first + second == second;
    } else {
      RecordStable(first, second);
      var (rec, n) := ReadRecord(first).value;
      assert (first + second)[n..] == first[n..] + second;
      DecodeConcat(d, Apply(d, m, rec).value, first[n..], second);
    }
  }

  /** A stream that starts with a record. */
  lemma RecordFirst(d: Desc, m: Msg, bytes: seq<byte>, rec: Record, rest: seq<byte>)
    requires ValidDesc(d) && Shaped(d, m) && bytes != []
    requires ReadRecord(bytes + rest) == Some((rec, |bytes|))
    ensures DecodeMsg(d, m, bytes + rest) ==
      match Apply(d, m, rec)
      case Some(next) => DecodeMsg(d, next, rest)
      case None => None
  {
    assert (bytes + rest)[|bytes|..] == rest;
  }

  lemma UnknownFirst(d: Desc, m: Msg, unknown: seq<byte>, rec: Record, rest: seq<byte>)
    requires ValidDesc(d) && Shaped(d, m)
    requires ReadRecord(unknown) == Some((rec, |unknown|)) && IndexOfTag(d, rec.tag).None?
    ensures DecodeMsg(d, m, unknown + rest) == DecodeMsg(d, m, rest)
  {
    RecordStable(unknown, rest);
    RecordFirst(d, m, unknown, rec, rest);
  }

  /** A record that the descriptor does not know, with any skippable payload, changes nothing
      wherever it is inserted at a field boundary. */
  lemma UnknownFieldIgnored(d: Desc, m: Msg, before: seq<byte>, unknown: seq<byte>, rec: Record, after: seq<byte>)
    requires ValidDesc(d) && Shaped(d, m) && DecodeMsg(d, m, before).Some?
    requires ReadRecord(unknown) == Some((rec, |unknown|)) && IndexOfTag(d, rec.tag).None?
    ensures DecodeMsg(d, m, before + (unknown + after)) == DecodeMsg(d, m, before + after)
  {
    DecodeConcat(d, m, before, after);
    DecodeConcat(d, m, before, unknown + after);
    UnknownFirst(d, DecodeMsg(d, m, before).value, unknown, rec, after);
  }

  // ---------- What is refused ----------

  /** The wire types by number: a varint is 0, eight bytes are 1, a length-delimited payload is
      2, four bytes are 5. A repeated field takes its elements packed or one by one. */
  predicate Takes(kind: Kind, wireType: nat) {
    match kind
    case Singular(t) => wireType == (if t.Fixed32? then 5 else if t.Fixed64? then 1 else 0)
    case Repeated(t, _) => wireType == 2 || wireType == (if t.Fixed32? then 5 else if t.Fixed64? then 1 else 0)
    case OneofScalar(_, t) => wireType == (if t.Fixed32? then 5 else if t.Fixed64? then 1 else 0)
    case OneofMessage(_, _) => wireType == 2
  }

  /** A record of the wrong wire type for its field makes the whole decode fail, wherever it is
      and whatever it holds. */
  lemma WrongTypeRefused(d: Desc, m: Msg, before: seq<byte>, bytes: seq<byte>, rec: Record, after: seq<byte>)
    requires ValidDesc(d) && Shaped(d, m) && DecodeMsg(d, m, before).Some?
    requires ReadRecord(bytes) == Some((rec, |bytes|)) && IndexOfTag(d, rec.tag).Some?
    requires !Takes(d.fields[IndexOfTag(d, rec.tag).value].kind, rec.wireType)
    ensures DecodeMsg(d, m, before + (bytes + after)).None?
  {
    var i := IndexOfTag(d, rec.tag).value;
    var on := DecodeMsg(d, m, before).value;
    DecodeConcat(d, m, before, bytes + after);
    RecordStable(bytes, after);
    RecordFirst(d, on, bytes, rec, after);
    assert DecodeSlot(d, i, on.slots[i], rec).None?;
  }

  lemma NoRecordRefused(d: Desc, m: Msg, before: seq<byte>, bytes: seq<byte>)
    requires ValidDesc(d) && Shaped(d, m) && DecodeMsg(d, m, before).Some? && bytes != []
    requires ReadRecord(bytes).None?
    ensures DecodeMsg(d, m, before + bytes).None?
  {
    DecodeConcat(d, m, before, bytes);
  }

  lemma BadKeyReadsNothing(bytes: seq<byte>)
    requires ReadVarint32(bytes).Some? ==>
      var key := ReadVarint32(bytes).value.0;
      key < 8 || key % 8 == 3 || key % 8 == 4 || key % 8 == 6 || key % 8 == 7
    ensures ReadRecord(bytes).None?
  {
    if ReadKey(bytes).Some? {
      var (tag, wireType, n) := ReadKey(bytes).value;
      assert ReadPayload(wireType, bytes[n..]).None?;
    }
  }

  /** Where a decode meets a key with tag zero, or with one of the wire types 3, 4, 6 and 7, or
      no complete key, it fails. */
  lemma BadKeyRefused(d: Desc, m: Msg, before: seq<byte>, bytes: seq<byte>)
    requires ValidDesc(d) && Shaped(d, m) && DecodeMsg(d, m, before).Some? && bytes != []
    requires ReadVarint32(bytes).Some? ==>
      var key := ReadVarint32(bytes).value.0;
      key < 8 || key % 8 == 3 || key % 8 == 4 || key % 8 == 6 || key % 8 == 7
    ensures DecodeMsg(d, m, before + bytes).None?
  {
    BadKeyReadsNothing(bytes);
    NoRecordRefused(d, m, before, bytes);
  }

  // ---------- Which numbers the members take ----------

  /** The range of a C integer of so many bytes. */
  predicate Fits(n: int, size: nat, signed: bool) {
    match size
    case 1 => if signed then -128 <= n < 128 else 0 <= n < 256
    case 2 => if signed then -32768 <= n < 32768 else 0 <= n < 65536
    case 4 => if signed then -0x8000_0000 <= n < 0x8000_0000 else 0 <= n < 0x1_0000_0000
    case 8 => if signed then -0x8000_0000_0000_0000 <= n < 0x8000_0000_0000_0000 else 0 <= n < 0x1_0000_0000_0000_0000
    case _ => false
  }

  /** An unsigned member takes the number that the varint denotes if it fits the member, and is
      an error otherwise; a bool takes whether it is other than zero. */
  lemma UnsignedDecodes(size: nat, bytes: seq<byte>)
    requires ValidScalar(UVarint(size))
    ensures DecodeScalar(UVarint(size), bytes) ==
      match ReadVarint64(bytes)
      case Some((v, n)) => if Fits(v, size, false) then Some((v, n)) else None
      case None => None
    ensures DecodeScalar(Bool, bytes) ==
      match ReadVarint32(bytes)
      case Some((v, n)) => Some((if v == 0 then 0 else 1, n))
      case None => None
  {
  }

  /** A signed member of eight bytes takes the varint as an int64; a shorter one takes its lower
      32 bits as an int32, if that fits the member. */
  lemma SignedDecodes(size: nat, bytes: seq<byte>)
    requires ValidScalar(SInt(size))
    ensures DecodeScalar(SInt(size), bytes) ==
      match ReadVarint64(bytes)
      case None => None
      case Some((v, n)) =>
        var word := v % 0x1_0000_0000;
        var value := if size == 8 then if v < 0x8000_0000_0000_0000 then v else v - 0x1_0000_0000_0000_0000
          else if word < 0x8000_0000 then word else word - 0x1_0000_0000;
        if Fits(value, size, true) then Some((value, n)) else None
  {
  }
}
