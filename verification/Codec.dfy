/** The wire format as nanopb writes it and reads it: what pb_encode emits for a message, and
    what pb_decode makes of a byte string. Both are functions of the descriptor; the stream
    classes are proved against them. */
module Codec {
  import opened Words
  import opened Varint
  import opened Schema

  const WT_VARINT := 0
  const WT_64BIT := 1
  const WT_STRING := 2
  const WT_32BIT := 5

  // ---------- Scalars ----------

  function WireType(s: Scalar): nat {
    match s
    case Fixed32 => WT_32BIT
    case Fixed64 => WT_64BIT
    case _ => WT_VARINT
  }

  function LittleEndian(n: nat, count: nat): (bytes: seq<byte>)
    ensures |bytes| == count
    decreases count
  {
    if count == 0 then [] else [n % 256] + LittleEndian(n / 256, count - 1)
  }

  function FromLittleEndian(bytes: seq<byte>): nat {
    if bytes == [] then 0 else bytes[0] + 256 * FromLittleEndian(bytes[1..])
  }

  predicate IsFixed(s: Scalar) {
    s.Fixed32? || s.Fixed64?
  }

  function FixedSize(s: Scalar): nat {
    if s.Fixed32? then 4 else 8
  }

  /** The 64-bit pattern that pb_enc_varint passes on. */
  function Pattern(s: Scalar, n: int): (u: u64)
    requires ValidScalar(s) && InRange(s, n) && !IsFixed(s)
  {
    if s.ZigZagInt? then ZigZag(n) else if s.SInt? then Unsigned64(n) else n
  }

  function ScalarBytes(s: Scalar, n: int): (bytes: seq<byte>)
    requires ValidScalar(s) && InRange(s, n)
    ensures |bytes| >= 1
  {
    if IsFixed(s) then LittleEndian(n, FixedSize(s)) else VarintBytes(Pattern(s, n))
  }

  function Signed32(u: u32): int {
    if u >= TWO_31 then u - TWO_32 else u
  }

  /** The value that pb_dec_varint stores for a pattern: members of up to 32 bits see a plain
      varint as an int32 first. */
  function Interpret(s: Scalar, v: u64): int {
    if s.ZigZagInt? then UnZigZag(v)
    else if s.SInt? && s.size == 8 then Signed64(v)
    else if s.SInt? then Signed32(v % TWO_32)
    else v
  }

  /** The value and the size of a scalar at the front of `bytes`. Integers that do not fit the
      C member are errors. */
  function DecodeScalar(s: Scalar, bytes: seq<byte>): (r: Option<(int, nat)>)
    requires ValidScalar(s)
    ensures r.Some? ==> 1 <= r.value.1 <= |bytes| && InRange(s, r.value.0)
  {
    if IsFixed(s) then
      var size := FixedSize(s);
      if |bytes| < size then None else FixedInRange(bytes[..size]); Some((FromLittleEndian(bytes[..size]), size))
    else if s.Bool? then
      match ReadVarint32(bytes)
      case Some((v, n)) => Some((if v != 0 then 1 else 0, n))
      case None => None
    else
      match ReadVarint64(bytes)
      case Some((v, n)) => if InRange(s, Interpret(s, v)) then Some((Interpret(s, v), n)) else None
      case None => None
  }

  lemma {:induction false} FixedInRange(bytes: seq<byte>)
    ensures |bytes| == 4 ==> FromLittleEndian(bytes) < TWO_32
    ensures |bytes| == 8 ==> FromLittleEndian(bytes) < TWO_64
  {
    FromLittleEndianBound(bytes);
    if |bytes| == 8 {
      Shl32(1, 8 * |bytes|);
      Shl32(1, 8 * |bytes| - 32);
    } else if |bytes| == 4 {
      Shl32(1, 8 * |bytes|);
    }
  }

  lemma {:induction false} FromLittleEndianBound(bytes: seq<byte>)
    ensures FromLittleEndian(bytes) < Shl(1, 8 * |bytes|)
    decreases |bytes|
  {
    if bytes != [] {
      FromLittleEndianBound(bytes[1..]);
      Shl7(1, 8 * |bytes[1..]|);
    }
  }

  // ---------- What the encoder emits ----------

  function TagBytes(tag: nat, wireType: nat): seq<byte> {
    VarintBytes(8 * tag + wireType)
  }

  function Delimited(payload: seq<byte>): seq<byte> {
    VarintBytes(|payload|) + payload
  }

  function Flatten(parts: seq<seq<byte>>): seq<byte> {
    if parts == [] then [] else Flatten(parts[..|parts| - 1]) + parts[|parts| - 1]
  }

  function Elements(s: Scalar, ns: seq<int>): seq<seq<byte>>
    requires ValidScalar(s) && AllInRange(s, ns)
  {
    seq(|ns|, k requires 0 <= k < |ns| => ScalarBytes(s, ns[k]))
  }

  function PackedBytes(s: Scalar, ns: seq<int>): seq<byte>
    requires ValidScalar(s) && AllInRange(s, ns)
  {
    Flatten(Elements(s, ns))
  }

  /** Zero-valued singular fields, empty arrays and unselected union members emit nothing. */
  function FieldBytes(d: Desc, i: nat, s: Slot): seq<byte>
    requires i < |d.fields| && ValidKind(d, i) && SlotShaped(d, i, s)
    decreases d, 0
  {
    var tag := d.fields[i].tag;
    match d.fields[i].kind
    case Singular(t) => if s.n == 0 then [] else TagBytes(tag, WireType(t)) + ScalarBytes(t, s.n)
    case Repeated(t, _) => if s.ns == [] then [] else TagBytes(tag, WT_STRING) + Delimited(PackedBytes(t, s.ns))
    case OneofScalar(_, t) => if s.Unset? then [] else TagBytes(tag, WireType(t)) + ScalarBytes(t, s.n)
    case OneofMessage(_, sub) => if s.Unset? then [] else TagBytes(tag, WT_STRING) + Delimited(MsgBytes(sub, s.msg))
  }

  /** The bytes of the first k fields. */
  function PrefixBytes(d: Desc, m: Msg, k: nat): seq<byte>
    requires ValidDesc(d) && Shaped(d, m) && k <= |d.fields|
    decreases d, 1, k
  {
    if k == 0 then [] else PrefixBytes(d, m, k - 1) + FieldBytes(d, k - 1, m.slots[k - 1])
  }

  function MsgBytes(d: Desc, m: Msg): seq<byte>
    requires ValidDesc(d) && Shaped(d, m)
    decreases d, 2
  {
    PrefixBytes(d, m, |d.fields|)
  }

  // ---------- What the decoder makes of bytes ----------

  /** A field key with its payload. The payload of a length-delimited record is what the
      length announces, without the length itself. */
  datatype Record = Record(tag: nat, wireType: nat, payload: seq<byte>)

  /** A field key at the front of `bytes`: tag, wire type and its size. Tag zero is an error. */
  function ReadKey(bytes: seq<byte>): (r: Option<(nat, nat, nat)>)
    ensures r.Some? ==> r.value.0 > 0 && 1 <= r.value.2 <= |bytes|
  {
    match ReadVarint32(bytes)
    case Some((key, n)) => if key / 8 == 0 then None else Some((key / 8, key % 8, n))
    case None => None
  }

  /** A length-delimited payload at the front of `bytes`, and its size with the length. */
  function ReadDelimited(bytes: seq<byte>): (r: Option<(seq<byte>, nat)>)
    ensures r.Some? ==> |r.value.0| < r.value.1 <= |bytes|
  {
    match ReadVarint32(bytes)
    case Some((size, n)) => if size <= |bytes| - n then Some((bytes[n..n + size], n + size)) else None
    case None => None
  }

  function Front(bytes: seq<byte>, size: nat): Option<(seq<byte>, nat)> {
    if |bytes| >= size then Some((bytes[..size], size)) else None
  }

  /** The payload at the front of `bytes` and its size: what pb_skip_field passes over. */
  function ReadPayload(wireType: nat, bytes: seq<byte>): (r: Option<(seq<byte>, nat)>)
    ensures r.Some? ==> |r.value.0| <= r.value.1 <= |bytes|
  {
    if wireType == WT_VARINT then
      match VarintLen(bytes)
      case Some(n) => Front(bytes, n)
      case None => None
    else if wireType == WT_64BIT then Front(bytes, 8)
    else if wireType == WT_STRING then ReadDelimited(bytes)
    else if wireType == WT_32BIT then Front(bytes, 4)
    else None
  }

  function ReadRecord(bytes: seq<byte>): (r: Option<(Record, nat)>)
    ensures r.Some? ==> |r.value.0.payload| < r.value.1 <= |bytes|
  {
    match ReadKey(bytes)
    case None => None
    case Some((tag, wireType, n)) =>
      match ReadPayload(wireType, bytes[n..])
      case Some((payload, size)) => Some((Record(tag, wireType, payload), n + size))
      case None => None
  }

  /** m with slot i replaced; selecting a union member deselects its siblings. */
  function With(d: Desc, m: Msg, i: nat, s: Slot): (r: Msg)
    requires ValidDesc(d) && Shaped(d, m) && i < |d.fields| && SlotShaped(d, i, s)
    ensures Shaped(d, r)
  {
    Msg(seq(|m.slots|, j requires 0 <= j < |m.slots| =>
      if j == i then s else if SameUnion(d, i, j) then Unset else m.slots[j]))
  }

  /** The elements of a packed record appended to those already there, up to the array size. */
  function DecodePacked(s: Scalar, arraySize: nat, ns: seq<int>, bytes: seq<byte>): (r: Option<seq<int>>)
    requires ValidScalar(s) && AllInRange(s, ns)
    ensures r.Some? ==> |r.value| == |ns| || |r.value| <= arraySize
    ensures r.Some? ==> AllInRange(s, r.value)
    decreases |bytes|
  {
    if bytes == [] then Some(ns)
    else if |ns| >= arraySize then None
    else match DecodeScalar(s, bytes)
      case None => None
      case Some((v, n)) => DecodePacked(s, arraySize, ns + [v], bytes[n..])
  }

  /** The scalar in a record of the right wire type. */
  function ScalarOf(s: Scalar, rec: Record): (r: Option<int>)
    requires ValidScalar(s)
    ensures r.Some? ==> InRange(s, r.value)
  {
    if rec.wireType != WireType(s) then None
    else match DecodeScalar(s, rec.payload)
      case Some((v, _)) => Some(v)
      case None => None
  }

  /** A repeated field takes a packed record or a single element. */
  function DecodeRepeated(s: Scalar, arraySize: nat, ns: seq<int>, rec: Record): (r: Option<seq<int>>)
    requires ValidScalar(s) && AllInRange(s, ns)
    ensures r.Some? ==> AllInRange(s, r.value)
    ensures r.Some? ==> |r.value| == |ns| || |r.value| <= arraySize
  {
    if rec.wireType == WT_STRING then DecodePacked(s, arraySize, ns, rec.payload)
    else if |ns| >= arraySize then None
    else match ScalarOf(s, rec)
      case Some(v) => Some(ns + [v])
      case None => None
  }

  /** What a submessage record is decoded on top of: the same member's present contents, or a
      cleared one if the union holds something else. */
  function Start(sub: Desc, was: Slot): (m: Msg)
    requires ValidDesc(sub) && (was.Unset? || (was.SetMsg? && Shaped(sub, was.msg)))
    ensures Shaped(sub, m)
  {
    if was.Unset? then Default(sub) else was.msg
  }

  /** The slot that field i gets from a record. */
  function DecodeSlot(d: Desc, i: nat, was: Slot, rec: Record): (r: Option<Slot>)
    requires i < |d.fields| && ValidKind(d, i) && SlotShaped(d, i, was)
    ensures r.Some? ==> SlotShaped(d, i, r.value)
    decreases |rec.payload|, 2
  {
    match d.fields[i].kind
    case Singular(t) => (
      match ScalarOf(t, rec)
      case Some(v) => Some(Num(v))
      case None => None
    )
    case Repeated(t, arraySize) => (
      match DecodeRepeated(t, arraySize, was.ns, rec)
      case Some(ns) => Some(Arr(ns))
      case None => None
    )
    case OneofScalar(_, t) => (
      match ScalarOf(t, rec)
      case Some(v) => Some(SetNum(v))
      case None => None
    )
    case OneofMessage(_, sub) =>
      if rec.wireType != WT_STRING then None
      else match DecodeMsg(sub, Start(sub, was), rec.payload)
        case Some(msg) => Some(SetMsg(msg))
        case None => None
  }

  /** The effect of one record: decoded into its field, or skipped if no field has its tag. */
  function Apply(d: Desc, m: Msg, rec: Record): (r: Option<Msg>)
    requires ValidDesc(d) && Shaped(d, m)
    ensures r.Some? ==> Shaped(d, r.value)
    decreases |rec.payload|, 3
  {
    match IndexOfTag(d, rec.tag)
    case None => Some(m)
    case Some(i) =>
      match DecodeSlot(d, i, m.slots[i], rec)
      case Some(s) => Some(With(d, m, i, s))
      case None => None
  }

  /** pb_decode_inner on a message that already holds m, over a stream that ends after `bytes`. */
  function DecodeMsg(d: Desc, m: Msg, bytes: seq<byte>): (r: Option<Msg>)
    requires ValidDesc(d) && Shaped(d, m)
    ensures r.Some? ==> Shaped(d, r.value)
    decreases |bytes|, 1
  {
    if bytes == [] then Some(m)
    else match ReadRecord(bytes)
      case None => None
      case Some((rec, n)) =>
        match Apply(d, m, rec)
        case None => None
        case Some(next) => DecodeMsg(d, next, bytes[n..])
  }

  /** pb_decode: the destination is first set to its defaults. */
  function Decode(d: Desc, bytes: seq<byte>): Option<Msg>
    requires ValidDesc(d)
  {
    DecodeMsg(d, Default(d), bytes)
  }
}
