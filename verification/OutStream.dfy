/** pb_ostream_t over a memory buffer, and the primitive encoders that write to it. */
module OutStream {
  import opened Words
  import opened Varint
  import opened Schema
  import opened Codec

  /** The contents of the buffer, the write position and the byte count of a stream. */
  datatype State = State(bytes: seq<byte>, pos: nat, written: nat)

  /** t is s after `data` was written at the position. A sizing stream only counts. */
  predicate Wrote(sizing: bool, s: State, t: State, data: seq<byte>) {
    && t.written == s.written + |data|
    && if sizing then t.bytes == s.bytes && t.pos == s.pos
       else
         && t.pos == s.pos + |data| <= |s.bytes|
         && t.bytes == s.bytes[..s.pos] + data + s.bytes[t.pos..]
  }

  /** t is s after a write of which only a part may have been carried out, all of it inside
      the `room` bytes at the position. */
  predicate Confined(s: State, t: State, room: nat) {
    && |t.bytes| == |s.bytes|
    && s.pos + room <= |s.bytes|
    && t.bytes[..s.pos] == s.bytes[..s.pos]
    && t.bytes[s.pos + room..] == s.bytes[s.pos + room..]
  }

  /** The outcome of an attempt to write `data`, whose source is `good` or not, through a
      stream limited to `max` bytes: it succeeds exactly if the source is good and there is
      room, and touches nothing outside the room either way. */
  predicate Attempt(sizing: bool, max: nat, s: State, t: State, data: seq<byte>, good: bool, ok: bool) {
    && (ok <==> good && (sizing || s.written + |data| <= max))
    && (ok ==> Wrote(sizing, s, t, data))
    && (!ok && sizing ==> t.bytes == s.bytes)
    && (!ok && !sizing ==> s.written <= max && Confined(s, t, max - s.written))
  }

  lemma AttemptNothing(sizing: bool, max: nat, s: State)
    requires sizing || (s.written <= max && s.pos <= |s.bytes|)
    ensures Attempt(sizing, max, s, s, [], true, true)
  {
  }

  /** A second attempt after a successful first one makes one attempt at both. */
  lemma AttemptBoth(sizing: bool, max: nat, s: State, t: State, u: State,
                    first: seq<byte>, second: seq<byte>, good: bool, ok: bool)
    requires Attempt(sizing, max, s, t, first, true, true) && Attempt(sizing, max, t, u, second, good, ok)
    ensures Attempt(sizing, max, s, u, first + second, good, ok)
  {
    if !ok && !sizing {
      assert u.bytes[..s.pos] == u.bytes[..t.pos][..s.pos];
      assert t.bytes[..s.pos] == t.bytes[..t.pos][..s.pos];
    }
  }

  /** A first attempt that failed for good makes a failed attempt at both. */
  lemma AttemptFailed(sizing: bool, max: nat, s: State, t: State, first: seq<byte>, second: seq<byte>, good: bool, more: bool)
    requires Attempt(sizing, max, s, t, first, good, false)
    ensures Attempt(sizing, max, s, t, first + second, good && more, false)
  {
  }

  class OutStream {
    const buf: array<byte>
    const sizing: bool
    const maxSize: nat
    var pos: nat
    var written: nat

    ghost predicate Valid()
      reads this
    {
      !sizing ==> written <= maxSize && pos + (maxSize - written) <= buf.Length
    }

    ghost function St(): State
      reads this, buf
    {
      State(buf[..], pos, written)
    }

    /** The whole effect of writing `data`, or failing to. */
    twostate predicate Attempted(data: seq<byte>, good: bool, ok: bool)
      reads this, buf
    {
      old(Valid()) && Valid() && Attempt(sizing, maxSize, old(St()), St(), data, good, ok)
    }

    /** pb_ostream_from_buffer. */
    constructor FromBuffer(buffer: array<byte>, size: nat)
      requires size <= buffer.Length
      ensures Valid() && !sizing && buf == buffer && maxSize == size && pos == 0 && written == 0
    {
      buf, sizing, maxSize, pos, written := buffer, false, size, 0, 0;
    }

    /** PB_OSTREAM_SIZING. */
    constructor Sizing()
      ensures Valid() && sizing && fresh(buf) && written == 0
    {
      buf, sizing, maxSize, pos, written := new byte[0], true, 0, 0, 0;
    }

    /** The limited substream into which pb_encode_submessage writes. */
    constructor Within(parent: OutStream, size: nat)
      requires parent.Valid() && !parent.sizing && parent.written + size <= parent.maxSize
      ensures Valid() && !sizing && buf == parent.buf && maxSize == size && pos == parent.pos && written == 0
    {
      buf, sizing, maxSize, pos, written := parent.buf, false, size, parent.pos, 0;
    }

    /** buf_write: copies the data to the position and moves on. */
    method BufWrite(data: array<byte>, count: nat)
      requires data != buf && count <= data.Length && pos + count <= buf.Length
      modifies this`pos, buf
      ensures pos == old(pos) + count
      ensures buf[..] == old(buf[..])[..old(pos)] + data[..count] + old(buf[..])[pos..]
    {
      ghost var was := buf[..];
      var dest := pos;
      pos := dest + count;
      var i := 0;
      while i < count
        invariant 0 <= i <= count && pos == dest + count
        invariant forall k :: 0 <= k < buf.Length ==>
          buf[k] == if dest <= k < dest + i then data[k - dest] else was[k]
      {
        buf[dest + i] := data[i];
        i := i + 1;
      }
      assert buf[..] == was[..dest] + data[..count] + was[dest + count..];
    }

    /** pb_write, with buf_write as the callback. `bytes` names what `data` points to; a
        sizing stream may be given no data at all. */
    method Write(data: array?<byte>, count: nat, ghost bytes: seq<byte>) returns (ok: bool)
      requires Valid() && |bytes| == count
      requires data == null ==> sizing
      requires data != null ==> data != buf && count <= data.Length && data[..count] == bytes
      modifies this, buf
      ensures Attempted(bytes, true, ok)
    {
      ghost var was := St();
      if count > 0 && !sizing {
        if written + count > maxSize {
          return false;
        }
        BufWrite(data, count);
      }
      written := written + count;
      assert Wrote(sizing, was, St(), bytes);
      ok := true;
    }

    /** pb_encode_varint_32. */
    method EncodeVarint32(low: u32, high: u32) returns (ok: bool)
      requires Valid()
      modifies this, buf
      ensures Attempted(VarintBytes(low + TWO_32 * high), true, ok)
    {
      var buffer := new byte[10];
      var count := SplitVarint(low, high, buffer);
      ok := Write(buffer, count, VarintBytes(low + TWO_32 * high));
    }

    /** pb_encode_varint. */
    method EncodeVarint(value: u64) returns (ok: bool)
      requires Valid()
      modifies this, buf
      ensures Attempted(VarintBytes(value), true, ok)
    {
      if value <= 0x7F {
        var single := new byte[1];
        single[0] := value;
        ok := Write(single, 1, VarintBytes(value));
      } else {
        ok := EncodeVarint32(value % TWO_32, value / TWO_32);
      }
    }

    /** pb_encode_svarint. */
    method EncodeSvarint(value: i64) returns (ok: bool)
      requires Valid()
      modifies this, buf
      ensures Attempted(VarintBytes(ZigZag(value)), true, ok)
    {
      var zigzagged: u64;
      if value < 0 {
        zigzagged := Not64(Unsigned64(value) * 2 % TWO_64);
      } else {
        zigzagged := value * 2;
      }
      ok := EncodeVarint(zigzagged);
    }

    /** pb_encode_fixed32. */
    method EncodeFixed32(val: u32) returns (ok: bool)
      requires Valid()
      modifies this, buf
      ensures Attempted(ScalarBytes(Fixed32, val), true, ok)
    {
      var bytes := new byte[4];
      bytes[0] := val % 256;
      bytes[1] := val / 256 % 256;
      bytes[2] := val / 65536 % 256;
      bytes[3] := val / 16777216 % 256;
      FourBytes(val, FixedSize(Fixed32));
      assert bytes[..] == ScalarBytes(Fixed32, val);
      ok := Write(bytes, 4, ScalarBytes(Fixed32, val));
    }

    /** pb_encode_fixed64. */
    method EncodeFixed64(val: u64) returns (ok: bool)
      requires Valid()
      modifies this, buf
      ensures Attempted(ScalarBytes(Fixed64, val), true, ok)
    {
      var bytes := new byte[8];
      bytes[0] := val % 256;
      bytes[1] := val / 256 % 256;
      bytes[2] := val / 65536 % 256;
      bytes[3] := val / 16777216 % 256;
      bytes[4] := val / TWO_32 % 256;
      bytes[5] := val / 0x100_0000_0000 % 256;
      bytes[6] := val / 0x1_0000_0000_0000 % 256;
      bytes[7] := val / 0x100_0000_0000_0000 % 256;
      EightBytes(val, FixedSize(Fixed64), bytes[..4], bytes[4..]);
      assert bytes[..] == bytes[..4] + bytes[4..];
      ok := Write(bytes, 8, ScalarBytes(Fixed64, val));
    }

    /** pb_encode_tag. */
    method EncodeTag(wireType: nat, tag: nat) returns (ok: bool)
      requires Valid() && wireType < 8 && tag < TWO_32
      modifies this, buf
      ensures Attempted(TagBytes(tag, wireType), true, ok)
    {
      ok := EncodeVarint(8 * tag + wireType);
    }
  }

  lemma FourBytes(val: nat, count: nat)
    requires count >= 4
    ensures LittleEndian(val, count) ==
      [val % 256, val / 256 % 256, val / 65536 % 256, val / 16777216 % 256] + LittleEndian(val / TWO_32, count - 4)
  {
    var a := val / 256;
    var b := a / 256;
    var c := b / 256;
    assert b == val / 65536 && c == val / 16777216 && c / 256 == val / TWO_32;
    assert LittleEndian(c, count - 3) == [c % 256] + LittleEndian(c / 256, count - 4);
    assert LittleEndian(b, count - 2) == [b % 256] + LittleEndian(c, count - 3);
    assert LittleEndian(a, count - 1) == [a % 256] + LittleEndian(b, count - 2);
  }

  lemma EightBytes(val: nat, count: nat, low: seq<byte>, high: seq<byte>)
    requires count == 8
    requires low == [val % 256, val / 256 % 256, val / 65536 % 256, val / 16777216 % 256]
    requires high == [val / TWO_32 % 256, val / 0x100_0000_0000 % 256, val / 0x1_0000_0000_0000 % 256, val / 0x100_0000_0000_0000 % 256]
    ensures LittleEndian(val, count) == low + high
  {
    FourBytes(val, count);
    FourBytes(val / TWO_32, count - 4);
    HighQuotients(val);
  }

  lemma HighQuotients(val: nat)
    ensures val / TWO_32 / 256 == val / 0x100_0000_0000
    ensures val / TWO_32 / 65536 == val / 0x1_0000_0000_0000
    ensures val / TWO_32 / 16777216 == val / 0x100_0000_0000_0000
  {
  }

  /** The body of pb_encode_varint_32 up to the write: the groups of the 64-bit value
      low + 2^32 * high, by 32-bit shifts only. Ten bytes always suffice. */
  method SplitVarint(low: u32, high: u32, buffer: array<byte>) returns (count: nat)
    requires buffer.Length == 10
    modifies buffer
    ensures count <= 10 && buffer[..count] == VarintBytes(low + TWO_32 * high)
  {
    var i, digit := LowGroups(low, high, buffer);
    if high != 0 {
      i, digit := HighGroups(digit, high, buffer);
    }
    buffer[i] := digit;
    count := i + 1;
  }

  /** The first loop: at most four groups from the low word alone. */
  method LowGroups(low0: u32, high: u32, buffer: array<byte>) returns (i: nat, digit: nat)
    requires buffer.Length == 10
    modifies buffer
    ensures i <= 4 && digit < 128 && (high != 0 ==> i == 4 && digit < 16)
    ensures VarintBytes(low0 + TWO_32 * high) ==
      buffer[..i] + if high == 0 then [digit] else VarintBytes(digit + HighPart(4, high))
  {
    var low: nat := low0;
    digit := low % 128;
    low := low / 128;
    i := 0;
    ghost var rest: nat := low0 + TWO_32 * high;
    while i < 4 && (low != 0 || high != 0)
      invariant 0 <= i <= 4
      invariant digit < 128 && digit + 128 * low < LowLimit(i)
      invariant rest == digit + 128 * low + HighPart(i, high)
      invariant VarintBytes(low0 + TWO_32 * high) == buffer[..i] + VarintBytes(rest)
      decreases 4 - i
    {
      LowGroup(i, digit, low, high, rest);
      rest := rest / 128;
      buffer[i] := digit + 128;
      i := i + 1;
      digit := low % 128;
      low := low / 128;
    }
    LowExit(i, digit, low, high, rest);
  }

  /** The second loop: the group that both words share, then groups from the high word. */
  method HighGroups(digit0: nat, high0: u32, buffer: array<byte>) returns (i: nat, digit: nat)
    requires buffer.Length == 10 && digit0 < 16 && high0 != 0
    modifies buffer
    ensures i <= 9 && digit < 128
    ensures old(buffer[..4]) + VarintBytes(digit0 + HighPart(4, high0)) == buffer[..i] + [digit]
  {
    var high: nat := high0;
    HighStart(digit0, high);
    digit := digit0 + high % 8 * 16;
    high := high / 8;
    i := 4;
    while high != 0
      invariant 4 <= i <= 9
      invariant digit < 128 && high < HighLimit(i)
      invariant old(buffer[..4]) + VarintBytes(digit0 + HighPart(4, high0)) == buffer[..i] + VarintBytes(digit + 128 * high)
      decreases high
    {
      HighGroup(digit, high);
      buffer[i] := digit + 128;
      i := i + 1;
      digit := high % 128;
      high := high / 128;
    }
  }

  /** How many values the part of the low word above group i has. */
  function LowLimit(i: nat): nat {
    if i == 0 then TWO_32 else if i == 1 then 33554432 else if i == 2 then 262144 else if i == 3 then 2048 else 16
  }

  /** The weight of the high word behind the part of the low word above group i. */
  function HighPart(i: nat, high: nat): nat {
    if i == 0 then TWO_32 * high else if i == 1 then 33554432 * high else if i == 2 then 262144 * high
    else if i == 3 then 2048 * high else 16 * high
  }

  /** How many values the part of the high word above group i has. */
  function HighLimit(i: nat): nat {
    if i <= 4 then 536870912 else if i == 5 then 4194304 else if i == 6 then 32768
    else if i == 7 then 256 else if i == 8 then 2 else 1
  }

  /** Taking one group of seven bits off the low word. */
  lemma LowGroup(i: nat, digit: nat, low: nat, high: nat, rest: nat)
    requires i < 4 && digit < 128 && digit + 128 * low < LowLimit(i) && (low != 0 || high != 0)
    requires rest == digit + 128 * low + HighPart(i, high)
    ensures low < LowLimit(i + 1)
    ensures VarintBytes(rest) == [digit + 128] + VarintBytes(rest / 128)
    ensures rest / 128 == low % 128 + 128 * (low / 128) + HighPart(i + 1, high)
  {
    assert HighPart(i, high) == 128 * HighPart(i + 1, high);
    assert rest % 128 == digit && rest / 128 == low + HighPart(i + 1, high);
  }

  /** What is left where the first loop ends. */
  lemma LowExit(i: nat, digit: nat, low: nat, high: nat, rest: nat)
    requires i <= 4 && digit < 128 && digit + 128 * low < LowLimit(i) && (i == 4 || (low == 0 && high == 0))
    requires rest == digit + 128 * low + HighPart(i, high)
    ensures low == 0 && (high != 0 ==> i == 4 && digit < 16 && rest == digit + HighPart(4, high))
    ensures high == 0 ==> VarintBytes(rest) == [digit]
  {
  }

  /** The four bits left of the low word and the lowest three of the high word share a group. */
  lemma HighStart(digit: nat, high: nat)
    requires digit < 16
    ensures digit + HighPart(4, high) == digit + high % 8 * 16 + 128 * (high / 8)
    ensures digit + high % 8 * 16 < 128
  {
  }

  lemma HighGroup(digit: nat, high: nat)
    requires digit < 128 && high != 0
    ensures VarintBytes(digit + 128 * high) == [digit + 128] + VarintBytes(high % 128 + 128 * (high / 128))
  {
    var w := digit + 128 * high;
    assert w % 128 == digit && w / 128 == high;
  }
}
