/** Base-128 varints (Protocol Buffers Encoding, "Base 128 Varints") and ZigZag ("Signed
    Integers"): the minimal encoding, what the 64-bit and the 32-bit reader of nanopb
    accept, and how the two readers relate. */
module Varint {
  import opened Words

  /** The minimal base-128 encoding, least significant group first. */
  function VarintBytes(v: nat): (bytes: seq<byte>)
    ensures |bytes| >= 1
  {
    if v < 128 then [v] else [v % 128 + 128] + VarintBytes(v / 128)
  }

  /** The number that a run of bytes denotes when each contributes its low seven bits. */
  function Sum7(bytes: seq<byte>): nat {
    if bytes == [] then 0 else bytes[0] % 128 + 128 * Sum7(bytes[1..])
  }

  /** Every byte announces a successor. */
  predicate AllContinue(bytes: seq<byte>) {
    forall i :: 0 <= i < |bytes| ==> bytes[i] >= 128
  }

  /** Bytes up to and including the first one without a continuation bit. */
  function VarintLen(bytes: seq<byte>): (n: Option<nat>)
    ensures n.Some? ==> 1 <= n.value <= |bytes| && AllContinue(bytes[..n.value - 1]) && bytes[n.value - 1] < 128
    ensures n.None? ==> AllContinue(bytes)
  {
    if bytes == [] then None
    else if bytes[0] < 128 then Some(1)
    else match VarintLen(bytes[1..])
      case None => None
      case Some(n) => Some(n + 1)
  }

  /** What pb_decode_varint delivers on a stream holding `bytes`: the value and how many
      bytes it consumes. Eleven-byte varints overflow; bits above 63 are shifted out. */
  function ReadVarint64(bytes: seq<byte>): Option<(u64, nat)> {
    match VarintLen(bytes)
    case Some(n) => if n <= 10 then Some((Sum7(bytes[..n]) % TWO_64, n)) else None
    case None => None
  }

  /** The bytes that the 32-bit reader tolerates above bit 31: padding zeros, or the sign
      extension of a negative int32. */
  predicate ValidExtension(low: u32, bitpos: nat, x: byte) {
    x % 128 == 0 || (low >= TWO_31 && x == if bitpos < 63 then 0xFF else 0x01)
  }

  /** Whether the 32-bit reader accepts a complete varint. Four bits of a fifth and last byte
      fit; a fifth byte that is not the last loses its upper bits unnoticed. */
  predicate Accepts32(code: seq<byte>) {
    && |code| <= 10
    && (|code| == 5 ==> code[4] < 16)
    && forall i :: 5 <= i < |code| ==> ValidExtension(Sum7(code[..5]) % TWO_32, 7 * i, code[i])
  }

  /** What pb_decode_varint32 delivers on a stream holding `bytes`. */
  function ReadVarint32(bytes: seq<byte>): (r: Option<(u32, nat)>)
    ensures r.Some? ==> 1 <= r.value.1 <= |bytes|
  {
    match VarintLen(bytes)
    case Some(n) => if Accepts32(bytes[..n]) then Some((Sum7(bytes[..n]) % TWO_32, n)) else None
    case None => None
  }

  // ---------- Sums and lengths ----------

  lemma {:induction false} Sum7Concat(low: seq<byte>, high: seq<byte>)
    ensures Sum7(low + high) == Sum7(low) + Shl(Sum7(high), 7 * |low|)
    decreases |low|
  {
    if low == [] {
      assert low + high == high;
    } else {
      assert (low + high)[1..] == low[1..] + high;
      Sum7Concat(low[1..], high);
      Shl7(Sum7(high), 7 * |low[1..]|);
    }
  }

  lemma Sum7Single(x: byte)
    ensures Sum7([x]) == x % 128
  {
    assert Sum7([x]) == x % 128 + 128 * Sum7([]);
  }

  /** Sum7 of k bytes fits in 7k bits. */
  lemma {:induction false} Sum7Bound(bytes: seq<byte>)
    ensures Sum7(bytes) < Shl(1, 7 * |bytes|)
    decreases |bytes|
  {
    if bytes != [] {
      Sum7Bound(bytes[1..]);
      Shl7(1, 7 * |bytes[1..]|);
    }
  }

  lemma {:induction false} LenOfPrefix(head: seq<byte>, x: byte, rest: seq<byte>)
    requires AllContinue(head) && x < 128
    ensures VarintLen(head + [x] + rest) == Some(|head| + 1)
    decreases |head|
  {
    var whole := head + [x] + rest;
    if head != [] {
      assert whole[1..] == head[1..] + [x] + rest;
      LenOfPrefix(head[1..], x, rest);
    }
  }

  lemma LenStable(bytes: seq<byte>, rest: seq<byte>)
    requires VarintLen(bytes).Some?
    ensures VarintLen(bytes + rest) == VarintLen(bytes)
  {
    var n := VarintLen(bytes).value;
    assert bytes + rest == bytes[..n - 1] + [bytes[n - 1]] + (bytes[n..] + rest);
    LenOfPrefix(bytes[..n - 1], bytes[n - 1], bytes[n..] + rest);
  }

  // ---------- The minimal encoding ----------

  /** VarintBytes denotes its argument and is well terminated. */
  lemma {:induction false} VarintBytesDenote(v: nat)
    ensures Sum7(VarintBytes(v)) == v
    ensures VarintLen(VarintBytes(v)) == Some(|VarintBytes(v)|)
  {
    if v >= 128 {
      VarintBytesDenote(v / 128);
      assert VarintBytes(v)[1..] == VarintBytes(v / 128);
    } else {
      assert VarintBytes(v)[1..] == [];
    }
  }

  /** VarintBytes has no superfluous byte. */
  lemma {:induction false} VarintBytesFloor(v: nat)
    ensures v == 0 || v >= Shl(1, 7 * (|VarintBytes(v)| - 1))
  {
    if v >= 128 {
      VarintBytesFloor(v / 128);
      Shl7(1, 7 * (|VarintBytes(v / 128)| - 1));
    }
  }

  lemma ShlPrefix(a: nat, b: nat)
    ensures a <= b ==> Shl(1, a) <= Shl(1, b)
  {
    if a <= b {
      ShlShl(1, a, b - a);
    }
  }

  lemma VarintLengthBound(v: nat, k: nat)
    requires v < Shl(1, 7 * k) && k >= 1
    ensures |VarintBytes(v)| <= k
  {
    VarintBytesFloor(v);
    ShlPrefix(7 * k, 7 * (|VarintBytes(v)| - 1));
  }

  /** No byte string with fewer bytes denotes the same number. */
  lemma VarintBytesMinimal(v: nat, other: seq<byte>)
    requires Sum7(other) == v && other != []
    ensures |VarintBytes(v)| <= |other|
  {
    Sum7Bound(other);
    VarintLengthBound(v, |other|);
  }

  lemma VarintAtMost10(v: u64)
    ensures |VarintBytes(v)| <= 10
  {
    Shl32(1, 70);
    Shl32(1, 38);
    VarintLengthBound(v, 10);
  }

  /** A reader that meets a minimal encoding at the front of a stream sees exactly it. */
  lemma EncodingInFront(v: nat, rest: seq<byte>)
    ensures VarintLen(VarintBytes(v) + rest) == Some(|VarintBytes(v)|)
    ensures (VarintBytes(v) + rest)[..|VarintBytes(v)|] == VarintBytes(v)
  {
    VarintBytesDenote(v);
    LenStable(VarintBytes(v), rest);
  }

  /** The 64-bit reader undoes the minimal encoding of every 64-bit value. */
  lemma Varint64RoundTrip(v: u64, rest: seq<byte>)
    ensures |VarintBytes(v)| <= 10
    ensures ReadVarint64(VarintBytes(v) + rest) == Some((v, |VarintBytes(v)|))
  {
    var code := VarintBytes(v);
    VarintAtMost10(v);
    EncodingInFront(v, rest);
    assert Sum7((code + rest)[..|code|]) == v by {
      VarintBytesDenote(v);
    }
  }

  // ---------- The 32-bit reader refines the 64-bit one ----------

  /** Whenever the 32-bit reader succeeds, the 64-bit reader succeeds on the same bytes,
      consumes the same count and agrees modulo 2^32. */
  lemma Varint32Refines64(bytes: seq<byte>)
    requires ReadVarint32(bytes).Some?
    ensures ReadVarint64(bytes).Some?
    ensures ReadVarint64(bytes).value.1 == ReadVarint32(bytes).value.1
    ensures ReadVarint64(bytes).value.0 % TWO_32 == ReadVarint32(bytes).value.0
  {
    LowWordOfWrapped(Sum7(bytes[..ReadVarint32(bytes).value.1]));
  }

  /** The last byte of a minimal encoding is a nonzero digit. */
  lemma {:induction false} LastDigit(v: nat)
    requires v > 0
    ensures 1 <= VarintBytes(v)[|VarintBytes(v)| - 1] < 128
  {
    if v >= 128 {
      LastDigit(v / 128);
    }
  }

  /** The encoding of v continues, after k bytes, with the encoding of v without its k lowest
      digits. */
  lemma {:induction false} DropDigits(v: nat, k: nat)
    requires k < |VarintBytes(v)|
    ensures VarintBytes(v)[k..] == VarintBytes(Digits(v, k))
  {
    if k > 0 {
      assert VarintBytes(v)[1..] == VarintBytes(v / 128);
      DropDigits(v / 128, k - 1);
      assert VarintBytes(v)[k..] == VarintBytes(v)[1..][k - 1..];
    }
  }

  function Digits(v: nat, k: nat): nat
    decreases k
  {
    if k == 0 then v else Digits(v / 128, k - 1)
  }

  lemma CanonicalAccepts(v: nat)
    requires v < TWO_63
    ensures Accepts32(VarintBytes(v)) <==> v < TWO_32
  {
    var code := VarintBytes(v);
    CanonicalLength(v);
    if |code| == 5 {
      DropDigits(v, 4);
      assert Digits(v, 4) == v / 268435456 by { assert Digits(v, 4) == v / 128 / 128 / 128 / 128; }
      assert code[4] == code[4..][0];
    } else if |code| > 5 {
      LastDigit(v);
      var last := |code| - 1;
      assert !ValidExtension(Sum7(code[..5]) % TWO_32, 7 * last, code[last]);
    }
  }

  /** On minimal encodings below 2^63 the 32-bit reader succeeds exactly on the values that
      fit in 32 bits, and then returns them. */
  lemma Varint32Canonical(v: nat, rest: seq<byte>)
    requires v < TWO_63
    ensures ReadVarint32(VarintBytes(v) + rest).Some? <==> v < TWO_32
    ensures v < TWO_32 ==> ReadVarint32(VarintBytes(v) + rest) == Some((v, |VarintBytes(v)|))
  {
    VarintBytesDenote(v);
    EncodingInFront(v, rest);
    CanonicalAccepts(v);
  }

  /** Five digits hold 35 bits, nine digits 63. */
  lemma CanonicalLength(v: nat)
    requires v < TWO_63
    ensures |VarintBytes(v)| <= 9
    ensures |VarintBytes(v)| < 5 <==> v < 268435456
    ensures |VarintBytes(v)| <= 5 <==> v < 34359738368
  {
    FiveDigits(v);
    if v >= 34359738368 {
      FiveDigits(v / 34359738368);
    }
  }

  lemma FiveDigits(v: nat)
    ensures |VarintBytes(v)| == 1 <==> v < 128
    ensures |VarintBytes(v)| <= 4 <==> v < 268435456
    ensures |VarintBytes(v)| <= 5 <==> v < 34359738368
    ensures v >= 34359738368 ==> |VarintBytes(v)| == 5 + |VarintBytes(v / 34359738368)|
  {
    var a := v / 128;
    var b := a / 128;
    var c := b / 128;
    var d := c / 128;
    assert v >= 128 ==> |VarintBytes(v)| == 1 + |VarintBytes(a)|;
    assert a >= 128 ==> |VarintBytes(a)| == 1 + |VarintBytes(b)|;
    assert b >= 128 ==> |VarintBytes(b)| == 1 + |VarintBytes(c)|;
    assert c >= 128 ==> |VarintBytes(c)| == 1 + |VarintBytes(d)|;
    assert d >= 128 ==> |VarintBytes(d)| == 1 + |VarintBytes(d / 128)|;
    assert d / 128 == v / 34359738368;
  }

  /** A negative int32, sign-extended to 64 bits and encoded in ten bytes, decodes to its
      32-bit two's complement. */
  lemma Varint32Negative(v: int, rest: seq<byte>)
    requires -TWO_31 <= v < 0
    ensures |VarintBytes(v + TWO_64)| == 10
    ensures ReadVarint32(VarintBytes(v + TWO_64) + rest) == Some((v + TWO_32, 10))
  {
    NegativeReads(v + TWO_64, rest);
    assert (v + TWO_64) % TWO_32 == v + TWO_32;
  }

  lemma NegativeReads(u: u64, rest: seq<byte>)
    requires u >= TWO_64 - TWO_31
    ensures |VarintBytes(u)| == 10
    ensures ReadVarint32(VarintBytes(u) + rest) == Some((u % TWO_32, 10))
  {
    EncodingInFront(u, rest);
    VarintBytesDenote(u);
    NegativeAccepts(u);
  }

  /** Five groups decide the low word. */
  lemma LowFive(code: seq<byte>)
    requires |code| > 5
    ensures Sum7(code[..5]) % TWO_32 == Sum7(code) % TWO_32
  {
    var low, high := code[..5], code[5..];
    assert code == low + high;
    Sum7Concat(low, high);
    LowWordKeeps(Sum7(low), Sum7(high), 7 * |low|);
  }

  lemma NegativeAccepts(u: u64)
    requires u >= TWO_64 - TWO_31
    ensures |VarintBytes(u)| == 10 && Accepts32(VarintBytes(u))
  {
    NegativeTop(u);
    VarintBytesDenote(u);
    LowFive(VarintBytes(u));
    NegativeExtension(VarintBytes(u), u % TWO_32);
  }

  lemma NegativeExtension(code: seq<byte>, low: u32)
    requires |code| == 10 && code[5..] == [0xFF, 0xFF, 0xFF, 0xFF, 0x01]
    requires Sum7(code[..5]) % TWO_32 == low >= TWO_31
    ensures Accepts32(code)
  {
    forall i | 5 <= i < |code|
      ensures ValidExtension(low, 7 * i, code[i])
    {
      assert code[i] == code[5..][i - 5];
    }
  }

  lemma NegativeTop(u: u64)
    requires u >= TWO_64 - TWO_31
    ensures |VarintBytes(u)| == 10
    ensures VarintBytes(u)[5..] == [0xFF, 0xFF, 0xFF, 0xFF, 0x01]
  {
    FiveDigits(u);
    DropDigits(u, 5);
    TopDigits(u);
    assert VarintBytes(0x1FFF_FFFF) == [0xFF, 0xFF, 0xFF, 0xFF, 0x01];
  }

  lemma TopDigits(u: u64)
    requires u >= TWO_64 - TWO_31
    ensures u / 34359738368 == Digits(u, 5) == 0x1FFF_FFFF
  {
    assert Digits(u, 5) == u / 128 / 128 / 128 / 128 / 128;
  }

  // ---------- When the 32-bit reader is right ----------

  /** No byte from the sixth on contributes a bit. */
  predicate ZeroPadded(code: seq<byte>) {
    forall i :: 5 <= i < |code| ==> code[i] % 128 == 0
  }

  /** The low word is a negative int32, and from the sixth byte on there are only the bytes of
      its sign extension and padding. */
  predicate SignExtended(code: seq<byte>) {
    |code| > 5 && Sum7(code[..5]) % TWO_32 >= TWO_31 &&
    forall i :: 5 <= i < |code| ==> code[i] % 128 == 0 || code[i] == if i < 9 then 0xFF else 0x01
  }

  lemma {:induction false} NoSumNoBits(code: seq<byte>)
    requires Sum7(code) == 0
    ensures forall i :: 0 <= i < |code| ==> code[i] % 128 == 0
    decreases |code|
  {
    if code != [] {
      NoSumNoBits(code[1..]);
      assert forall i :: 1 <= i < |code| ==> code[i] == code[1..][i - 1];
    }
  }

  lemma Shl28(x: nat, n: nat)
    requires n == 28
    ensures Shl(x, n) == 268435456 * x
  {
    Shl7(x, n - 7);
    Shl7(x, n - 14);
    Shl7(x, n - 21);
    Shl7(x, n - 28);
  }

  lemma FourGroups(code: seq<byte>, n: nat)
    requires |code| <= 4 && n == 28
    ensures Sum7(code) < 268435456
  {
    Sum7Bound(code);
    ShlPrefix(7 * |code|, n);
    Shl28(1, n);
  }

  lemma FiveGroups(code: seq<byte>, n: nat)
    requires |code| == 5 && n == 28
    ensures Sum7(code) == Sum7(code[..4]) + 268435456 * (code[4] as int % 128)
  {
    var low, last := code[..4], code[4..];
    assert code == low + last && last == [code[4]];
    Sum7Concat(low, last);
    Sum7Single(code[4]);
    Shl28(code[4] % 128, n);
  }

  /** Up to five bytes: only the fifth can carry the sum beyond 32 bits. */
  lemma ShortSum(code: seq<byte>, n: nat)
    requires 1 <= |code| <= 5 && code[|code| - 1] < 128 && n == 28
    ensures Sum7(code) < TWO_32 <==> (|code| == 5 ==> code[4] < 16)
  {
    if |code| == 5 {
      FourGroups(code[..4], n);
      FiveGroups(code, n);
    } else {
      FourGroups(code, n);
    }
  }

  /** Beyond five bytes: a sum of 32 bits has nothing from the sixth byte on. */
  lemma LongSum(code: seq<byte>)
    requires |code| > 5 && Sum7(code) < TWO_32
    ensures ZeroPadded(code)
  {
    var low, high := code[..5], code[5..];
    assert code == low + high;
    Sum7Concat(low, high);
    Shl32(Sum7(high), 7 * |low|);
    NoSumNoBits(high);
    assert forall i :: 5 <= i < |code| ==> code[i] == high[i - 5];
  }

  /** The exact acceptance condition of the 32-bit reader on complete varints. */
  lemma AcceptsExactly(code: seq<byte>)
    requires 1 <= |code| <= 10 && code[|code| - 1] < 128
    ensures Accepts32(code) <==>
      Sum7(code) < TWO_32 || (|code| > 5 && (ZeroPadded(code) || SignExtended(code)))
  {
    if |code| <= 5 {
      ShortSum(code, 28);
    } else {
      if Sum7(code) < TWO_32 {
        LongSum(code);
      }
      assert forall i :: 5 <= i < |code| ==> (7 * i < 63 <==> i < 9);
    }
  }

  /** Over every varint of at most ten bytes, minimal or not: the 32-bit reader delivers the
      number that the bytes denote if and only if that number fits in 32 bits. It succeeds
      otherwise, with the low word, exactly on varints of more than five bytes that are padded
      with zeros or with the sign extension of a negative int32. */
  lemma Varint32Exact(bytes: seq<byte>, n: nat)
    requires VarintLen(bytes) == Some(n) && n <= 10
    ensures ReadVarint32(bytes) == Some((Sum7(bytes[..n]), n)) <==> Sum7(bytes[..n]) < TWO_32
    ensures ReadVarint32(bytes).Some? && ReadVarint32(bytes).value.0 != Sum7(bytes[..n]) <==>
      Sum7(bytes[..n]) >= TWO_32 && n > 5 && (ZeroPadded(bytes[..n]) || SignExtended(bytes[..n]))
  {
    AcceptsExactly(bytes[..n]);
  }

  /** An input on which the 32-bit reader succeeds although the value does not fit: it looks at
      the upper bits of a fifth byte only if that byte is the last one. */
  lemma UnnoticedOverflow(bytes: seq<byte>)
    requires bytes == [0x80, 0x80, 0x80, 0x80, 0x90, 0x00]
    ensures ReadVarint32(bytes) == Some((0, 6)) && ReadVarint64(bytes) == Some((TWO_32, 6))
  {
    var head := bytes[..5];
    LenOfPrefix(head, 0x00, []);
    assert bytes == head + [0x00] + [] && bytes[..6] == bytes;
    assert bytes[1..] == [0x80, 0x80, 0x80, 0x90, 0x00];
    assert bytes[1..][1..] == [0x80, 0x80, 0x90, 0x00];
    assert Sum7([0x90, 0x00]) == 0x10;
    assert Sum7([0x80, 0x80, 0x90, 0x00]) == 128 * 128 * 0x10;
    assert Sum7(bytes) == TWO_32;
  }

  // ---------- Both readers look at no byte beyond the varint ----------

  lemma VarintStable(bytes: seq<byte>, rest: seq<byte>)
    ensures ReadVarint64(bytes).Some? ==> ReadVarint64(bytes + rest) == ReadVarint64(bytes)
    ensures ReadVarint32(bytes).Some? ==> ReadVarint32(bytes + rest) == ReadVarint32(bytes)
  {
    if VarintLen(bytes).Some? {
      LenStable(bytes, rest);
      var n := VarintLen(bytes).value;
      assert (bytes + rest)[..n] == bytes[..n];
    }
  }

  // ---------- ZigZag ----------

  /** Two's complement of a signed value in 64 bits, and back. */
  function Unsigned64(v: i64): u64 {
    if v < 0 then v + TWO_64 else v
  }

  function Signed64(u: u64): i64 {
    if u >= TWO_63 then u - TWO_64 else u
  }

  function Not64(u: u64): u64 {
    TWO_64 - 1 - u
  }

  /** pb_encode_svarint: the shift is a 64-bit shift, so the sign bit falls out. */
  function ZigZag(v: i64): u64 {
    var shifted := Unsigned64(v) * 2 % TWO_64;
    if v < 0 then Not64(shifted) else shifted
  }

  /** pb_decode_svarint. */
  function UnZigZag(u: u64): i64 {
    if u % 2 == 1 then Signed64(Not64(u / 2)) else Signed64(u / 2)
  }

  /** ZigZag maps 0, -1, 1, -2, 2, ... to 0, 1, 2, 3, 4, ... and UnZigZag inverts it, both ways. */
  lemma ZigZagBijection(v: i64, u: u64)
    ensures UnZigZag(ZigZag(v)) == v
    ensures ZigZag(UnZigZag(u)) == u
    ensures ZigZag(v) == if v < 0 then -2 * v - 1 else 2 * v
  {
    assert v < 0 ==> Unsigned64(v) * 2 % TWO_64 == 2 * v + TWO_64;
  }
}
