/** pb_istream_t over a memory buffer, and the primitive decoders that read from it. */
module InStream {
  import opened Words
  import opened Varint
  import opened Codec
  import opened VarintScan

  class InStream {
    const buf: array<byte>
    var pos: nat
    var bytesLeft: nat

    ghost predicate Valid()
      reads this
    {
      pos + bytesLeft <= buf.Length
    }

    /** The bytes that the stream has not delivered yet. */
    ghost function Rest(): seq<byte>
      requires Valid()
      reads this, buf
    {
      buf[pos..pos + bytesLeft]
    }

    /** Conservation: the position moves by exactly the drop in bytesLeft. */
    twostate predicate Consumed(n: nat)
      reads this
    {
      old(Valid()) && pos == old(pos) + n && bytesLeft + n == old(bytesLeft)
    }

    /** The stream never leaves the window it had. */
    twostate predicate Inside()
      reads this
    {
      old(pos) <= pos && pos + bytesLeft <= old(pos + bytesLeft)
    }

    twostate lemma RestAfter(n: nat)
      requires Consumed(n) && unchanged(buf)
      ensures Valid() && Inside() && n <= |old(Rest())| && Rest() == old(Rest())[n..]
    {
    }

    /** pb_istream_from_buffer. */
    constructor FromBuffer(buffer: array<byte>, size: nat)
      requires size <= buffer.Length
      ensures Valid() && buf == buffer && pos == 0 && bytesLeft == size && Rest() == buffer[..size]
    {
      buf, pos, bytesLeft := buffer, 0, size;
    }

    /** buf_read. */
    method BufRead(dest: array?<byte>, count: nat)
      requires pos + count <= buf.Length && (dest != null ==> dest != buf && count <= dest.Length)
      modifies this`pos, dest
      ensures pos == old(pos) + count
      ensures dest != null ==> dest[..] == buf[old(pos)..pos] + old(dest[..])[count..]
    {
      var source := pos;
      pos := source + count;
      if dest != null {
        ghost var was := dest[..];
        var i := 0;
        while i < count
          invariant 0 <= i <= count && pos == source + count
          invariant forall k :: 0 <= k < dest.Length ==> dest[k] == if k < i then buf[source + k] else was[k]
        {
          dest[i] := buf[source + i];
          i := i + 1;
        }
        assert dest[..] == buf[source..source + count] + was[count..];
      }
    }

    /** pb_read, which skips if it is given no destination. */
    method Read(dest: array?<byte>, count: nat) returns (ok: bool)
      requires Valid() && (dest != null ==> dest != buf && count <= dest.Length)
      modifies this, dest
      ensures ok <==> count <= old(bytesLeft)
      ensures Consumed(if ok then count else 0)
      ensures ok && dest != null ==> dest[..count] == old(Rest())[..count]
    {
      if count == 0 {
        return true;
      }
      if bytesLeft < count {
        return false;
      }
      ghost var whole, start, end := buf[..], pos, pos + bytesLeft;
      BufRead(dest, count);
      if dest != null {
        PrefixOfSlice(whole, start, end, count);
        assert dest[..count] == whole[start..start + count] == whole[start..end][..count];
      }
      bytesLeft := bytesLeft - count;
      ok := true;
    }

    /** pb_readbyte. */
    method ReadByte() returns (ok: bool, b: byte)
      requires Valid()
      modifies this
      ensures ok <==> old(bytesLeft) > 0
      ensures Consumed(if ok then 1 else 0)
      ensures ok ==> b == old(Rest())[0] && Rest() == old(Rest())[1..]
    {
      if bytesLeft == 0 {
        return false, 0;
      }
      b := buf[pos];
      pos := pos + 1;
      bytesLeft := bytesLeft - 1;
      ok := true;
    }

    /** pb_decode_varint32_eof. `eof` tells an empty stream from a broken varint. */
    method DecodeVarint32Eof() returns (ok: bool, dest: u32, eof: bool)
      requires Valid()
      modifies this
      ensures ok <==> ReadVarint32(old(Rest())).Some?
      ensures ok ==> dest == ReadVarint32(old(Rest())).value.0 && Consumed(ReadVarint32(old(Rest())).value.1)
      ensures Valid() && Inside() && (eof <==> old(bytesLeft) == 0)
    {
      ghost var all := Rest();
      var b: byte;
      dest := 0;
      ok, b := ReadByte();
      if !ok {
        eof := bytesLeft == 0;
        return;
      }
      eof := false;
      if b < 128 {
        SingleByte(all);
        dest := b;
      } else {
        ok, dest := DecodeMultibyte(b, all);
      }
    }

    /** The multibyte case, after the first byte. */
    method DecodeMultibyte(first: byte, ghost all: seq<byte>) returns (ok: bool, dest: u32)
      requires Valid() && |all| > 0 && Rest() == all[1..] && all[0] == first >= 128
      modifies this
      ensures ok <==> ReadVarint32(all).Some?
      ensures ok ==> dest == ReadVarint32(all).value.0 && ReadVarint32(all).value.1 >= 1
      ensures ok ==> Consumed(ReadVarint32(all).value.1 - 1)
      ensures Valid() && Inside()
    {
      var b, bitpos := first, 7;
      var result: nat := b % 128;
      ghost var k := 1;
      dest := 0;
      ScanStart(all);
      while b >= 128
        invariant Valid() && bitpos == 7 * k && pos == old(pos) + k - 1 && bytesLeft + k - 1 == old(bytesLeft)
        invariant Scanned(all, k, result) && b == all[k - 1] && Rest() == all[k..]
        decreases bytesLeft
      {
        ok, b := ReadByte();
        if !ok {
          ScanShort(all, k, result);
          return;
        }
        if bitpos >= 32 {
          var signExtension := if bitpos < 63 then 0xFF else 0x01;
          var validExtension := b % 128 == 0 || (result / TWO_31 != 0 && b == signExtension);
          if bitpos >= 64 || !validExtension {
            ScanOverflow(all, k, result);
            return false, 0;
          }
          ScanExtension(all, k, result);
        } else {
          ScanDigit(all, k, result);
          result := (result + Shl(b % 128, bitpos)) % TWO_32;
        }
        bitpos := bitpos + 7;
        k := k + 1;
      }
      ScanEnd(all, k, result);
      if bitpos == 35 && b >= 16 {
        return false, 0;
      }
      ok := true;
      dest := result;
    }

    /** pb_decode_varint32. */
    method DecodeVarint32() returns (ok: bool, dest: u32)
      requires Valid()
      modifies this
      ensures ok <==> ReadVarint32(old(Rest())).Some?
      ensures ok ==> dest == ReadVarint32(old(Rest())).value.0 && Consumed(ReadVarint32(old(Rest())).value.1)
      ensures Valid() && Inside()
    {
      var eof;
      ok, dest, eof := DecodeVarint32Eof();
    }

    /** pb_decode_varint. */
    method DecodeVarint() returns (ok: bool, dest: u64)
      requires Valid()
      modifies this
      ensures ok <==> ReadVarint64(old(Rest())).Some?
      ensures ok ==> dest == ReadVarint64(old(Rest())).value.0 && Consumed(ReadVarint64(old(Rest())).value.1)
      ensures Valid() && Inside()
    {
      ghost var all := Rest();
      var bitpos, more := 0, true;
      var result: nat := 0;
      ghost var k := 0;
      dest := 0;
      while more
        invariant Valid() && bitpos == 7 * k && pos == old(pos) + k && bytesLeft + k == old(bytesLeft)
        invariant ScannedLong(all, k, result) && (more <==> k == 0 || all[k - 1] >= 128)
        decreases 70 - bitpos, more
      {
        if bitpos >= 64 {
          LongOverflow(all, result);
          return false, 0;
        }
        var b;
        ok, b := ReadByte();
        if !ok {
          LongShort(all, result);
          return;
        }
        LongDigit(all, k, result);
        result := (result + Shl(b % 128, bitpos)) % TWO_64;
        bitpos := bitpos + 7;
        k := k + 1;
        more := b >= 128;
      }
      LongEnd(all, k, result);
      dest := result;
      ok := true;
    }

    /** pb_decode_svarint. */
    method DecodeSvarint() returns (ok: bool, dest: i64)
      requires Valid()
      modifies this
      ensures ok <==> ReadVarint64(old(Rest())).Some?
      ensures ok ==> dest == UnZigZag(ReadVarint64(old(Rest())).value.0) && Consumed(ReadVarint64(old(Rest())).value.1)
      ensures Valid() && Inside()
    {
      var value;
      ok, value := DecodeVarint();
      if !ok {
        return false, 0;
      }
      if value % 2 == 1 {
        dest := Signed64(Not64(value / 2));
      } else {
        dest := Signed64(value / 2);
      }
    }

    /** pb_decode_fixed32 and pb_decode_fixed64, assembled byte by byte. */
    method DecodeFixed(size: nat) returns (ok: bool, dest: nat)
      requires Valid() && (size == 4 || size == 8)
      modifies this
      ensures ok <==> size <= old(bytesLeft)
      ensures ok ==> dest == FromLittleEndian(old(Rest())[..size]) && Consumed(size)
      ensures Valid() && Inside()
    {
      var bytes := new byte[size];
      dest := 0;
      ok := Read(bytes, size);
      if ok {
        var i := size;
        while i > 0
          invariant 0 <= i <= size && dest == FromLittleEndian(bytes[i..])
        {
          i := i - 1;
          assert bytes[i..][1..] == bytes[i + 1..];
          dest := bytes[i] + 256 * dest;
        }
        assert bytes[0..] == bytes[..size];
      }
    }

    // ---------- Skipping ----------

    /** pb_skip_varint. There is no limit on the length. */
    method SkipVarint() returns (ok: bool)
      requires Valid()
      modifies this
      ensures ok <==> VarintLen(old(Rest())).Some?
      ensures ok ==> Consumed(VarintLen(old(Rest())).value)
      ensures Valid() && Inside()
    {
      ghost var all, k := Rest(), 0;
      var b, more := new byte[1], true;
      while more
        invariant Valid() && pos == old(pos) + k && bytesLeft + k == old(bytesLeft)
        invariant if more then AllContinue(all[..k]) else k > 0 && AllContinue(all[..k - 1]) && all[k - 1] < 128
        decreases bytesLeft, more
      {
        ok := Read(b, 1);
        if !ok {
          assert all[..k] == all;
          return;
        }
        more := b[0] >= 128;
        k := k + 1;
      }
      LenOfPrefix(all[..k - 1], all[k - 1], all[k..]);
      assert all == all[..k - 1] + [all[k - 1]] + all[k..];
      ok := true;
    }

    /** pb_skip_string. */
    method SkipString() returns (ok: bool)
      requires Valid()
      modifies this
      ensures ok <==> ReadDelimited(old(Rest())).Some?
      ensures ok ==> Consumed(ReadDelimited(old(Rest())).value.1)
      ensures Valid() && Inside()
    {
      var length;
      ok, length := DecodeVarint32();
      if ok {
        ok := Read(null, length);
      }
    }

    /** pb_skip_field. */
    method SkipField(wireType: nat) returns (ok: bool)
      requires Valid()
      modifies this
      ensures ok <==> ReadPayload(wireType, old(Rest())).Some?
      ensures ok ==> Consumed(ReadPayload(wireType, old(Rest())).value.1)
      ensures Valid() && Inside()
    {
      if wireType == WT_VARINT {
        ok := SkipVarint();
      } else if wireType == WT_64BIT {
        ok := Read(null, 8);
      } else if wireType == WT_STRING {
        ok := SkipString();
      } else if wireType == WT_32BIT {
        ok := Read(null, 4);
      } else {
        ok := false;
      }
    }

    // ---------- Keys and substreams ----------

    /** pb_decode_tag. A zero tag is left to the caller to refuse. */
    method DecodeTag() returns (ok: bool, wireType: nat, tag: nat, eof: bool)
      requires Valid()
      modifies this
      ensures ok && tag != 0 <==> ReadKey(old(Rest())).Some?
      ensures ok && tag != 0 ==> ReadKey(old(Rest())).value == (tag, wireType, ReadVarint32(old(Rest())).value.1)
      ensures ok ==> ReadVarint32(old(Rest())).Some? && Consumed(ReadVarint32(old(Rest())).value.1)
      ensures Valid() && Inside() && (eof ==> !ok && old(bytesLeft) == 0)
    {
      var temp;
      wireType, tag := 0, 0;
      ok, temp, eof := DecodeVarint32Eof();
      if ok {
        tag := temp / 8;
        wireType := temp % 8;
      }
    }

    constructor Copy(stream: InStream)
      ensures buf == stream.buf && pos == stream.pos && bytesLeft == stream.bytesLeft
    {
      buf, pos, bytesLeft := stream.buf, stream.pos, stream.bytesLeft;
    }

    /** A substream of the next bytes, which leave this stream's count. */
    method Carve(size: nat) returns (substream: InStream)
      requires Valid() && size <= bytesLeft
      modifies this`bytesLeft
      ensures fresh(substream) && substream.buf == buf && Valid() && bytesLeft + size == old(bytesLeft)
      ensures substream.Valid() && substream.pos == pos && substream.bytesLeft == size
      ensures substream.Rest() == old(Rest())[..size]
    {
      PrefixOfSlice(buf[..], pos, pos + bytesLeft, size);
      substream := new InStream.Copy(this);
      substream.bytesLeft := size;
      bytesLeft := bytesLeft - size;
    }

    /** pb_make_string_substream. The substream takes its bytes from the parent's count at
        once; the parent's position follows when the substream is closed. */
    method MakeSubstream() returns (ok: bool, substream: InStream)
      requires Valid()
      modifies this
      ensures fresh(substream) && substream.buf == buf && Valid() && Inside()
      ensures ok <==> ReadDelimited(old(Rest())).Some?
      ensures ok ==> var (payload, n) := ReadDelimited(old(Rest())).value;
        substream.Valid() && substream.Rest() == payload &&
        substream.pos + substream.bytesLeft == old(pos) + n && bytesLeft + n == old(bytesLeft)
    {
      ghost var all := Rest();
      var size;
      ok, size := DecodeVarint32();
      if !ok {
        substream := new InStream.Copy(this);
        return;
      }
      ghost var n := ReadVarint32(all).value.1;
      RestAfter(n);
      DelimitedPayload(all, size, n);
      if bytesLeft < size {
        substream := new InStream.Copy(this);
        return false, substream;
      }
      substream := Carve(size);
    }

    /** pb_close_string_substream: skips what is left of the substream and resumes after it. */
    method CloseSubstream(substream: InStream) returns (ok: bool)
      requires substream != this && substream.Valid() && substream.buf == buf
      modifies this`pos, substream
      ensures ok && pos == old(substream.pos + substream.bytesLeft) && bytesLeft == old(bytesLeft)
    {
      if substream.bytesLeft > 0 {
        ok := substream.Read(null, substream.bytesLeft);
        if !ok {
          assert false;
          return;
        }
      }
      pos := substream.pos;
      ok := true;
    }
  }

  lemma PrefixOfSlice<T>(whole: seq<T>, start: nat, end: nat, size: nat)
    requires start <= end <= |whole| && size <= end - start
    ensures whole[start..end][..size] == whole[start..start + size]
  {
    var prefix, slice := whole[start..end][..size], whole[start..start + size];
    forall k | 0 <= k < size
      ensures prefix[k] == slice[k]
    {
      assert prefix[k] == whole[start + k];
    }
    assert prefix == slice;
  }

  /** The payload behind a length of n bytes. */
  lemma DelimitedPayload(all: seq<byte>, size: nat, n: nat)
    requires ReadVarint32(all) == Some((size, n))
    ensures ReadDelimited(all).Some? <==> size <= |all| - n
    ensures size <= |all| - n ==> ReadDelimited(all) == Some((all[n..][..size], n + size))
  {
    if size <= |all| - n {
      PrefixOfSlice(all, n, |all|, size);
      assert all[n..|all|] == all[n..];
    }
  }
}
