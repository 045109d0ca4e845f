/** The packed field descriptors of nanopb: PB_FIELDINFO_1/2/4/8, the assertions that guard
    them, and unpacking. */
module FieldInfo {
  import opened Words

  /** What a descriptor says about a field. The size offset may be any int before packing. */
  datatype FieldInfo = FieldInfo(tag: nat, typ: byte, dataOffset: nat, dataSize: nat, sizeOffset: int, arraySize: nat)

  predicate ValidWidth(width: nat) {
    width == 1 || width == 2 || width == 4 || width == 8
  }

  /** PB_FIELDINFO_ASSERT_*, with 16-bit pb_size_t. The wide formats look at the size offset
      only after the cast to int_least8_t. */
  predicate Fits(width: nat, f: FieldInfo)
    requires ValidWidth(width)
  {
    if width == 1 then
      f.tag < 64 && f.dataOffset < 256 && 0 <= f.sizeOffset < 16 && f.dataSize < 16 && f.arraySize < 2
    else if width == 2 then
      f.tag < 1024 && f.dataOffset < 65536 && 0 <= f.sizeOffset < 16 && f.dataSize < 4096 && f.arraySize < 4096
    else
      f.tag < 65536 && f.dataOffset < 65536 && f.sizeOffset % 256 < 128 && f.dataSize < 65536 && f.arraySize < 65536
  }

  /** The first word: length code, low bits of the tag, type, and 16 bits of the format's own. */
  function FirstWord(lengthCode: nat, tag: nat, typ: byte, high: nat): (w: u32)
    requires lengthCode < 4 && high < 65536
  {
    lengthCode + 4 * (tag % 64) + 256 * typ + 65536 * high
  }

  function TagWord(tag: nat, sizeOffset: int): (w: u32)
    requires tag < 65536 && sizeOffset % 256 < 128
  {
    sizeOffset % 256 + 256 * (tag / 64)
  }

  /** PB_FIELDINFO_*. */
  function Pack(width: nat, f: FieldInfo): (words: seq<u32>)
    requires ValidWidth(width) && Fits(width, f)
    ensures |words| == width
  {
    if width == 1 then
      [FirstWord(0, f.tag, f.typ, f.dataOffset + 256 * f.sizeOffset + 4096 * f.dataSize)]
    else if width == 2 then
      [FirstWord(1, f.tag, f.typ, f.arraySize + 4096 * f.sizeOffset),
       f.dataOffset + 65536 * f.dataSize + 268435456 * (f.tag / 64)]
    else if width == 4 then
      [FirstWord(2, f.tag, f.typ, f.arraySize), TagWord(f.tag, f.sizeOffset), f.dataOffset, f.dataSize]
    else
      [FirstWord(3, f.tag, f.typ, 0), TagWord(f.tag, f.sizeOffset), f.dataOffset, f.dataSize, f.arraySize, 0, 0, 0]
  }

  /** The number of words that a first word announces. */
  function Length(word0: u32): nat {
    if word0 % 4 == 0 then 1 else if word0 % 4 == 1 then 2 else if word0 % 4 == 2 then 4 else 8
  }

  function Signed8(x: byte): int {
    if x >= 128 then x - 256 else x
  }

  /** load_descriptor_values. */
  function Load(words: seq<u32>, at: nat): FieldInfo
    requires at < |words| && at + Length(words[at]) <= |words|
  {
    var word0 := words[at];
    var typ := word0 / 256 % 256;
    if word0 % 4 == 0 then
      FieldInfo(word0 / 4 % 64, typ, word0 / 65536 % 256, word0 / 268435456 % 16, word0 / 16777216 % 16, 1)
    else
      var word1 := words[at + 1];
      if word0 % 4 == 1 then
        FieldInfo((word0 / 4 % 64 + word1 / 268435456 * 64) % 65536, typ,
          word1 % 65536, word1 / 65536 % 4096, word0 / 268435456 % 16, word0 / 65536 % 4096)
      else
        FieldInfo((word0 / 4 % 64 + word1 / 256 * 64) % 65536, typ,
          words[at + 2], words[at + 3] % 65536, Signed8(word1 % 256),
          if word0 % 4 == 2 then word0 / 65536 else words[at + 4] % 65536)
  }

  lemma FirstWordFields(lengthCode: nat, tag: nat, typ: byte, high: nat, w: u32)
    requires lengthCode < 4 && high < 65536 && w == FirstWord(lengthCode, tag, typ, high)
    ensures w % 4 == lengthCode && w / 4 % 64 == tag % 64 && w / 256 % 256 == typ && w / 65536 == high
  {
    assert w / 4 == tag % 64 + 64 * typ + 16384 * high;
    assert w / 256 == typ + 256 * high;
  }

  lemma ShiftFurther(w: u32)
    ensures w / 16777216 == w / 65536 / 256 && w / 268435456 == w / 65536 / 4096
  {
  }

  /** The length code and the low tag bits are where the search looks for them. */
  lemma PackedFirstWord(width: nat, f: FieldInfo)
    requires ValidWidth(width) && Fits(width, f)
    ensures var w := Pack(width, f)[0];
      Length(w) == width && w / 4 % 64 == f.tag % 64 && w / 256 % 256 == f.typ
  {
    var w := Pack(width, f)[0];
    if width == 1 {
      FirstWordFields(0, f.tag, f.typ, f.dataOffset + 256 * f.sizeOffset + 4096 * f.dataSize, w);
    } else if width == 2 {
      FirstWordFields(1, f.tag, f.typ, f.arraySize + 4096 * f.sizeOffset, w);
    } else if width == 4 {
      FirstWordFields(2, f.tag, f.typ, f.arraySize, w);
    } else {
      FirstWordFields(3, f.tag, f.typ, 0, w);
    }
  }

  /** What unpacking makes of a packed field: a 1-word array size is always 1, and a size
      offset in a wide format is its low byte. */
  function Recovered(width: nat, f: FieldInfo): FieldInfo {
    if width == 1 then f.(arraySize := 1)
    else if width == 2 then f
    else f.(sizeOffset := f.sizeOffset % 256)
  }

  lemma LoadNarrow(f: FieldInfo, words: seq<u32>, at: nat)
    requires Fits(1, f) && at + 1 <= |words| && words[at..at + 1] == Pack(1, f)
    ensures Length(words[at]) == 1 && Load(words, at) == Recovered(1, f)
  {
    var high := f.dataOffset + 256 * f.sizeOffset + 4096 * f.dataSize;
    var w := words[at..at + 1][0];
    PackedFirstWord(1, f);
    FirstWordFields(0, f.tag, f.typ, high, w);
    ShiftFurther(w);
    NarrowFields(f.dataOffset, f.sizeOffset, f.dataSize, high);
  }

  lemma NarrowFields(dataOffset: nat, sizeOffset: nat, dataSize: nat, high: nat)
    requires dataOffset < 256 && sizeOffset < 16 && dataSize < 16 && high == dataOffset + 256 * sizeOffset + 4096 * dataSize
    ensures high % 256 == dataOffset && high / 256 % 16 == sizeOffset && high / 4096 == dataSize
  {
    assert high / 256 == sizeOffset + 16 * dataSize;
  }

  lemma LoadDouble(f: FieldInfo, words: seq<u32>, at: nat)
    requires Fits(2, f) && at + 2 <= |words| && words[at..at + 2] == Pack(2, f)
    ensures Length(words[at]) == 2 && Load(words, at) == f
  {
    var high := f.arraySize + 4096 * f.sizeOffset;
    var w, v := words[at..at + 2][0], words[at..at + 2][1];
    PackedFirstWord(2, f);
    FirstWordFields(1, f.tag, f.typ, high, w);
    ShiftFurther(w);
    assert high % 4096 == f.arraySize && high / 4096 == f.sizeOffset;
    SecondWordFields(f, v);
  }

  lemma SecondWordFields(f: FieldInfo, v: u32)
    requires Fits(2, f) && v == f.dataOffset + 65536 * f.dataSize + 268435456 * (f.tag / 64)
    ensures v % 65536 == f.dataOffset && v / 65536 % 4096 == f.dataSize && v / 268435456 == f.tag / 64
  {
    ShiftFurther(v);
    assert v / 65536 == f.dataSize + 4096 * (f.tag / 64);
  }

  lemma LoadWide(width: nat, f: FieldInfo, words: seq<u32>, at: nat)
    requires (width == 4 || width == 8) && Fits(width, f)
    requires at + width <= |words| && words[at..at + width] == Pack(width, f)
    ensures Length(words[at]) == width && Load(words, at) == Recovered(width, f)
  {
    var packed := words[at..at + width];
    PackedFirstWord(width, f);
    FirstWordFields(if width == 4 then 2 else 3, f.tag, f.typ, if width == 4 then f.arraySize else 0, packed[0]);
    assert packed[1] % 256 == f.sizeOffset % 256 && packed[1] / 256 == f.tag / 64;
    assert words[at + 1] == packed[1] && words[at + 2] == packed[2] && words[at + 3] == packed[3];
    assert width == 8 ==> words[at + 4] == packed[4];
  }

  /** Whatever passes the assertions is recovered from its words. */
  lemma LoadRecovers(width: nat, f: FieldInfo, words: seq<u32>, at: nat)
    requires ValidWidth(width) && Fits(width, f) && at + width <= |words| && words[at..at + width] == Pack(width, f)
    ensures Length(words[at]) == width && Load(words, at) == Recovered(width, f)
  {
    if width == 1 {
      LoadNarrow(f, words, at);
    } else if width == 2 {
      LoadDouble(f, words, at);
    } else {
      LoadWide(width, f, words, at);
    }
  }

  lemma RecoveredExactly(width: nat, f: FieldInfo)
    requires ValidWidth(width) && Fits(width, f)
    ensures Recovered(width, f) == f <==> (width == 1 ==> f.arraySize == 1) && (width >= 4 ==> 0 <= f.sizeOffset < 128)
  {
  }

  /** A field that passes the assertions is unpacked from its words as it was, if and only if
      a 1-word format has array size 1 and a wide format has a size offset from 0 to 127. */
  lemma PackRoundTrip(width: nat, f: FieldInfo, words: seq<u32>, at: nat)
    requires ValidWidth(width) && Fits(width, f) && at + width <= |words| && words[at..at + width] == Pack(width, f)
    ensures Length(words[at]) == width && Load(words, at) == Recovered(width, f)
    ensures Load(words, at) == f <==> (width == 1 ==> f.arraySize == 1) && (width >= 4 ==> 0 <= f.sizeOffset < 128)
  {
    LoadRecovers(width, f, words, at);
    RecoveredExactly(width, f);
  }

  /** Both exceptions pass the assertions: an array size of zero in one word ... */
  lemma ZeroArrayLetThrough(f: FieldInfo)
    requires f == FieldInfo(1, 0, 0, 4, 0, 0)
    ensures Fits(1, f) && Load(Pack(1, f), 0).arraySize == 1
  {
    var words := Pack(1, f);
    assert words[0..1] == words;
    LoadRecovers(1, f, words, 0);
  }

  /** ... and a size offset of 300 bytes in four words. */
  lemma WideOffsetLetThrough(f: FieldInfo)
    requires f == FieldInfo(1, 0, 300, 4, 300, 1)
    ensures Fits(4, f) && Load(Pack(4, f), 0).sizeOffset == 44
  {
    var words := Pack(4, f);
    assert words[0..4] == words;
    LoadRecovers(4, f, words, 0);
  }
}
