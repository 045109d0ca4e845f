/** A repeated field reads the same whether its elements come packed, as the encoder writes
    them, or one by one, as other encoders may. */
module Unpacked {
  import opened Words
  import opened Varint
  import opened Schema
  import opened Codec
  import opened WireLemmas
  import opened Merge

  function ElementBytes(tag: nat, t: Scalar, n: int): (bytes: seq<byte>)
    requires ValidScalar(t) && InRange(t, n)
    ensures bytes != []
  {
    TagBytes(tag, WireType(t)) + ScalarBytes(t, n)
  }

  /** One record for each element. */
  function OneByOne(tag: nat, t: Scalar, ns: seq<int>): seq<byte>
    requires ValidScalar(t) && AllInRange(t, ns)
  {
    if ns == [] then [] else ElementBytes(tag, t, ns[0]) + OneByOne(tag, t, ns[1..])
  }

  predicate IsRepeated(d: Desc, i: nat) {
    ValidDesc(d) && i < |d.fields| && ValidKind(d, i) && d.fields[i].kind.Repeated?
  }

  predicate ElementsOf(d: Desc, i: nat, ns: seq<int>) {
    IsRepeated(d, i) && AllInRange(d.fields[i].kind.scalar, ns)
  }

  predicate Holds(d: Desc, m: Msg, i: nat, was: seq<int>) {
    IsRepeated(d, i) && Shaped(d, m) && ElementsOf(d, i, was) && m.slots[i] == Arr(was)
  }

  /** m with more elements in field i. */
  function Grown(d: Desc, m: Msg, i: nat, was: seq<int>, ns: seq<int>): (r: Msg)
    requires Holds(d, m, i, was) && ElementsOf(d, i, ns)
    ensures Holds(d, r, i, was + ns)
  {
    With(d, m, i, Arr(was + ns))
  }

  lemma GrownByNone(d: Desc, m: Msg, i: nat, was: seq<int>)
    requires Holds(d, m, i, was)
    ensures Grown(d, m, i, was, []) == m
  {
    assert was + [] == was;
    var grown := Grown(d, m, i, was, []);
    forall j | 0 <= j < |m.slots|
      ensures grown.slots[j] == m.slots[j]
    {
    }
    assert grown.slots == m.slots;
  }

  lemma GrownTwice(d: Desc, m: Msg, i: nat, was: seq<int>, n: int, more: seq<int>)
    requires Holds(d, m, i, was) && ElementsOf(d, i, [n] + more) && ElementsOf(d, i, [n]) && ElementsOf(d, i, more)
    ensures Grown(d, Grown(d, m, i, was, [n]), i, was + [n], more) == Grown(d, m, i, was, [n] + more)
  {
    assert was + [n] + more == was + ([n] + more);
    var left, right := Grown(d, Grown(d, m, i, was, [n]), i, was + [n], more), Grown(d, m, i, was, [n] + more);
    forall j | 0 <= j < |m.slots|
      ensures left.slots[j] == right.slots[j]
    {
    }
    assert left.slots == right.slots;
  }

  /** An element record appends its element, or overflows the array. */
  lemma ElementDecodes(d: Desc, m: Msg, i: nat, was: seq<int>, n: int, rest: seq<byte>)
    requires Holds(d, m, i, was) && ElementsOf(d, i, [n]) && InRange(d.fields[i].kind.scalar, n)
    ensures DecodeMsg(d, m, ElementBytes(d.fields[i].tag, d.fields[i].kind.scalar, n) + rest) ==
      if |was| < d.fields[i].kind.arraySize then DecodeMsg(d, Grown(d, m, i, was, [n]), rest) else None
  {
    var tag, t := d.fields[i].tag, d.fields[i].kind.scalar;
    var rec := Record(tag, WireType(t), ScalarBytes(t, n));
    ScalarRecord(tag, t, n, rest);
    RecordFirst(d, m, ElementBytes(tag, t, n), rec, rest);
    IndexOfOwnTag(d, i);
    ScalarOfRecord(tag, t, n);
  }

  lemma {:induction false} OneByOneDecodes(d: Desc, m: Msg, i: nat, was: seq<int>, ns: seq<int>, rest: seq<byte>)
    requires Holds(d, m, i, was) && ElementsOf(d, i, ns)
    ensures DecodeMsg(d, m, OneByOne(d.fields[i].tag, d.fields[i].kind.scalar, ns) + rest) ==
      if ns == [] || |was| + |ns| <= d.fields[i].kind.arraySize then DecodeMsg(d, Grown(d, m, i, was, ns), rest) else None
    decreases |ns|
  {
    var tag, t, size := d.fields[i].tag, d.fields[i].kind.scalar, d.fields[i].kind.arraySize;
    if ns == [] {
      GrownByNone(d, m, i, was);
      assert OneByOne(tag, t, ns) + rest == rest;
    } else {
      var n, more := ns[0], ns[1..];
      assert ns == [n] + more;
      var first, others := ElementBytes(tag, t, n), OneByOne(tag, t, more);
      assert first + others + rest == first + (others + rest);
      ElementDecodes(d, m, i, was, n, others + rest);
      if |was| < size {
        OneByOneDecodes(d, Grown(d, m, i, was, [n]), i, was + [n], more, rest);
        GrownTwice(d, m, i, was, n, more);
      }
    }
  }

  /** Elements one by one decode as the same elements packed, on top of anything, in front of
      anything, and also where they overflow the array. */
  lemma UnpackedAsPacked(d: Desc, m: Msg, i: nat, ns: seq<int>, rest: seq<byte>)
    requires IsRepeated(d, i) && Shaped(d, m) && ElementsOf(d, i, ns)
    requires |FieldBytes(d, i, Arr(ns))| < 0x1_0000_0000
    ensures DecodeMsg(d, m, OneByOne(d.fields[i].tag, d.fields[i].kind.scalar, ns) + rest)
      == DecodeMsg(d, m, FieldBytes(d, i, Arr(ns)) + rest)
  {
    assert SlotShaped(d, i, m.slots[i]);
    var was := m.slots[i].ns;
    OneByOneDecodes(d, m, i, was, ns, rest);
    if ns == [] {
      GrownByNone(d, m, i, was);
      assert [] + rest == rest;
    } else {
      FieldStep(d, m, i, Arr(ns), rest);
    }
  }
}
