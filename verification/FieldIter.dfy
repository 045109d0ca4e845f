/** pb_field_iter_t: a cyclic walk over a packed field list, and the lookup of a tag by it. */
module FieldIter {
  import opened Words
  import opened FieldInfo
  import Schema

  const LTYPE_SUBMESSAGE := 8
  const LTYPE_SUBMSG_W_CB := 9
  const LTYPE_EXTENSION := 10

  /** pb_size_t. Assigning to a variable of this type proves that the value fits. */
  type size16 = x: int | 0 <= x < 65536

  /** pb_msgdesc_t, as far as the iterator reads it. */
  datatype MsgDesc = MsgDesc(fieldInfo: seq<u32>, fieldCount: nat, largestTag: nat)

  /** A field together with the width that the generator chose for it. */
  datatype Entry = Entry(width: nat, info: FieldInfo)

  function LType(typ: byte): nat {
    typ % 16
  }

  predicate IsSubmessage(typ: byte) {
    LType(typ) == LTYPE_SUBMESSAGE || LType(typ) == LTYPE_SUBMSG_W_CB
  }

  predicate IsRequired(typ: byte) {
    typ / 16 % 4 == 0
  }

  /** Where the words of entry k start. */
  function Offset(entries: seq<Entry>, k: nat): nat
    requires k <= |entries|
  {
    if k == 0 then 0 else Offset(entries, k - 1) + entries[k - 1].width
  }

  function RequiredBefore(entries: seq<Entry>, k: nat): (n: nat)
    requires k <= |entries|
    ensures n <= k
  {
    if k == 0 then 0 else RequiredBefore(entries, k - 1) + if IsRequired(entries[k - 1].info.typ) then 1 else 0
  }

  function SubmessagesBefore(entries: seq<Entry>, k: nat): (n: nat)
    requires k <= |entries|
    ensures n <= k
  {
    if k == 0 then 0 else SubmessagesBefore(entries, k - 1) + if IsSubmessage(entries[k - 1].info.typ) then 1 else 0
  }

  /** The required fields before field k, and the submessages: type 8, or 9 with a callback. */
  ghost function RequiredAmong(entries: seq<Entry>, k: nat): set<nat>
    requires k <= |entries|
  {
    set j: nat | j < k && entries[j].info.typ / 16 % 4 == 0
  }

  ghost function SubmessagesAmong(entries: seq<Entry>, k: nat): set<nat>
    requires k <= |entries|
  {
    set j: nat | j < k && (entries[j].info.typ % 16 == 8 || entries[j].info.typ % 16 == 9)
  }

  /** The two counters that the walk keeps are numbers of fields. */
  lemma {:induction false} RequiredCount(entries: seq<Entry>, k: nat)
    requires k <= |entries|
    ensures RequiredBefore(entries, k) == |RequiredAmong(entries, k)|
  {
    if k > 0 {
      RequiredCount(entries, k - 1);
      var before, now := RequiredAmong(entries, k - 1), RequiredAmong(entries, k);
      if entries[k - 1].info.typ / 16 % 4 == 0 {
        assert now == before + {k - 1};
      } else {
        assert now == before;
      }
    }
  }

  lemma {:induction false} SubmessageCount(entries: seq<Entry>, k: nat)
    requires k <= |entries|
    ensures SubmessagesBefore(entries, k) == |SubmessagesAmong(entries, k)|
  {
    if k > 0 {
      SubmessageCount(entries, k - 1);
      var before, now := SubmessagesAmong(entries, k - 1), SubmessagesAmong(entries, k);
      if entries[k - 1].info.typ % 16 == 8 || entries[k - 1].info.typ % 16 == 9 {
        assert now == before + {k - 1};
      } else {
        assert now == before;
      }
    }
  }

  /** An entry that passes the assertions, with a tag and no extension range. */
  predicate ValidEntry(e: Entry) {
    && ValidWidth(e.width) && Fits(e.width, e.info)
    && e.info.tag > 0 && LType(e.info.typ) != LTYPE_EXTENSION
  }

  predicate Packed(desc: MsgDesc, entries: seq<Entry>, k: nat)
    requires k < |entries| && ValidEntry(entries[k])
  {
    var at := Offset(entries, k);
    && at + entries[k].width < |desc.fieldInfo|
    && desc.fieldInfo[at..at + entries[k].width] == Pack(entries[k].width, entries[k].info)
  }

  /** What PB_BIND makes of a field list in tag order: the packed entries and a final zero,
      addressable with 16 bits. */
  predicate Bound(desc: MsgDesc, entries: seq<Entry>) {
    && desc.fieldCount == |entries|
    && desc.largestTag == (if entries == [] then 0 else entries[|entries| - 1].info.tag)
    && |desc.fieldInfo| == Offset(entries, |entries|) + 1 <= 0xFFFF
    && AllValid(entries)
    && (forall k {:trigger Packed(desc, entries, k)} :: 0 <= k < |entries| ==> ValidEntry(entries[k]) && Packed(desc, entries, k))
    && (forall j, k {:trigger Ascending(entries, j, k)} :: 0 <= j < k < |entries| ==> Ascending(entries, j, k))
  }

  predicate AllValid(entries: seq<Entry>) {
    forall k {:trigger ValidEntry(entries[k])} :: 0 <= k < |entries| ==> ValidEntry(entries[k])
  }

  predicate Ascending(entries: seq<Entry>, j: nat, k: nat)
    requires j < |entries| && k < |entries|
  {
    entries[j].info.tag < entries[k].info.tag
  }

  lemma {:induction false} FewerThanWords(entries: seq<Entry>, k: nat)
    requires k <= |entries| && AllValid(entries)
    ensures Offset(entries, k) >= k
  {
    if k > 0 {
      assert ValidEntry(entries[k - 1]);
      FewerThanWords(entries, k - 1);
    }
  }

  /** The index of the field with a tag, by looking at every field. */
  predicate HasTag(entries: seq<Entry>, k: nat, tag: nat)
    requires k < |entries|
  {
    entries[k].info.tag == tag
  }

  class FieldIter {
    const desc: MsgDesc
    ghost const entries: seq<Entry>

    var index: size16
    var fieldInfoIndex: size16
    var requiredFieldIndex: size16
    var submessageIndex: size16

    var tag: nat
    var typ: byte
    var dataOffset: nat
    var dataSize: nat
    var sizeOffset: int
    var arraySize: nat

    /** How often advance_iterator was called. */
    ghost var rounds: nat

    ghost predicate Bounded() {
      Bound(desc, entries)
    }

    function Loaded(): FieldInfo
      reads this
    {
      FieldInfo(tag, typ, dataOffset, dataSize, sizeOffset, arraySize)
    }

    /** The indices are those of entry k. */
    ghost predicate PointsAt(k: nat)
      reads this
    {
      && k < |entries| && index == k
      && fieldInfoIndex == Offset(entries, k)
      && requiredFieldIndex == RequiredBefore(entries, k)
      && submessageIndex == SubmessagesBefore(entries, k)
    }

    /** On entry k with its values loaded; or on an empty field list, with all zeros. */
    ghost predicate At(k: nat)
      reads this
    {
      if entries == [] then k == 0 && index == 0 && tag == 0 && fieldInfoIndex == 0 && requiredFieldIndex == 0 && submessageIndex == 0
      else PointsAt(k) && Loaded() == Recovered(entries[k].width, entries[k].info)
    }

    /** The memset of pb_field_iter_begin. */
    constructor (desc: MsgDesc, ghost entries: seq<Entry>)
      requires Bound(desc, entries)
      ensures this.desc == desc && this.entries == entries && Bounded()
      ensures index == fieldInfoIndex == requiredFieldIndex == submessageIndex == tag == 0
    {
      this.desc, this.entries := desc, entries;
      index, fieldInfoIndex, requiredFieldIndex, submessageIndex := 0, 0, 0, 0;
      tag, typ, dataOffset, dataSize, sizeOffset, arraySize := 0, 0, 0, 0, 0, 0;
    }

    /** load_descriptor_values. */
    method LoadValues() returns (ok: bool)
      requires Bounded() && (index < |entries| ==> PointsAt(index))
      modifies this`tag, this`typ, this`dataOffset, this`dataSize, this`sizeOffset, this`arraySize
      ensures ok <==> index < |entries|
      ensures ok ==> Loaded() == Recovered(entries[index].width, entries[index].info)
      ensures !ok ==> Loaded() == old(Loaded())
    {
      if index >= desc.fieldCount {
        return false;
      }
      EntryReads(desc, entries, index);
      var f := Load(desc.fieldInfo, fieldInfoIndex);
      tag, typ, dataOffset, dataSize, sizeOffset, arraySize :=
        f.tag, f.typ, f.dataOffset, f.dataSize, f.sizeOffset, f.arraySize;
      ok := true;
    }

    /** advance_iterator. An index past the end also restarts. */
    method Advance()
      requires Bounded() && (index < |entries| ==> PointsAt(index)) && index <= |entries|
      modifies this`index, this`fieldInfoIndex, this`requiredFieldIndex, this`submessageIndex, this`rounds
      ensures rounds == old(rounds) + 1
      ensures entries != [] ==> PointsAt(if old(index) + 1 < |entries| then old(index) + 1 else 0)
      ensures entries == [] ==> index == fieldInfoIndex == requiredFieldIndex == submessageIndex == 0
    {
      IndicesFit(desc, entries, 0);
      rounds := rounds + 1;
      index := index + 1;
      if index >= desc.fieldCount {
        index, fieldInfoIndex, submessageIndex, requiredFieldIndex := 0, 0, 0, 0;
      } else {
        EntryReads(desc, entries, index - 1);
        IndicesFit(desc, entries, index);
        var prevDescriptor := desc.fieldInfo[fieldInfoIndex];
        var prevType := prevDescriptor / 256 % 256;
        fieldInfoIndex := fieldInfoIndex + Length(prevDescriptor);
        requiredFieldIndex := requiredFieldIndex + if IsRequired(prevType) then 1 else 0;
        submessageIndex := submessageIndex + if IsSubmessage(prevType) then 1 else 0;
      }
    }

    /** pb_field_iter_begin, after the memset. */
    method Begin() returns (ok: bool)
      requires Bounded() && index == fieldInfoIndex == requiredFieldIndex == submessageIndex == tag == 0
      modifies this
      ensures ok <==> entries != []
      ensures At(0)
    {
      ok := LoadValues();
    }

    /** pb_field_iter_next. */
    method Next() returns (more: bool)
      requires Bounded() && At(index) && index <= |entries|
      modifies this
      ensures At(if old(index) + 1 < |entries| then old(index) + 1 else 0)
      ensures more <==> old(index) + 1 < |entries|
    {
      Advance();
      var ok := LoadValues();
      more := index != 0;
    }

    /** pb_field_iter_find: from any field, forward and around the end, at most once around.
        Succeeds if and only if the tag exists, on the field that has it; otherwise the
        iterator is back on the field where it was. */
    method Find(wanted: nat) returns (found: bool)
      requires Bounded() && At(index) && wanted > 0
      modifies this
      ensures rounds <= old(rounds) + |entries|
      ensures found <==> exists k :: 0 <= k < |entries| && HasTag(entries, k, wanted)
      ensures found ==> index < |entries| && HasTag(entries, index, wanted) && At(index)
      ensures !found ==> index == old(index) && At(index)
    {
      FewerThanWords(entries, |entries|);
      if tag == wanted {
        assert HasTag(entries, index, wanted);
        return true;
      }
      if wanted > desc.largestTag {
        TagsBelow(entries, |entries| - 1);
        return false;
      }
      var start := index;
      if wanted < tag {
        TagsAbove(entries, index);
        index := desc.fieldCount;
      }
      found := Search(start, wanted);
    }

    /** No field from lo up to hi has the tag. */
    ghost predicate Clear(lo: nat, hi: nat, wanted: nat)
      requires hi <= |entries|
    {
      forall k {:trigger HasTag(entries, k, wanted)} :: lo <= k < hi ==> !HasTag(entries, k, wanted)
    }

    /** One round of the loop of pb_field_iter_find: the six low tag bits decide whether it is
        worth loading the values. */
    method Visit(wanted: nat) returns (hit: bool)
      requires Bounded() && entries != [] && (index < |entries| ==> PointsAt(index)) && index <= |entries|
      modifies this
      ensures rounds == old(rounds) + 1
      ensures PointsAt(if old(index) + 1 < |entries| then old(index) + 1 else 0)
      ensures hit <==> HasTag(entries, index, wanted)
      ensures hit ==> At(index)
    {
      Advance();
      EntryReads(desc, entries, index);
      var fieldInfo := desc.fieldInfo[fieldInfoIndex];
      hit := false;
      if fieldInfo / 4 % 64 == wanted % 64 {
        var ok := LoadValues();
        hit := tag == wanted && LType(typ) != LTYPE_EXTENSION;
      }
    }

    /** The loop of pb_field_iter_find. It starts at the field after `start`, or at the first
        one if the index was moved past the end because the tag is a smaller one. */
    method Search(start: nat, wanted: nat) returns (found: bool)
      requires Bounded() && start < |entries| && !HasTag(entries, start, wanted)
      requires (index == start && PointsAt(start)) || (index == |entries| && Clear(start + 1, |entries|, wanted))
      modifies this
      ensures rounds <= old(rounds) + |entries|
      ensures found ==> index < |entries| && HasTag(entries, index, wanted) && At(index)
      ensures !found ==> Clear(0, |entries|, wanted) && index == start && At(index)
    {
      FewerThanWords(entries, |entries|);
      var more := true;
      ghost var wrapped := index == |entries|;
      ghost var next := if wrapped then 0 else start + 1;
      while more
        invariant rounds + (if !more then 0 else start + 1 - next + if wrapped then 0 else |entries|) <= old(rounds) + |entries|
        invariant more ==> next <= (if wrapped then start else |entries|)
        invariant more ==> if wrapped && next == 0 then index == |entries| else next > 0 && index == next - 1 && PointsAt(index)
        invariant more && wrapped ==> Clear(start + 1, |entries|, wanted) && Clear(0, next, wanted)
        invariant more && !wrapped ==> start < next && Clear(start + 1, next, wanted)
        invariant !more ==> PointsAt(start) && Clear(0, |entries|, wanted)
        decreases if wrapped then start - next else |entries| - next + start + 2, more
      {
        found := Visit(wanted);
        if found {
          return;
        }
        wrapped := wrapped || index == 0;
        next := index + 1;
        more := index != start;
      }
      var ok := LoadValues();
      found := false;
    }
  }

  lemma TagsAbove(entries: seq<Entry>, start: nat)
    requires start < |entries|
    requires forall j, k {:trigger Ascending(entries, j, k)} :: 0 <= j < k < |entries| ==> Ascending(entries, j, k)
    ensures forall k :: start < k < |entries| ==> entries[start].info.tag < entries[k].info.tag
  {
    forall k | start < k < |entries|
      ensures entries[start].info.tag < entries[k].info.tag
    {
      assert Ascending(entries, start, k);
    }
  }

  lemma TagsBelow(entries: seq<Entry>, last: int)
    requires last == |entries| - 1
    requires forall j, k {:trigger Ascending(entries, j, k)} :: 0 <= j < k < |entries| ==> Ascending(entries, j, k)
    ensures forall k :: 0 <= k < |entries| ==> entries[k].info.tag <= entries[last].info.tag
  {
    forall k | 0 <= k < |entries|
      ensures entries[k].info.tag <= entries[last].info.tag
    {
      assert k < last ==> Ascending(entries, k, last);
    }
  }

  lemma EntryReads(desc: MsgDesc, entries: seq<Entry>, k: nat)
    requires Bound(desc, entries) && k < |entries|
    ensures ValidEntry(entries[k])
    ensures var at := Offset(entries, k);
      at < |desc.fieldInfo| && Length(desc.fieldInfo[at]) == entries[k].width &&
      at + entries[k].width < |desc.fieldInfo| &&
      Load(desc.fieldInfo, at) == Recovered(entries[k].width, entries[k].info) &&
      desc.fieldInfo[at] / 4 % 64 == entries[k].info.tag % 64 &&
      desc.fieldInfo[at] / 256 % 256 == entries[k].info.typ
  {
    var at, e := Offset(entries, k), entries[k];
    assert ValidEntry(e) && Packed(desc, entries, k);
    LoadRecovers(e.width, e.info, desc.fieldInfo, at);
    PackedFirstWord(e.width, e.info);
    assert desc.fieldInfo[at] == desc.fieldInfo[at..at + e.width][0];
  }

  /** Nothing wraps at 16 bits. */
  lemma IndicesFit(desc: MsgDesc, entries: seq<Entry>, k: nat)
    requires Bound(desc, entries) && k <= |entries|
    ensures RequiredBefore(entries, k) < 65536 && SubmessagesBefore(entries, k) < 65536 && Offset(entries, k) < 65536
    ensures |entries| < 65535
  {
    OffsetGrows(entries, k);
    FewerThanWords(entries, k);
    FewerThanWords(entries, |entries|);
  }

  lemma {:induction false} OffsetGrows(entries: seq<Entry>, k: nat)
    requires k <= |entries| && AllValid(entries)
    ensures Offset(entries, k) <= Offset(entries, |entries|)
    decreases |entries| - k
  {
    if k < |entries| {
      OffsetGrows(entries, k + 1);
    }
  }

  /** A descriptor and a packed field list are about the same tags. */
  predicate SameTags(d: Schema.Desc, entries: seq<Entry>) {
    |d.fields| == |entries| && forall k :: 0 <= k < |entries| ==> d.fields[k].tag == entries[k].info.tag
  }

  /** The lookup by which the decoder is specified is the one that Find performs. */
  lemma LookupAgrees(d: Schema.Desc, entries: seq<Entry>, k: nat, tag: nat)
    requires Schema.ValidDesc(d) && SameTags(d, entries)
    ensures Schema.IndexOfTag(d, tag) == Some(k) <==> k < |entries| && HasTag(entries, k, tag)
  {
    if k < |entries| && HasTag(entries, k, tag) {
      Schema.IndexOfOwnTag(d, k);
    }
  }
}
