/** Message descriptors and messages of nanopb, restricted to static fields without defaults:
    scalars, packed repeated scalars, oneof scalars and oneof submessages of any depth. */
module Schema {
  import opened Words

  /** Field data types (PB_LTYPE_*) with the size in bytes of the C member that holds them. */
  datatype Scalar = Bool | UVarint(size: nat) | SInt(size: nat) | ZigZagInt(size: nat) | Fixed32 | Fixed64

  /** Repetition rules (PB_HTYPE_*). `group` names the union that a oneof member lives in. */
  datatype Kind =
    | Singular(scalar: Scalar)
    | Repeated(scalar: Scalar, arraySize: nat)
    | OneofScalar(group: nat, scalar: Scalar)
    | OneofMessage(group: nat, sub: Desc)

  datatype Field = Field(tag: nat, kind: Kind)

  datatype Desc = Desc(fields: seq<Field>)

  /** What a C struct holds for one field. A oneof member is Unset unless the union's
      which_ field equals the member's tag. */
  datatype Slot =
    | Num(n: int)
    | Arr(ns: seq<int>)
    | Unset
    | SetNum(n: int)
    | SetMsg(msg: Msg)

  datatype Msg = Msg(slots: seq<Slot>)

  // ---------- Well-formed descriptors ----------

  predicate ValidScalar(s: Scalar) {
    (s.UVarint? || s.SInt? || s.ZigZagInt?) ==> s.size == 1 || s.size == 2 || s.size == 4 || s.size == 8
  }

  /** Tags are positive, ascending (hence distinct) and fit in pb_size_t. */
  predicate ValidDesc(d: Desc)
    decreases d
  {
    && (forall i {:trigger ValidKind(d, i)} :: 0 <= i < |d.fields| ==> ValidKind(d, i))
    && (forall i, j {:trigger Ascending(d, i, j)} :: 0 <= i < j < |d.fields| ==> Ascending(d, i, j))
  }

  predicate Ascending(d: Desc, i: nat, j: nat)
    requires i < |d.fields| && j < |d.fields|
  {
    d.fields[i].tag < d.fields[j].tag
  }

  predicate ValidKind(d: Desc, i: nat)
    requires i < |d.fields|
    decreases d, 0
  {
    && 1 <= d.fields[i].tag <= 0xFFFF
    && match d.fields[i].kind
       case Singular(s) => ValidScalar(s)
       case Repeated(s, n) => ValidScalar(s) && n <= 0xFFFF
       case OneofScalar(_, s) => ValidScalar(s)
       case OneofMessage(_, sub) => ValidDesc(sub)
  }

  /** Two fields share the storage of one union. */
  predicate SameUnion(d: Desc, i: nat, j: nat)
    requires i < |d.fields| && j < |d.fields|
  {
    var (a, b) := (d.fields[i].kind, d.fields[j].kind);
    && (a.OneofScalar? || a.OneofMessage?)
    && (b.OneofScalar? || b.OneofMessage?)
    && a.group == b.group
  }

  // ---------- Messages of a descriptor ----------

  function SizeLimit(size: nat): int {
    if size == 1 then 0x100 else if size == 2 then 0x1_0000 else if size == 4 then TWO_32 else TWO_64
  }

  /** The values that the C member can hold. Floats are their 32-bit patterns. */
  predicate InRange(s: Scalar, n: int)
    requires ValidScalar(s)
  {
    match s
    case Bool => 0 <= n <= 1
    case UVarint(size) => 0 <= n < SizeLimit(size)
    case SInt(size) => -SizeLimit(size) <= 2 * n < SizeLimit(size)
    case ZigZagInt(size) => -SizeLimit(size) <= 2 * n < SizeLimit(size)
    case Fixed32 => 0 <= n < TWO_32
    case Fixed64 => 0 <= n < TWO_64
  }

  predicate AllInRange(s: Scalar, ns: seq<int>)
    requires ValidScalar(s)
  {
    forall k :: 0 <= k < |ns| ==> InRange(s, ns[k])
  }

  predicate IsSet(s: Slot) {
    s.SetNum? || s.SetMsg?
  }

  /** m is a value of the C struct described by d: types and ranges match, and a union holds
      at most one member. Array counts are bounded by CountsFit, not here. */
  predicate Shaped(d: Desc, m: Msg)
    requires ValidDesc(d)
    decreases d
  {
    && |m.slots| == |d.fields|
    && (forall i {:trigger SlotShaped(d, i, m.slots[i])} :: 0 <= i < |d.fields| ==> ValidKind(d, i) && SlotShaped(d, i, m.slots[i]))
    && (forall i, j {:trigger SameUnion(d, i, j)} :: 0 <= i < |d.fields| && 0 <= j < |d.fields| && i != j && SameUnion(d, i, j) ==>
      !IsSet(m.slots[i]) || !IsSet(m.slots[j]))
  }

  predicate SlotShaped(d: Desc, i: nat, s: Slot)
    requires i < |d.fields| && ValidKind(d, i)
    decreases d, 0
  {
    match d.fields[i].kind
    case Singular(t) => s.Num? && InRange(t, s.n)
    case Repeated(t, _) => s.Arr? && AllInRange(t, s.ns)
    case OneofScalar(_, t) => s.Unset? || (s.SetNum? && InRange(t, s.n))
    case OneofMessage(_, sub) => s.Unset? || (s.SetMsg? && Shaped(sub, s.msg))
  }

  /** No repeated field counts more elements than its array has. */
  predicate CountsFit(d: Desc, m: Msg)
    requires ValidDesc(d) && Shaped(d, m)
    decreases d
  {
    forall i {:trigger SlotFits(d, i, m.slots[i])} :: 0 <= i < |d.fields| ==>
      ValidKind(d, i) && SlotShaped(d, i, m.slots[i]) && SlotFits(d, i, m.slots[i])
  }

  predicate SlotFits(d: Desc, i: nat, s: Slot)
    requires i < |d.fields| && ValidKind(d, i) && SlotShaped(d, i, s)
    decreases d, 0
  {
    match d.fields[i].kind
    case Singular(_) => true
    case Repeated(_, n) => |s.ns| <= n
    case OneofScalar(_, _) => true
    case OneofMessage(_, sub) => s.Unset? || CountsFit(sub, s.msg)
  }

  /** The state that pb_message_set_to_defaults and the memset of a fresh union leave. */
  function DefaultSlot(k: Kind): Slot {
    match k
    case Singular(_) => Num(0)
    case Repeated(_, _) => Arr([])
    case OneofScalar(_, _) => Unset
    case OneofMessage(_, _) => Unset
  }

  function Default(d: Desc): (m: Msg)
    requires ValidDesc(d)
    ensures Shaped(d, m) && CountsFit(d, m)
  {
    var m := Msg(seq(|d.fields|, i requires 0 <= i < |d.fields| => DefaultSlot(d.fields[i].kind)));
    assert forall i :: 0 <= i < |d.fields| ==> ValidKind(d, i) && SlotShaped(d, i, m.slots[i]) && SlotFits(d, i, m.slots[i]);
    m
  }

  // ---------- Field lookup ----------

  /** The index of the field with a tag: what pb_field_iter_find finds. */
  function IndexOfTag(d: Desc, tag: nat): (r: Option<nat>)
    ensures r.Some? ==> r.value < |d.fields| && d.fields[r.value].tag == tag
    ensures r.None? ==> forall i :: 0 <= i < |d.fields| ==> d.fields[i].tag != tag
  {
    IndexFrom(d, tag, 0)
  }

  function IndexFrom(d: Desc, tag: nat, from: nat): (r: Option<nat>)
    requires from <= |d.fields|
    ensures r.Some? ==> from <= r.value < |d.fields| && d.fields[r.value].tag == tag
    ensures r.None? ==> forall i :: from <= i < |d.fields| ==> d.fields[i].tag != tag
    decreases |d.fields| - from
  {
    if from == |d.fields| then None
    else if d.fields[from].tag == tag then Some(from)
    else IndexFrom(d, tag, from + 1)
  }

  lemma IndexOfOwnTag(d: Desc, i: nat)
    requires ValidDesc(d) && i < |d.fields|
    ensures IndexOfTag(d, d.fields[i].tag) == Some(i)
  {
    var j := IndexOfTag(d, d.fields[i].tag).value;
    assert i < j ==> Ascending(d, i, j);
    assert j < i ==> Ascending(d, j, i);
  }
}
