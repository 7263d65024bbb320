// Message descriptors (pb_field_t arrays) and the values they describe.
module PbDescriptor {
  import opened Bits
  import opened Results

  // PB_FIELD_32BIT is set for this build, so that pb_size_t has 32 bits.
  const PB_SIZE_MAX: nat := 0xFFFF_FFFF
  const PB_MAX_REQUIRED_FIELDS: nat := 64
  // offsetof(pb_bytes_array_t, bytes)
  const BYTES_HEADER: nat := 4

  datatype LType = Varint | Uvarint | Svarint | Fixed32 | Fixed64 | Bytes | Str | Submessage | FixedLengthBytes

  datatype HType = Required | Optional | Repeated | Oneof

  // What field->ptr points to.
  datatype Ptr = Null | DefaultValue(value: Value) | Fields(fields: seq<Field>)

  // One static field; a descriptor is the array without its terminator, whose tag is 0.
  datatype Field = Field(
    tag: nat, htype: HType, ltype: LType,
    dataOffset: nat, sizeOffset: int, dataSize: nat, arraySize: nat,
    ptr: Ptr)

  datatype Value = IntV(i: int) | BytesV(b: seq<byte>) | MsgV(slots: seq<Slot>)

  // The memory of one field. A oneof is stored once, in the slot of its first member.
  datatype Slot =
    | Single(v: Value)              // required, or optional without a has_ flag
    | Flagged(has: bool, v: Value)  // optional with a has_ flag
    | Rep(items: seq<Value>)        // _count and the entries it covers
    | OneofSlot(which: nat, v: Value)  // which_ (0 when unset) and the union
    | Shared                        // inside the union of an earlier slot

  type Msg = seq<Slot>

  predicate Packable(t: LType) {
    t.Varint? || t.Uvarint? || t.Svarint? || t.Fixed32? || t.Fixed64?
  }

  // Whether the field at k lies in the same union as its predecessor.
  predicate Continues(fs: seq<Field>, k: nat)
    requires k < |fs|
  {
    k > 0 && fs[k - 1].htype.Oneof? && fs[k].htype.Oneof? && fs[k].dataOffset == PB_SIZE_MAX
  }

  // The slot that holds the field at k.
  function Owner(fs: seq<Field>, k: nat): (o: nat)
    requires k < |fs|
    ensures o <= k && !Continues(fs, o)
    ensures o < k ==> fs[o].htype.Oneof? && fs[k].htype.Oneof?
    ensures Continues(fs, k) <==> o < k
    ensures forall j | o < j <= k :: Continues(fs, j)
  {
    if Continues(fs, k) then Owner(fs, k - 1) else k
  }

  // ---------- well-formed values ----------

  predicate IntSize(n: nat) {
    n == 1 || n == 2 || n == 4 || n == 8
  }

  predicate InSigned(n: nat, i: int) {
    (n == 1 ==> -0x80 <= i < 0x80)
    && (n == 2 ==> -0x8000 <= i < 0x8000)
    && (n == 4 ==> -0x8000_0000 <= i < 0x8000_0000)
    && -0x8000_0000_0000_0000 <= i < 0x8000_0000_0000_0000
  }

  predicate InUnsigned(n: nat, i: int) {
    && 0 <= i < U64
    && (n == 1 ==> i < 0x100) && (n == 2 ==> i < 0x1_0000) && (n == 4 ==> i < U32)
  }

  // The value fits the C type that the field declares.
  predicate ValueOk(f: Field, v: Value)
    decreases v, 0
  {
    match f.ltype
    case Varint => v.IntV? && InSigned(f.dataSize, v.i)
    case Uvarint => v.IntV? && InUnsigned(f.dataSize, v.i)
    case Svarint => v.IntV? && InSigned(f.dataSize, v.i)
    case Fixed32 => v.IntV? && 0 <= v.i < U32
    case Fixed64 => v.IntV? && 0 <= v.i < U64
    case Bytes => v.BytesV? && |v.b| <= PB_SIZE_MAX
    case Str => v.BytesV? && |v.b| <= f.dataSize && 0 !in v.b
    case FixedLengthBytes => v.BytesV? && |v.b| == f.dataSize
    case Submessage => v.MsgV? && f.ptr.Fields? && MsgOk(f.ptr.fields, v.slots)
  }

  predicate SlotOk(fs: seq<Field>, k: nat, s: Slot)
    requires k < |fs|
    decreases s, 1
  {
    if Continues(fs, k) then s.Shared?
    else
      match fs[k].htype
      case Required => s.Single? && ValueOk(fs[k], s.v)
      case Optional =>
        if fs[k].sizeOffset != 0 then s.Flagged? && ValueOk(fs[k], s.v)
        else s.Single? && ValueOk(fs[k], s.v)
      case Repeated => s.Rep? && forall x | x in s.items :: ValueOk(fs[k], x)
      case Oneof =>
        s.OneofSlot? && forall j: nat | j < |fs| && Owner(fs, j) == k && fs[j].tag == s.which :: ValueOk(fs[j], s.v)
  }

  predicate MsgOk(fs: seq<Field>, m: Msg)
    decreases m, 2
  {
    |m| == |fs| && forall k: nat | k < |fs| :: SlotOk(fs, k, m[k])
  }

  // ---------- defaults ----------

  function Zeros(n: nat): (r: seq<byte>)
    ensures |r| == n
  {
    seq(n, i => 0)
  }

  function DefaultVal(f: Field): Value
    decreases f, 1
  {
    match f.ptr
    case Fields(sub) => MsgV(DefaultMsg(sub))
    case DefaultValue(v) => v
    case Null =>
      match f.ltype
      case Bytes => BytesV([])
      case Str => BytesV([])
      case FixedLengthBytes => BytesV(Zeros(f.dataSize))
      case Submessage => MsgV([])
      case _ => IntV(0)
  }

  // pb_field_set_to_default on the field at k.
  function DefaultSlot(fs: seq<Field>, k: nat): Slot
    requires k < |fs|
    decreases fs, 0
  {
    if Continues(fs, k) then Shared
    else
      match fs[k].htype
      case Required => Single(DefaultVal(fs[k]))
      case Optional =>
        if fs[k].sizeOffset != 0 then Flagged(false, DefaultVal(fs[k])) else Single(DefaultVal(fs[k]))
      case Repeated => Rep([])
      case Oneof => OneofSlot(0, IntV(0))
  }

  // pb_message_set_to_defaults.
  function DefaultMsg(fs: seq<Field>): (m: Msg)
    ensures |m| == |fs|
    ensures forall k | 0 <= k < |fs| :: m[k] == DefaultSlot(fs, k)
    decreases fs, 1
  {
    seq(|fs|, k requires 0 <= k < |fs| => DefaultSlot(fs, k))
  }

  // ---------- well-formed descriptors ----------

  // Arrays and oneofs have a count or a tag beside them: fixed-count arrays are left out.
  predicate Counted(f: Field) {
    f.htype.Repeated? || f.htype.Oneof? ==> f.sizeOffset != 0
  }

  // A default string or byte array fits the member that it is copied to.
  predicate DefaultFits(f: Field, v: Value) {
    && (f.ltype.Str? && v.BytesV? ==> |v.b| < f.dataSize)
    && (f.ltype.Bytes? && v.BytesV? ==> |v.b| + BYTES_HEADER <= f.dataSize)
  }

  predicate FieldOk(f: Field)
    decreases f, 0
  {
    && 0 < f.tag < 0x2000_0000
    && (Packable(f.ltype) && !f.ltype.Fixed32? && !f.ltype.Fixed64? ==> IntSize(f.dataSize))
    && (f.ltype.Submessage? <==> f.ptr.Fields?)
    && (f.ptr.Fields? ==> DescriptorOk(f.ptr.fields))
    && (f.ltype.Bytes? ==> f.dataSize >= BYTES_HEADER)
    && (f.ltype.Str? ==> f.dataSize >= 1)
    && f.dataSize < U32 && Counted(f)
    && (f.ptr.DefaultValue? ==> ValueOk(f, f.ptr.value) && DefaultFits(f, f.ptr.value))
  }

  // Tags are distinct and nonzero, and the members of a union have one which_ tag.
  predicate DescriptorOk(fs: seq<Field>)
    decreases fs, 1
  {
    && (forall k: nat | k < |fs| :: FieldOk(fs[k]))
    && DistinctTags(fs) && OneTag(fs)
  }

  predicate OneTag(fs: seq<Field>) {
    forall k: nat | k < |fs| && Continues(fs, k) :: fs[k].sizeOffset == fs[k - 1].sizeOffset
  }

  predicate DistinctTags(fs: seq<Field>) {
    forall j: nat, k: nat | j < k < |fs| :: fs[j].tag != fs[k].tag
  }

  // Tags and data sizes are pb_size_t; tag 0 is the terminator.
  predicate FieldSizes(f: Field)
    decreases f, 0
  {
    0 < f.tag < U32 && f.dataSize < U32 && Counted(f) && (f.ptr.Fields? ==> DescriptorSizes(f.ptr.fields))
  }

  predicate DescriptorSizes(fs: seq<Field>)
    decreases fs, 1
  {
    OneTag(fs) && forall k: nat | k < |fs| :: FieldSizes(fs[k])
  }

  lemma DescriptorOkSizes(fs: seq<Field>)
    requires DescriptorOk(fs)
    ensures DescriptorSizes(fs)
    decreases fs, 1
  {
    forall k: nat | k < |fs|
      ensures FieldSizes(fs[k])
    {
      FieldOkSizes(fs[k]);
    }
  }

  lemma FieldOkSizes(f: Field)
    requires FieldOk(f)
    ensures FieldSizes(f)
    decreases f, 0
  {
    if f.ptr.Fields? {
      DescriptorOkSizes(f.ptr.fields);
    }
  }

  function FindField(fs: seq<Field>, tag: nat): (r: Option<nat>)
    ensures r.Some? ==> r.value < |fs| && fs[r.value].tag == tag
    ensures r.None? <==> forall k | 0 <= k < |fs| :: fs[k].tag != tag
  {
    FindFrom(fs, tag, 0)
  }

  function FindFrom(fs: seq<Field>, tag: nat, k: nat): (r: Option<nat>)
    requires k <= |fs|
    ensures r.Some? ==> k <= r.value < |fs| && fs[r.value].tag == tag
    ensures r.None? <==> forall j | k <= j < |fs| :: fs[j].tag != tag
    decreases |fs| - k
  {
    if k == |fs| then None
    else if fs[k].tag == tag then Some(k)
    else FindFrom(fs, tag, k + 1)
  }

  lemma FindUnique(fs: seq<Field>, k: nat)
    requires DescriptorOk(fs) && k < |fs|
    ensures FindField(fs, fs[k].tag) == Some(k)
  {
  }

  lemma DefaultMsgOk(fs: seq<Field>)
    requires DescriptorOk(fs)
    ensures MsgOk(fs, DefaultMsg(fs))
    decreases fs, 1
  {
    forall k: nat | k < |fs|
      ensures SlotOk(fs, k, DefaultSlot(fs, k))
    {
      DefaultValOk(fs[k]);
    }
  }

  lemma DefaultValOk(f: Field)
    requires FieldOk(f)
    ensures ValueOk(f, DefaultVal(f))
    decreases f, 0
  {
    if f.ptr.Fields? {
      DefaultMsgOk(f.ptr.fields);
    }
  }
}
