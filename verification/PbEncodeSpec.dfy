// What pb_encode writes: the byte string of a message, or the first error.
module PbEncodeSpec {
  import opened Bits
  import opened Results
  import opened PbWire
  import opened PbDescriptor

  const WT_VARINT: nat := 0
  const WT_64BIT: nat := 1
  const WT_STRING: nat := 2
  const WT_32BIT: nat := 5

  function WireType(t: LType): (wt: nat)
    ensures wt < 8
  {
    match t
    case Varint => WT_VARINT
    case Uvarint => WT_VARINT
    case Svarint => WT_VARINT
    case Fixed32 => WT_32BIT
    case Fixed64 => WT_64BIT
    case _ => WT_STRING
  }

  function EncTag(wt: nat, tag: nat): seq<byte> {
    EncVarint(tag * 8 + wt)
  }

  function LittleEndian(v: nat, n: nat): (r: seq<byte>)
    ensures |r| == n
  {
    if n == 0 then [] else [v % 256] + LittleEndian(v / 256, n - 1)
  }

  // Zigzag: twice the value in 64 bits, with all bits inverted when it is negative.
  function ZigZag(i: int): (r: nat)
    requires -0x8000_0000_0000_0000 <= i < 0x8000_0000_0000_0000
    ensures r < U64
  {
    if i < 0 then U64 - 1 - (ToU64(i) * 2) % U64 else (ToU64(i) * 2) % U64
  }

  function Prefixed(b: seq<byte>): seq<byte> {
    EncVarint(|b|) + b
  }

  function Plus(a: Result<seq<byte>>, b: Result<seq<byte>>): (r: Result<seq<byte>>)
    ensures r.Ok? <==> a.Ok? && b.Ok?
    ensures r.Ok? ==> r.value == a.value + b.value
  {
    if a.Err? then a else if b.Err? then b else Ok(a.value + b.value)
  }

  // The errors that depend on the message alone.
  predicate MessageError(r: Result<seq<byte>>) {
    r.Err? ==> r.error == InvalidDataSize || r.error == BytesSizeExceeded || r.error == ArraySizeExceeded
  }

  // One field encoder of the PB_ENCODERS table.
  function EncValue(f: Field, v: Value): (r: Result<seq<byte>>)
    requires ValueOk(f, v)
    ensures MessageError(r)
    decreases v, 0
  {
    match f.ltype
    case Varint => if IntSize(f.dataSize) then Ok(EncVarint(ToU64(v.i))) else Err(InvalidDataSize)
    case Uvarint => if IntSize(f.dataSize) then Ok(EncVarint(v.i)) else Err(InvalidDataSize)
    case Svarint => if IntSize(f.dataSize) then Ok(EncVarint(ZigZag(v.i))) else Err(InvalidDataSize)
    case Fixed32 => Ok(LittleEndian(v.i, 4))
    case Fixed64 => Ok(LittleEndian(v.i, 8))
    case Bytes => if |v.b| + BYTES_HEADER > f.dataSize then Err(BytesSizeExceeded) else Ok(Prefixed(v.b))
    case Str => Ok(Prefixed(v.b))
    case FixedLengthBytes => Ok(Prefixed(v.b))
    case Submessage =>
      var sub :- EncFrom(f.ptr.fields, v.slots, 0);
      Ok(Prefixed(sub))
  }

  function EncTagged(f: Field, v: Value): (r: Result<seq<byte>>)
    requires ValueOk(f, v)
    ensures MessageError(r)
    decreases v, 1
  {
    Plus(Ok(EncTag(WireType(f.ltype), f.tag)), EncValue(f, v))
  }

  // The entries of a packed array, back to back.
  function EncPacked(f: Field, items: seq<Value>): (r: Result<seq<byte>>)
    requires forall x | x in items :: ValueOk(f, x)
    ensures MessageError(r)
    decreases items, 2
  {
    if items == [] then Ok([])
    else Plus(EncValue(f, items[0]), EncPacked(f, items[1..]))
  }

  // The entries of an unpacked array, each with its own tag.
  function EncUnpacked(f: Field, items: seq<Value>): (r: Result<seq<byte>>)
    requires forall x | x in items :: ValueOk(f, x)
    ensures MessageError(r)
    decreases items, 2
  {
    if items == [] then Ok([])
    else Plus(EncTagged(f, items[0]), EncUnpacked(f, items[1..]))
  }

  function EncArray(f: Field, items: seq<Value>): (r: Result<seq<byte>>)
    requires forall x | x in items :: ValueOk(f, x)
    ensures MessageError(r)
    decreases items, 3
  {
    if items == [] then Ok([])
    else if |items| > f.arraySize then Err(ArraySizeExceeded)
    else if Packable(f.ltype) then
      var data :- EncPacked(f, items);
      Ok(EncTag(WT_STRING, f.tag) + Prefixed(data))
    else EncUnpacked(f, items)
  }

  // The slot s can hold the field f.
  predicate Holds(f: Field, s: Slot) {
    match f.htype
    case Required => s.Single? && ValueOk(f, s.v)
    case Optional => (if f.sizeOffset != 0 then s.Flagged? else s.Single?) && ValueOk(f, s.v)
    case Repeated => s.Rep? && forall x | x in s.items :: ValueOk(f, x)
    case Oneof => s.OneofSlot? && (s.which == f.tag ==> ValueOk(f, s.v))
  }

  lemma OwnerHolds(fs: seq<Field>, k: nat, m: Msg)
    requires MsgOk(fs, m) && k < |fs|
    ensures Holds(fs[k], m[Owner(fs, k)])
  {
    assert SlotOk(fs, Owner(fs, k), m[Owner(fs, k)]);
  }

  // pb_check_proto3_default_value on a field.
  predicate FieldIsZero(f: Field, s: Slot)
    requires Holds(f, s)
    decreases s, 0
  {
    match f.htype
    case Required => false
    case Repeated => s.items == []
    case Oneof => s.which == 0
    case Optional => if f.sizeOffset != 0 then !s.has else ValueIsZero(f, s.v)
  }

  predicate ValueIsZero(f: Field, v: Value)
    requires ValueOk(f, v)
    decreases v, 1
  {
    match f.ltype
    case Bytes => |v.b| == 0
    case Str => |v.b| == 0
    case FixedLengthBytes => f.dataSize == 0
    case Submessage => MsgIsZero(f.ptr.fields, v.slots)
    case _ => v.i == 0
  }

  predicate MsgIsZero(fs: seq<Field>, m: Msg)
    requires MsgOk(fs, m)
    decreases m, 2
  {
    forall k: nat | k < |fs| :: OwnerHolds(fs, k, m); FieldIsZero(fs[k], m[Owner(fs, k)])
  }

  // encode_basic_field.
  function EncField(f: Field, s: Slot): (r: Result<seq<byte>>)
    requires Holds(f, s)
    ensures MessageError(r)
    decreases s, 4
  {
    match f.htype
    case Required => EncTagged(f, s.v)
    case Optional =>
      if f.sizeOffset != 0 then
        if s.has then EncTagged(f, s.v) else Ok([])
      else
        if !ValueIsZero(f, s.v) then EncTagged(f, s.v) else Ok([])
    case Repeated => EncArray(f, s.items)
    case Oneof =>
      if s.which == f.tag then EncTagged(f, s.v) else Ok([])
  }

  // The fields from position k to the end.
  function EncFrom(fs: seq<Field>, m: Msg, k: nat): (r: Result<seq<byte>>)
    requires MsgOk(fs, m) && k <= |fs|
    ensures MessageError(r)
    decreases m, 5, |fs| - k
  {
    if k == |fs| then Ok([])
    else
      OwnerHolds(fs, k, m);
      Plus(EncField(fs[k], m[Owner(fs, k)]), EncFrom(fs, m, k + 1))
  }

  function EncMsg(fs: seq<Field>, m: Msg): (r: Result<seq<byte>>)
    requires MsgOk(fs, m)
    ensures MessageError(r)
  {
    EncFrom(fs, m, 0)
  }
}
