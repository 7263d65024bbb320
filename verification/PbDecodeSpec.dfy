// What pb_decode_noinit does with a byte string and the destination struct.
module PbDecodeSpec {
  import opened Bits
  import opened Results
  import opened PbWire
  import opened PbDescriptor
  import opened PbEncodeSpec

  datatype Tag = TagOk(wt: nat, tag: nat, rest: seq<byte>) | TagEof(rest: seq<byte>) | TagErr(error: Error)

  // pb_decode_tag. A zero byte ends the message.
  function DecTag(s: seq<byte>): (t: Tag)
    ensures t.TagOk? ==> |t.rest| < |s| && t.rest == s[|s| - |t.rest|..]
    ensures t.TagOk? ==> t.wt < 8 && t.tag < 0x2000_0000
    ensures t.TagEof? ==> |t.rest| <= |s| && t.rest == s[|s| - |t.rest|..]
  {
    if s == [] then TagEof([])
    else
      match DecVarint32(s)
      case Err(e) => TagErr(e)
      case Ok((temp, rest)) => if temp == 0 then TagEof(rest) else TagOk(temp % 8, temp / 8, rest)
  }

  function SkipVarint(s: seq<byte>): (r: Result<seq<byte>>)
    ensures r.Ok? ==> |r.value| < |s| && r.value == s[|s| - |r.value|..]
  {
    if s == [] then Err(EndOfStream)
    else if s[0] >= 128 then SkipVarint(s[1..])
    else Ok(s[1..])
  }

  function Drop(s: seq<byte>, n: nat): (r: Result<seq<byte>>)
    ensures r.Ok? <==> n <= |s|
    ensures r.Ok? ==> r.value == s[n..]
  {
    if |s| < n then Err(EndOfStream) else Ok(s[n..])
  }

  // pb_skip_field.
  function Skip(wt: nat, s: seq<byte>): (r: Result<seq<byte>>)
    ensures r.Ok? ==> |r.value| <= |s| && r.value == s[|s| - |r.value|..]
  {
    if wt == WT_VARINT then SkipVarint(s)
    else if wt == WT_64BIT then Drop(s, 8)
    else if wt == WT_STRING then
      var (n, rest) :- DecVarint32(s);
      Drop(rest, n)
    else if wt == WT_32BIT then Drop(s, 4)
    else Err(InvalidWireType)
  }

  // The window of a length-delimited value and what follows it (pb_make_string_substream).
  function Window(s: seq<byte>): (r: Result<(seq<byte>, seq<byte>)>)
    ensures r.Ok? ==> |r.value.0| + |r.value.1| < |s|
    ensures r.Ok? ==> r.value.0 + r.value.1 == s[|s| - |r.value.0| - |r.value.1|..]
  {
    var (n, rest) :- DecVarint32(s);
    if |rest| < n then Err(ParentTooShort) else Ok((rest[..n], rest[n..]))
  }

  function FromLittleEndian(b: seq<byte>): (v: nat) {
    if b == [] then 0 else b[0] + 256 * FromLittleEndian(b[1..])
  }

  // The inverse of zigzag: half the word, with all bits inverted when it is odd.
  function UnZigZag(v: nat): (i: int)
    requires v < U64
  {
    if v % 2 == 1 then ToS64(U64 - 1 - v / 2) else ToS64(v / 2)
  }

  function ToS32(v: nat): int {
    var w := v % U32;
    if w < 0x8000_0000 then w else w - U32
  }

  // The C string that the bytes b followed by a terminator denote.
  function CString(b: seq<byte>): (r: seq<byte>)
    ensures 0 !in r && |r| <= |b|
  {
    if b == [] || b[0] == 0 then [] else [b[0]] + CString(b[1..])
  }

  function Signed(f: Field, i: int): Result<Value> {
    if !IntSize(f.dataSize) then Err(InvalidDataSize)
    else if InSigned(f.dataSize, i) then Ok(IntV(i)) else Err(IntegerTooLarge)
  }

  function Unsigned(f: Field, i: int): Result<Value> {
    if !IntSize(f.dataSize) then Err(InvalidDataSize)
    else if InUnsigned(f.dataSize, i) then Ok(IntV(i)) else Err(IntegerTooLarge)
  }

  // The struct that a submessage is decoded into: array entries start from the defaults.
  function InitialSub(f: Field, cur: Value): (m: Msg)
    requires f.ptr.Fields?
    ensures |m| == |f.ptr.fields|
  {
    if !f.htype.Repeated? && cur.MsgV? && |cur.slots| == |f.ptr.fields| then cur.slots
    else DefaultMsg(f.ptr.fields)
  }

  // pb_dec_varint, pb_dec_uvarint and pb_dec_svarint.
  function DecInteger(f: Field, s: seq<byte>): (r: Result<(Value, seq<byte>)>)
    ensures r.Ok? ==> |r.value.1| < |s| && r.value.1 == s[|s| - |r.value.1|..]
  {
    var (v, rest) :- DecVarint64(s);
    var x :-
      if f.ltype.Uvarint? then Unsigned(f, v)
      else if f.ltype.Svarint? then Signed(f, UnZigZag(v))
      else Signed(f, if f.dataSize == 8 then ToS64(v) else ToS32(v));
    Ok((x, rest))
  }

  // pb_dec_fixed32 and pb_dec_fixed64.
  function DecFixed(n: nat, s: seq<byte>): (r: Result<(Value, seq<byte>)>)
    requires n > 0
    ensures r.Ok? ==> |r.value.1| < |s| && r.value.1 == s[|s| - |r.value.1|..]
  {
    var rest :- Drop(s, n);
    Ok((IntV(FromLittleEndian(s[..n])), rest))
  }

  // pb_dec_bytes, pb_dec_string and pb_dec_fixed_length_bytes.
  function DecString(f: Field, s: seq<byte>): (r: Result<(Value, seq<byte>)>)
    ensures r.Ok? ==> |r.value.1| < |s| && r.value.1 == s[|s| - |r.value.1|..]
  {
    var (n, rest) :- DecVarint32(s);
    var room :- StringRoom(f, n);
    if f.ltype.FixedLengthBytes? && n == 0 then Ok((BytesV(Zeros(f.dataSize)), rest))
    else
      var rest' :- Drop(rest, n);
      Ok((BytesV(if f.ltype.Str? then CString(rest[..n]) else rest[..n]), rest'))
  }

  // Whether n bytes fit the array of the field.
  function StringRoom(f: Field, n: nat): Result<()> {
    if f.ltype.Bytes? then
      if n + BYTES_HEADER > f.dataSize then Err(BytesOverflow) else Ok(())
    else if f.ltype.Str? then
      if n == 0xFFFF_FFFF then Err(SizeTooLarge)
      else if n + 1 > f.dataSize then Err(StringOverflow)
      else Ok(())
    else if n != 0 && n != f.dataSize then Err(IncorrectFixedLength)
    else Ok(())
  }

  // One field decoder of the PB_DECODERS table, on top of the current content cur.
  function DecValue(f: Field, s: seq<byte>, cur: Value): (r: Result<(Value, seq<byte>)>)
    ensures r.Ok? ==> |r.value.1| < |s| && r.value.1 == s[|s| - |r.value.1|..]
    decreases |s|, 1
  {
    match f.ltype
    case Varint => DecInteger(f, s)
    case Uvarint => DecInteger(f, s)
    case Svarint => DecInteger(f, s)
    case Fixed32 => DecFixed(4, s)
    case Fixed64 => DecFixed(8, s)
    case Submessage =>
      var (sub, rest) :- Window(s);
      if !f.ptr.Fields? then Err(InvalidDescriptor)
      else
        var m :- DecStruct(f.ptr.fields, sub, InitialSub(f, cur));
        Ok((MsgV(m), rest))
    case _ => DecString(f, s)
  }

  // The bytes a packable decoder leaves in the stream when it fails.
  function RestOnFailure(f: Field, s: seq<byte>): seq<byte> {
    if f.ltype.Fixed32? || f.ltype.Fixed64? then s
    else
      match DecVarint64(s)
      case Ok((_, rest)) => rest
      case Err(e) => if e == EndOfStream || |s| < 10 then [] else s[10..]
  }

  // The entries of a packed window, appended to those already in the array.
  function DecPacked(f: Field, s: seq<byte>, items: seq<Value>): (r: Result<seq<Value>>)
    decreases |s|, 2
  {
    if s == [] then Ok(items)
    else if |items| >= f.arraySize then Err(ArrayOverflow)
    else
      match DecValue(f, s, IntV(0))
      case Err(e) => if RestOnFailure(f, s) != [] then Err(ArrayOverflow) else Err(e)
      case Ok((v, rest)) => DecPacked(f, rest, items + [v])
  }

  function Items(slot: Slot): seq<Value> {
    if slot.Rep? then slot.items else []
  }

  function Content(slot: Slot): Value {
    if slot.Single? || slot.Flagged? || slot.OneofSlot? then slot.v else IntV(0)
  }

  // decode_static_field.
  function DecField(f: Field, wt: nat, s: seq<byte>, slot: Slot): (r: Result<(Slot, seq<byte>)>)
    ensures r.Ok? ==> |r.value.1| <= |s| && r.value.1 == s[|s| - |r.value.1|..]
    decreases |s|, 2
  {
    match f.htype
    case Required =>
      var (v, rest) :- DecValue(f, s, Content(slot));
      Ok((Single(v), rest))
    case Optional =>
      var (v, rest) :- DecValue(f, s, Content(slot));
      Ok((if f.sizeOffset != 0 then Flagged(true, v) else Single(v), rest))
    case Repeated =>
      var items := Items(slot);
      if wt == WT_STRING && Packable(f.ltype) then
        var (sub, rest) :- Window(s);
        var items' :- DecPacked(f, sub, items);
        Ok((Rep(items'), rest))
      else if |items| >= f.arraySize then Err(ArrayOverflow)
      else
        var (v, rest) :- DecValue(f, s, IntV(0));
        Ok((Rep(items + [v]), rest))
    case Oneof =>
      var cur := if f.ltype.Submessage? && f.ptr.Fields? then MsgV(DefaultMsg(f.ptr.fields)) else Content(slot);
      var (v, rest) :- DecValue(f, s, cur);
      Ok((OneofSlot(f.tag, v), rest))
  }

  datatype Loop = Loop(m: Msg, seen: set<nat>, rest: seq<byte>)

  // The while loop of pb_decode_noinit; seen collects the positions of decoded fields.
  function DecLoop(fs: seq<Field>, s: seq<byte>, m: Msg, seen: set<nat>): (r: Result<Loop>)
    requires |m| == |fs|
    ensures r.Ok? ==> |r.value.m| == |fs| && |r.value.rest| <= |s|
    decreases |s|, 3
  {
    match DecTag(s)
    case TagEof(rest) => Ok(Loop(m, seen, rest))
    case TagErr(e) => Err(e)
    case TagOk(wt, tag, rest) =>
      match FindField(fs, tag)
      case None =>
        // In an empty descriptor tag 0 finds the terminator, whose data size is 0.
        if fs == [] && tag == 0 then
          var _ :- DecVarint64(rest);
          Err(InvalidDataSize)
        else
          var rest' :- Skip(wt, rest);
          DecLoop(fs, rest', m, seen)
      case Some(k) =>
        var o := Owner(fs, k);
        var (slot, rest') :- DecField(fs[k], wt, rest, m[o]);
        DecLoop(fs, rest', m[o := slot], seen + {k})
  }

  // The number of required fields before position k.
  function RequiredBefore(fs: seq<Field>, k: nat): nat
    requires k <= |fs|
  {
    if k == 0 then 0
    else RequiredBefore(fs, k - 1) + if fs[k - 1].htype.Required? then 1 else 0
  }

  // One of the first 64 required fields was not decoded.
  predicate MissesRequired(fs: seq<Field>, seen: set<nat>) {
    exists k: nat | k < |fs| :: fs[k].htype.Required? && RequiredBefore(fs, k) < PB_MAX_REQUIRED_FIELDS && k !in seen
  }

  // pb_decode_noinit, with the bytes left unread.
  function DecNoinit(fs: seq<Field>, s: seq<byte>, m: Msg): (r: Result<(Msg, seq<byte>)>)
    requires |m| == |fs|
    ensures r.Ok? ==> |r.value.0| == |fs|
    decreases |s|, 4
  {
    var l :- DecLoop(fs, s, m, {});
    if MissesRequired(fs, l.seen) then Err(MissingRequired) else Ok((l.m, l.rest))
  }

  // A submessage: closing the substream skips what its decoder left.
  function DecStruct(fs: seq<Field>, s: seq<byte>, m: Msg): (r: Result<Msg>)
    requires |m| == |fs|
    ensures r.Ok? ==> |r.value| == |fs|
    decreases |s|, 5
  {
    var (m', rest) :- DecNoinit(fs, s, m);
    Ok(m')
  }

  // pb_decode.
  function Decode(fs: seq<Field>, s: seq<byte>): (r: Result<(Msg, seq<byte>)>)
    ensures r.Ok? ==> |r.value.0| == |fs|
  {
    DecNoinit(fs, s, DefaultMsg(fs))
  }
}
