// Forward compatibility: fields that the descriptor does not know change nothing.
module PbForward {
  import opened Bits
  import opened Results
  import opened PbWire
  import opened PbDescriptor
  import opened PbEncodeSpec
  import opened PbDecodeSpec
  import opened PbScalars
  import opened PbRoundTrip

  // A record on the wire: unknown to the descriptor, a scalar of the field at k, or a
  // submessage of the field at k that is itself a list of records.
  datatype Record =
    | Unknown(wt: nat, tag: nat, body: seq<byte>)
    | Known(k: nat, wt: nat, body: seq<byte>)
    | Nested(k: nat, records: seq<Record>)

  function Bytes1(fs: seq<Field>, r: Record): seq<byte>
    decreases r, 0
  {
    match r
    case Unknown(wt, tag, body) => EncTag(wt, tag) + body
    case Known(k, wt, body) => if k < |fs| then EncTag(wt, fs[k].tag) + body else []
    case Nested(k, rs) =>
      if k < |fs| && fs[k].ptr.Fields? then EncTag(WT_STRING, fs[k].tag) + Prefixed(BytesOf(fs[k].ptr.fields, rs)) else []
  }

  function BytesOf(fs: seq<Field>, rs: seq<Record>): seq<byte>
    decreases rs, 1
  {
    if rs == [] then [] else Bytes1(fs, rs[0]) + BytesOf(fs, rs[1..])
  }

  // The body is exactly one value of its wire type.
  predicate WholeValue(wt: nat, body: seq<byte>) {
    Skip(wt, body) == Ok([])
  }

  predicate RecordOk(fs: seq<Field>, r: Record)
    decreases r, 0
  {
    match r
    case Unknown(wt, tag, body) => wt < 8 && 0 < tag < 0x2000_0000 && FindField(fs, tag).None? && WholeValue(wt, body)
    case Known(k, wt, body) =>
      && k < |fs| && !fs[k].ltype.Submessage? && WholeValue(wt, body)
      && (wt == WireType(fs[k].ltype) || (wt == WT_STRING && fs[k].htype.Repeated? && Packable(fs[k].ltype)))
    case Nested(k, rs) =>
      && k < |fs| && fs[k].ltype.Submessage? && fs[k].ptr.Fields?
      && RecordsOk(fs[k].ptr.fields, rs) && |BytesOf(fs[k].ptr.fields, rs)| < U32
  }

  predicate RecordsOk(fs: seq<Field>, rs: seq<Record>)
    decreases rs, 1
  {
    rs == [] || (RecordOk(fs, rs[0]) && RecordsOk(fs, rs[1..]))
  }

  // The same records without the unknown ones, at every level.
  function Strip(rs: seq<Record>): seq<Record>
    decreases rs
  {
    if rs == [] then []
    else
      match rs[0]
      case Unknown(_, _, _) => Strip(rs[1..])
      case Known(_, _, _) => [rs[0]] + Strip(rs[1..])
      case Nested(k, sub) => [Nested(k, Strip(sub))] + Strip(rs[1..])
  }

  // ---------- reading stops at the end of a value ----------

  lemma {:induction false} SkipVarintLocal(s: seq<byte>, tail: seq<byte>)
    requires SkipVarint(s).Ok?
    ensures SkipVarint(s + tail) == Ok(SkipVarint(s).value + tail)
  {
    assert (s + tail)[1..] == s[1..] + tail;
    if s[0] >= 128 {
      SkipVarintLocal(s[1..], tail);
    }
  }

  lemma {:induction false} ReadVarint32Local(s: seq<byte>, tail: seq<byte>, bitpos: nat, acc: nat)
    requires ReadVarint32(s, bitpos, acc).Ok?
    ensures var (v, rest) := ReadVarint32(s, bitpos, acc).value;
            ReadVarint32(s + tail, bitpos, acc) == Ok((v, rest + tail))
    decreases |s|
  {
    hide Step32;
    assert (s + tail)[1..] == s[1..] + tail;
    if s[0] >= 128 {
      ReadVarint32Local(s[1..], tail, (bitpos + 7) % 256, Step32(bitpos, acc, s[0]));
    }
  }

  lemma Varint32Local(s: seq<byte>, tail: seq<byte>)
    requires DecVarint32(s).Ok?
    ensures var (v, rest) := DecVarint32(s).value;
            DecVarint32(s + tail) == Ok((v, rest + tail))
  {
    assert (s + tail)[1..] == s[1..] + tail;
    if s[0] >= 128 {
      ReadVarint32Local(s[1..], tail, 7, s[0] % 128);
    }
  }

  // A whole varint reads the same, or fails the same, whatever follows it.
  lemma {:induction false} ReadVarint64Local(s: seq<byte>, tail: seq<byte>, bitpos: nat, acc: nat)
    requires SkipVarint(s) == Ok([])
    ensures ReadVarint64(s + tail, bitpos, acc)
         == match ReadVarint64(s, bitpos, acc)
            case Ok((v, rest)) => Ok((v, tail))
            case Err(e) => Err(e)
    ensures ReadVarint64(s, bitpos, acc).Ok? ==> ReadVarint64(s, bitpos, acc).value.1 == []
    decreases |s|
  {
    hide Or, Shl;
    assert (s + tail)[1..] == s[1..] + tail;
    if bitpos < 64 && s[0] >= 128 {
      ReadVarint64Local(s[1..], tail, bitpos + 7, Or(acc, Shl(s[0] % 128, bitpos) % U64));
    }
  }

  lemma SkipLocal(wt: nat, body: seq<byte>, tail: seq<byte>)
    requires WholeValue(wt, body)
    ensures Skip(wt, body + tail) == Ok(tail)
  {
    if wt == WT_VARINT {
      SkipVarintLocal(body, tail);
      assert [] + tail == tail;
    } else if wt == WT_STRING {
      Varint32Local(body, tail);
      var (n, rest) := DecVarint32(body).value;
      assert rest[n..] == [] && |rest| == n;
      AppendSlices(rest, tail);
    } else {
      AppendSlices(body, tail);
    }
  }

  // A value decoder on a whole value: it consumes exactly the value or fails, whatever follows.
  ghost predicate Local(f: Field, body: seq<byte>, tail: seq<byte>, cur: Value) {
    && (DecValue(f, body, cur).Ok? ==> DecValue(f, body, cur).value.1 == [])
    && DecValue(f, body + tail, cur)
         == if DecValue(f, body, cur).Ok? then Ok((DecValue(f, body, cur).value.0, tail))
            else Err(DecValue(f, body, cur).error)
  }

  lemma IntLocal(f: Field, body: seq<byte>, tail: seq<byte>, cur: Value)
    requires f.ltype.Varint? || f.ltype.Uvarint? || f.ltype.Svarint?
    requires WholeValue(WT_VARINT, body)
    ensures Local(f, body, tail, cur)
  {
    hide ReadVarint64, SkipVarint, ToS32, ToS64, UnZigZag, Signed, Unsigned;
    ReadVarint64Local(body, tail, 0, 0);
  }

  lemma FixedLocal(f: Field, body: seq<byte>, tail: seq<byte>, cur: Value)
    requires f.ltype.Fixed32? || f.ltype.Fixed64?
    requires WholeValue(WireType(f.ltype), body)
    ensures Local(f, body, tail, cur)
  {
    hide FromLittleEndian;
    var n := if f.ltype.Fixed32? then 4 else 8;
    assert body[n..] == [] && |body| == n;
    assert body[..n] == body;
    AppendSlices(body, tail);
  }

  lemma StringLocal(f: Field, body: seq<byte>, tail: seq<byte>, cur: Value)
    requires f.ltype.Bytes? || f.ltype.Str? || f.ltype.FixedLengthBytes?
    requires WholeValue(WT_STRING, body)
    ensures Local(f, body, tail, cur)
  {
    hide DecVarint32, CString;
    Varint32Local(body, tail);
    var (n, rest) := DecVarint32(body).value;
    assert rest[n..] == [] && |rest| == n;
    assert rest[..n] == rest;
    AppendSlices(rest, tail);
    if n == 0 {
      assert rest == [] && rest + tail == tail;
    }
  }

  lemma ValueLocal(f: Field, body: seq<byte>, tail: seq<byte>, cur: Value)
    requires !f.ltype.Submessage? && WholeValue(WireType(f.ltype), body)
    ensures Local(f, body, tail, cur)
  {
    hide WholeValue, Local;
    match f.ltype
    case Varint => IntLocal(f, body, tail, cur);
    case Uvarint => IntLocal(f, body, tail, cur);
    case Svarint => IntLocal(f, body, tail, cur);
    case Fixed32 => FixedLocal(f, body, tail, cur);
    case Fixed64 => FixedLocal(f, body, tail, cur);
    case Bytes => StringLocal(f, body, tail, cur);
    case Str => StringLocal(f, body, tail, cur);
    case FixedLengthBytes => StringLocal(f, body, tail, cur);
  }

  lemma WindowLocal(body: seq<byte>, tail: seq<byte>)
    requires WholeValue(WT_STRING, body)
    ensures Window(body).Ok? && Window(body).value.1 == []
    ensures Window(body + tail) == Ok((Window(body).value.0, tail))
  {
    hide DecVarint32;
    Varint32Local(body, tail);
    var (n, rest) := DecVarint32(body).value;
    assert rest[n..] == [] && |rest| == n;
    assert rest[..n] == rest;
    AppendSlices(rest, tail);
  }

  // Decoding the body gives the same with a tail, and leaves the tail.
  predicate FieldStops(f: Field, wt: nat, body: seq<byte>, tail: seq<byte>, slot: Slot) {
    var r := DecField(f, wt, body, slot);
    && (r.Ok? ==> r.value.1 == [])
    && DecField(f, wt, body + tail, slot) == if r.Ok? then Ok((r.value.0, tail)) else Err(r.error)
  }

  lemma SingleLocal(f: Field, wt: nat, body: seq<byte>, tail: seq<byte>, slot: Slot)
    requires !f.ltype.Submessage? && !f.htype.Repeated? && Local(f, body, tail, Content(slot))
    ensures FieldStops(f, wt, body, tail, slot)
  {
    hide DecValue;
  }

  lemma ItemLocal(f: Field, wt: nat, body: seq<byte>, tail: seq<byte>, slot: Slot)
    requires f.htype.Repeated? && !(wt == WT_STRING && Packable(f.ltype)) && Local(f, body, tail, IntV(0))
    ensures FieldStops(f, wt, body, tail, slot)
  {
    hide DecValue;
  }

  lemma PackedLocal(f: Field, body: seq<byte>, tail: seq<byte>, slot: Slot)
    requires f.htype.Repeated? && Packable(f.ltype) && Window(body).Ok? && Window(body).value.1 == []
    requires Window(body + tail) == Ok((Window(body).value.0, tail))
    ensures FieldStops(f, WT_STRING, body, tail, slot)
  {
    hide DecPacked, Window;
  }

  // The decoding of a known scalar field does not look past its record.
  lemma FieldLocal(f: Field, wt: nat, body: seq<byte>, tail: seq<byte>, slot: Slot)
    requires !f.ltype.Submessage? && WholeValue(wt, body)
    requires wt == WireType(f.ltype) || (wt == WT_STRING && f.htype.Repeated? && Packable(f.ltype))
    ensures FieldStops(f, wt, body, tail, slot)
  {
    hide DecField, Local, Window, WholeValue, FieldStops;
    if !f.htype.Repeated? {
      ValueLocal(f, body, tail, Content(slot));
      SingleLocal(f, wt, body, tail, slot);
    } else if wt == WT_STRING && Packable(f.ltype) {
      WindowLocal(body, tail);
      PackedLocal(f, body, tail, slot);
    } else {
      ValueLocal(f, body, tail, IntV(0));
      ItemLocal(f, wt, body, tail, slot);
    }
  }

  // ---------- the theorem ----------

  lemma UnknownStep(fs: seq<Field>, wt: nat, tag: nat, body: seq<byte>, rest: seq<byte>, m: Msg, seen: set<nat>)
    requires |m| == |fs| && RecordOk(fs, Unknown(wt, tag, body))
    ensures DecLoop(fs, (EncTag(wt, tag) + body) + rest, m, seen) == DecLoop(fs, rest, m, seen)
  {
    hide EncTag, Skip, DecTag, WholeValue, FindField;
    assert (EncTag(wt, tag) + body) + rest == EncTag(wt, tag) + (body + rest);
    TagRoundTrip(wt, tag, body + rest);
    SkipLocal(wt, body, rest);
  }

  lemma KnownStep(fs: seq<Field>, k: nat, wt: nat, body: seq<byte>, rest: seq<byte>, m: Msg, seen: set<nat>)
    requires DescriptorOk(fs) && |m| == |fs| && RecordOk(fs, Known(k, wt, body)) && wt < 8
    ensures var d := DecField(fs[k], wt, body, m[Owner(fs, k)]);
            DecLoop(fs, (EncTag(wt, fs[k].tag) + body) + rest, m, seen)
              == if d.Ok? then DecLoop(fs, rest, m[Owner(fs, k) := d.value.0], seen + {k}) else Err(d.error)
  {
    hide EncTag, DecField, DecLoop, WholeValue, FieldOk, Owner;
    assert (EncTag(wt, fs[k].tag) + body) + rest == EncTag(wt, fs[k].tag) + (body + rest);
    RecordStep(fs, k, wt, body + rest, m, seen);
    FieldLocal(fs[k], wt, body, rest, m[Owner(fs, k)]);
  }

  // What decoding the window sub as a submessage of the field f puts in the slot.
  function StoreSub(f: Field, sub: seq<byte>, slot: Slot): Result<Slot>
    requires f.ptr.Fields?
  {
    if f.htype.Repeated? && |Items(slot)| >= f.arraySize then Err(ArrayOverflow)
    else
      var m :- DecStruct(f.ptr.fields, sub, InitialSub(f, Start(f, slot)));
      Ok(Stored(f, MsgV(m), slot))
  }

  lemma SubFieldLocal(f: Field, sub: seq<byte>, rest: seq<byte>, slot: Slot)
    requires f.ltype.Submessage? && f.ptr.Fields? && |sub| < U32
    ensures DecField(f, WT_STRING, Prefixed(sub) + rest, slot)
         == if StoreSub(f, sub, slot).Ok? then Ok((StoreSub(f, sub, slot).value, rest)) else Err(StoreSub(f, sub, slot).error)
  {
    hide Prefixed, Window, DecStruct, InitialSub, DefaultMsg;
    PrefixedRoundTrip(sub, rest);
    if !(f.htype.Repeated? && |Items(slot)| >= f.arraySize) {
      DecFieldStores(f, WT_STRING, Prefixed(sub) + rest, slot);
      hide DecField;
    }
  }

  lemma NestedStep(fs: seq<Field>, k: nat, sub: seq<byte>, rest: seq<byte>, m: Msg, seen: set<nat>)
    requires DescriptorOk(fs) && |m| == |fs| && k < |fs|
    requires fs[k].ltype.Submessage? && fs[k].ptr.Fields? && |sub| < U32
    ensures var d := StoreSub(fs[k], sub, m[Owner(fs, k)]);
            DecLoop(fs, (EncTag(WT_STRING, fs[k].tag) + Prefixed(sub)) + rest, m, seen)
              == if d.Ok? then DecLoop(fs, rest, m[Owner(fs, k) := d.value], seen + {k}) else Err(d.error)
  {
    hide EncTag, Prefixed, DecField, DecLoop, StoreSub, FieldOk, Owner;
    var t := EncTag(WT_STRING, fs[k].tag);
    assert (t + Prefixed(sub)) + rest == t + (Prefixed(sub) + rest);
    RecordStep(fs, k, WT_STRING, Prefixed(sub) + rest, m, seen);
    SubFieldLocal(fs[k], sub, rest, m[Owner(fs, k)]);
  }

  lemma {:induction false} StripShrinks(fs: seq<Field>, rs: seq<Record>)
    requires RecordsOk(fs, rs)
    ensures |BytesOf(fs, Strip(rs))| <= |BytesOf(fs, rs)|
    ensures RecordsOk(fs, Strip(rs))
    decreases rs
  {
    if rs != [] {
      hide EncVarint, WholeValue, WireType, FindField, DescriptorOk;
      StripShrinks(fs, rs[1..]);
      match rs[0]
      case Unknown(_, _, _) =>
      case Known(k, wt, body) =>
        assert ([rs[0]] + Strip(rs[1..]))[1..] == Strip(rs[1..]);
      case Nested(k, sub) =>
        var x := Nested(k, Strip(sub));
        StripShrinks(fs[k].ptr.fields, sub);
        PrefixedMonotone(BytesOf(fs[k].ptr.fields, Strip(sub)), BytesOf(fs[k].ptr.fields, sub));
        assert ([x] + Strip(rs[1..]))[1..] == Strip(rs[1..]);
    }
  }

  lemma {:induction false} EncVarintMonotone(a: nat, b: nat)
    requires a <= b
    ensures |EncVarint(a)| <= |EncVarint(b)|
    decreases b
  {
    if a > 0x7F {
      EncVarintMonotone(a / 128, b / 128);
    }
  }

  lemma PrefixedMonotone(a: seq<byte>, b: seq<byte>)
    requires |a| <= |b|
    ensures |Prefixed(a)| <= |Prefixed(b)|
  {
    EncVarintMonotone(|a|, |b|);
  }

  // The decoder gives the same result, or the same error, with and without the unknown fields.
  lemma {:induction false} UnknownFieldsIgnored(fs: seq<Field>, rs: seq<Record>, m: Msg, seen: set<nat>)
    requires DescriptorOk(fs) && |m| == |fs| && RecordsOk(fs, rs)
    ensures DecLoop(fs, BytesOf(fs, rs), m, seen) == DecLoop(fs, BytesOf(fs, Strip(rs)), m, seen)
    decreases rs
  {
    if rs != [] {
      hide DecLoop, EncTag, Prefixed, DecField, DecStruct, FieldOk, Owner, WholeValue, FindField, StoreSub, WireType;
      var rest := BytesOf(fs, rs[1..]);
      match rs[0]
      case Unknown(wt, tag, body) =>
        UnknownStep(fs, wt, tag, body, rest, m, seen);
        UnknownFieldsIgnored(fs, rs[1..], m, seen);
      case Known(k, wt, body) =>
        assert wt < 8 by { KnownWireType(fs, rs[0]); }
        var rest' := BytesOf(fs, Strip(rs[1..]));
        StripHead(fs, rs[0], Strip(rs[1..]));
        KnownStep(fs, k, wt, body, rest, m, seen);
        KnownStep(fs, k, wt, body, rest', m, seen);
        var d := DecField(fs[k], wt, body, m[Owner(fs, k)]);
        if d.Ok? {
          UnknownFieldsIgnored(fs, rs[1..], m[Owner(fs, k) := d.value.0], seen + {k});
        }
      case Nested(k, sub) =>
        var rest' := BytesOf(fs, Strip(rs[1..]));
        var a, b := BytesOf(fs[k].ptr.fields, sub), BytesOf(fs[k].ptr.fields, Strip(sub));
        StripShrinks(fs[k].ptr.fields, sub);
        StripHead(fs, Nested(k, Strip(sub)), Strip(rs[1..]));
        NestedStep(fs, k, a, rest, m, seen);
        NestedStep(fs, k, b, rest', m, seen);
        var slot := m[Owner(fs, k)];
        NestedSame(fs, rs[0], slot);
        var d := StoreSub(fs[k], a, slot);
        if d.Ok? {
          UnknownFieldsIgnored(fs, rs[1..], m[Owner(fs, k) := d.value], seen + {k});
        }
    }
  }

  lemma KnownWireType(fs: seq<Field>, r: Record)
    requires r.Known? && RecordOk(fs, r)
    ensures r.wt < 8
  {
  }

  lemma StripHead(fs: seq<Field>, r: Record, rs: seq<Record>)
    ensures BytesOf(fs, [r] + rs) == Bytes1(fs, r) + BytesOf(fs, rs)
  {
    assert ([r] + rs)[1..] == rs;
  }

  lemma {:induction false} NestedSame(fs: seq<Field>, r: Record, slot: Slot)
    requires DescriptorOk(fs) && r.Nested? && RecordOk(fs, r)
    ensures StoreSub(fs[r.k], BytesOf(fs[r.k].ptr.fields, r.records), slot)
         == StoreSub(fs[r.k], BytesOf(fs[r.k].ptr.fields, Strip(r.records)), slot)
    decreases r, 1
  {
    hide DecLoop, BytesOf, Strip, InitialSub, StoreSub, Start, WireType, WholeValue;
    var f := fs[r.k];
    assert FieldOk(f);
    UnknownFieldsIgnored(f.ptr.fields, r.records, InitialSub(f, Start(f, slot)), {});
    StoreSubDepends(f, BytesOf(f.ptr.fields, r.records), BytesOf(f.ptr.fields, Strip(r.records)), slot);
  }

  lemma StoreSubDepends(f: Field, a: seq<byte>, b: seq<byte>, slot: Slot)
    requires f.ptr.Fields?
    requires DecLoop(f.ptr.fields, a, InitialSub(f, Start(f, slot)), {})
          == DecLoop(f.ptr.fields, b, InitialSub(f, Start(f, slot)), {})
    ensures StoreSub(f, a, slot) == StoreSub(f, b, slot)
  {
    hide DecLoop, InitialSub, Start, Stored, MissesRequired;
    var fs, m := f.ptr.fields, InitialSub(f, Start(f, slot));
    assert DecNoinit(fs, a, m) == DecNoinit(fs, b, m);
    assert DecStruct(fs, a, m) == DecStruct(fs, b, m);
  }

  // ---------- the encoder's output as records ----------

  function ValueRecord(fs: seq<Field>, k: nat, v: Value): Record
    requires k < |fs| && ValueOk(fs[k], v) && EncValue(fs[k], v).Ok?
    decreases v, 0
  {
    if fs[k].ltype.Submessage? then Nested(k, RecordsFrom(fs[k].ptr.fields, v.slots, 0))
    else Known(k, WireType(fs[k].ltype), EncValue(fs[k], v).value)
  }

  function ItemRecords(fs: seq<Field>, k: nat, items: seq<Value>): seq<Record>
    requires k < |fs| && forall x | x in items :: ValueOk(fs[k], x)
    requires EncUnpacked(fs[k], items).Ok?
    decreases items, 1
  {
    if items == [] then []
    else
      assert EncTagged(fs[k], items[0]).Ok? && EncUnpacked(fs[k], items[1..]).Ok?;
      [ValueRecord(fs, k, items[0])] + ItemRecords(fs, k, items[1..])
  }

  function FieldRecords(fs: seq<Field>, k: nat, s: Slot): seq<Record>
    requires k < |fs| && Holds(fs[k], s) && EncField(fs[k], s).Ok?
    decreases s, 2
  {
    if !Present(fs[k], s) then []
    else if !fs[k].htype.Repeated? then
      assert EncTagged(fs[k], s.v).Ok?;
      [ValueRecord(fs, k, s.v)]
    else
      assert EncArray(fs[k], s.items).Ok?;
      if Packable(fs[k].ltype) then [Known(k, WT_STRING, Prefixed(EncPacked(fs[k], s.items).value))]
      else ItemRecords(fs, k, s.items)
  }

  function RecordsFrom(fs: seq<Field>, m: Msg, k: nat): seq<Record>
    requires MsgOk(fs, m) && k <= |fs| && EncFrom(fs, m, k).Ok?
    decreases m, 3, |fs| - k
  {
    if k == |fs| then []
    else
      OwnerHolds(fs, k, m);
      FieldRecords(fs, k, m[Owner(fs, k)]) + RecordsFrom(fs, m, k + 1)
  }

  lemma {:induction false} AppendStrip(a: seq<Record>, b: seq<Record>)
    ensures Strip(a + b) == Strip(a) + Strip(b)
  {
    if a == [] {
      assert a + b == b;
    } else {
      assert (a + b)[1..] == a[1..] + b;
      AppendStrip(a[1..], b);
    }
  }

  lemma {:induction false} Append(fs: seq<Field>, a: seq<Record>, b: seq<Record>)
    ensures BytesOf(fs, a + b) == BytesOf(fs, a) + BytesOf(fs, b)
    ensures RecordsOk(fs, a) && RecordsOk(fs, b) ==> RecordsOk(fs, a + b)
    ensures Strip(a + b) == Strip(a) + Strip(b)
  {
    hide Bytes1, RecordOk, Strip;
    AppendStrip(a, b);
    if a == [] {
      assert a + b == b;
    } else {
      assert (a + b)[1..] == a[1..] + b;
      Append(fs, a[1..], b);
    }
  }

  lemma Single1(fs: seq<Field>, r: Record)
    requires RecordOk(fs, r)
    ensures BytesOf(fs, [r]) == Bytes1(fs, r) && RecordsOk(fs, [r])
    ensures r.Known? || (r.Nested? && Strip(r.records) == r.records) ==> Strip([r]) == [r]
  {
    hide Bytes1, RecordOk;
    assert [r][1..] == [];
  }

  lemma {:induction false} EncVarintWhole(v: nat)
    ensures SkipVarint(EncVarint(v)) == Ok([])
    decreases v
  {
    if v > 0x7F {
      EncVarintWhole(v / 128);
      assert EncVarint(v)[1..] == EncVarint(v / 128);
    }
  }

  lemma PrefixedWhole(b: seq<byte>)
    requires |b| < U32
    ensures WholeValue(WT_STRING, Prefixed(b))
  {
    hide EncVarint, DecVarint32;
    Varint32RoundTrip(|b|, b);
  }

  // An encoded scalar is one whole value of its wire type.
  lemma ScalarWhole(f: Field, v: Value)
    requires !f.ltype.Submessage? && ValueOk(f, v) && EncValue(f, v).Ok? && ValueShort(f, v)
    ensures WholeValue(WireType(f.ltype), EncValue(f, v).value)
  {
    hide EncVarint, Prefixed, SkipVarint, LittleEndian, ZigZag, ToU64;
    match f.ltype
    case Varint => EncVarintWhole(ToU64(v.i));
    case Uvarint => EncVarintWhole(v.i);
    case Svarint => EncVarintWhole(ZigZag(v.i));
    case Fixed32 =>
    case Fixed64 =>
    case Bytes => PrefixedWhole(v.b);
    case Str => PrefixedWhole(v.b);
    case FixedLengthBytes => PrefixedWhole(v.b);
  }

  // Records rs are well formed, free of unknown fields, and serialise to b.
  predicate Spells(fs: seq<Field>, rs: seq<Record>, b: seq<byte>) {
    RecordsOk(fs, rs) && Strip(rs) == rs && BytesOf(fs, rs) == b
  }

  lemma SpellsAppend(fs: seq<Field>, a: seq<Record>, x: seq<byte>, b: seq<Record>, y: seq<byte>)
    requires Spells(fs, a, x) && Spells(fs, b, y)
    ensures Spells(fs, a + b, x + y)
  {
    Append(fs, a, b);
  }

  lemma {:induction false} ValueSpelled(fs: seq<Field>, k: nat, v: Value)
    requires DescriptorOk(fs) && k < |fs| && ValueOk(fs[k], v) && EncTagged(fs[k], v).Ok?
    requires ValueShort(fs[k], v)
    ensures Spells(fs, [ValueRecord(fs, k, v)], EncTagged(fs[k], v).value)
    decreases v, 0
  {
    var f := fs[k];
    assert FieldOk(f);
    if f.ltype.Submessage? {
      var sub := EncFrom(f.ptr.fields, v.slots, 0).value;
      MessageSpelled(f.ptr.fields, v.slots, 0);
      hide EncFrom, Prefixed, EncTag;
      Single1(fs, ValueRecord(fs, k, v));
    } else {
      hide EncTag, WholeValue;
      ScalarWhole(f, v);
      Single1(fs, ValueRecord(fs, k, v));
    }
  }

  lemma {:induction false} ItemsSpelled(fs: seq<Field>, k: nat, items: seq<Value>)
    requires DescriptorOk(fs) && k < |fs| && forall x | x in items :: ValueOk(fs[k], x)
    requires EncUnpacked(fs[k], items).Ok? && ItemsShort(fs[k], items)
    ensures Spells(fs, ItemRecords(fs, k, items), EncUnpacked(fs[k], items).value)
    decreases items, 1
  {
    if items != [] {
      hide Spells, EncTagged, ValueRecord, FieldOk, ValueShort;
      ValueSpelled(fs, k, items[0]);
      ItemsSpelled(fs, k, items[1..]);
      SpellsAppend(fs, [ValueRecord(fs, k, items[0])], EncTagged(fs[k], items[0]).value,
                   ItemRecords(fs, k, items[1..]), EncUnpacked(fs[k], items[1..]).value);
    }
  }

  lemma PackedSpelled(fs: seq<Field>, k: nat, items: seq<Value>)
    requires DescriptorOk(fs) && k < |fs| && fs[k].htype.Repeated? && Packable(fs[k].ltype)
    requires items != [] && forall x | x in items :: ValueOk(fs[k], x)
    requires EncArray(fs[k], items).Ok? && ArrayShort(fs[k], items)
    ensures Spells(fs, [Known(k, WT_STRING, Prefixed(EncPacked(fs[k], items).value))], EncArray(fs[k], items).value)
  {
    hide EncTag, Prefixed, EncPacked, WholeValue, FieldOk;
    var data := EncPacked(fs[k], items).value;
    PrefixedWhole(data);
    Single1(fs, Known(k, WT_STRING, Prefixed(data)));
  }

  lemma {:induction false} FieldSpelled(fs: seq<Field>, k: nat, s: Slot)
    requires DescriptorOk(fs) && k < |fs| && Holds(fs[k], s)
    requires EncField(fs[k], s).Ok? && FieldShort(fs[k], s)
    ensures Spells(fs, FieldRecords(fs, k, s), EncField(fs[k], s).value)
    decreases s, 2
  {
    hide EncTagged, EncPacked, FieldOk, ValueRecord, ItemRecords, ValueShort, ItemsShort;
    if !Present(fs[k], s) {
      AbsentField(fs[k], s);
    } else {
      hide Spells;
      if !fs[k].htype.Repeated? {
        assert EncField(fs[k], s) == EncTagged(fs[k], s.v);
        ValueSpelled(fs, k, s.v);
      } else if Packable(fs[k].ltype) {
        PackedSpelled(fs, k, s.items);
      } else {
        ItemsSpelled(fs, k, s.items);
      }
    }
  }

  // What the encoder writes is a list of well-formed records of known fields.
  lemma {:induction false} MessageSpelled(fs: seq<Field>, m: Msg, k: nat)
    requires DescriptorOk(fs) && MsgOk(fs, m) && k <= |fs|
    requires EncFrom(fs, m, k).Ok? && MsgShort(fs, m, k)
    ensures Spells(fs, RecordsFrom(fs, m, k), EncFrom(fs, m, k).value)
    decreases m, 3, |fs| - k
  {
    if k == |fs| {
      assert EncFrom(fs, m, k).value == [] && RecordsFrom(fs, m, k) == [];
    } else {
      hide Spells, EncField, FieldRecords, FieldOk, Owner, FieldShort;
      OwnerHolds(fs, k, m);
      var s := m[Owner(fs, k)];
      FieldSpelled(fs, k, s);
      MessageSpelled(fs, m, k + 1);
      SpellsAppend(fs, FieldRecords(fs, k, s), EncField(fs[k], s).value, RecordsFrom(fs, m, k + 1), EncFrom(fs, m, k + 1).value);
    }
  }

  // Unknown fields inserted anywhere between the fields of an encoded message, at any nesting
  // level, do not change what is decoded.
  lemma ForwardCompatible(fs: seq<Field>, m: Msg, rs: seq<Record>)
    requires DescriptorOk(fs) && MsgOk(fs, m) && EncMsg(fs, m).Ok? && MsgShort(fs, m, 0)
    requires RecordsOk(fs, rs) && Strip(rs) == RecordsFrom(fs, m, 0)
    ensures Decode(fs, BytesOf(fs, rs)) == Decode(fs, EncMsg(fs, m).value)
    ensures MsgFits(fs, m, 0) ==> Decode(fs, BytesOf(fs, rs)) == Ok((NormMsg(fs, m), []))
  {
    hide DecLoop, BytesOf, RecordsFrom, EncFrom, MsgFits, MsgShort, NormMsg, DefaultMsg;
    UnknownFieldsIgnored(fs, rs, DefaultMsg(fs), {});
    MessageSpelled(fs, m, 0);
    MsgDecodes(fs, m);
  }
}
