// Decoding what the encoder wrote gives the message back.
module PbRoundTrip {
  import opened Bits
  import opened Results
  import opened PbWire
  import opened PbDescriptor
  import opened PbEncodeSpec
  import opened PbDecodeSpec
  import opened PbScalars

  // ---------- the message that comes back ----------

  // The member of the oneof stored at o that which_ selects.
  function Member(fs: seq<Field>, o: nat, which: nat): (r: Option<nat>)
    ensures r.Some? ==> r.value < |fs| && fs[r.value].tag == which && Owner(fs, r.value) == o
  {
    match FindField(fs, which)
    case Some(j) => if Owner(fs, j) == o then Some(j) else None
    case None => None
  }

  function NormVal(f: Field, v: Value): Value
    requires ValueOk(f, v)
    decreases v, 0
  {
    if f.ltype.Submessage? then MsgV(NormMsg(f.ptr.fields, v.slots)) else v
  }

  function NormItems(f: Field, items: seq<Value>): (r: seq<Value>)
    requires forall x | x in items :: ValueOk(f, x)
    ensures |r| == |items| && forall i | 0 <= i < |r| :: r[i] == NormVal(f, items[i])
    decreases items, 1
  {
    seq(|items|, i requires 0 <= i < |items| => NormVal(f, items[i]))
  }

  // Unset optionals, omitted zero values and unset unions come back as their defaults.
  function NormSlot(fs: seq<Field>, k: nat, s: Slot): Slot
    requires k < |fs| && SlotOk(fs, k, s)
    decreases s, 2
  {
    var f := fs[k];
    if Continues(fs, k) then Shared
    else
      match f.htype
      case Required => Single(NormVal(f, s.v))
      case Optional =>
        if f.sizeOffset != 0 then
          if s.has then Flagged(true, NormVal(f, s.v)) else Flagged(false, DefaultVal(f))
        else
          if ValueIsZero(f, s.v) then Single(DefaultVal(f)) else Single(NormVal(f, s.v))
      case Repeated => Rep(NormItems(f, s.items))
      case Oneof =>
        match Member(fs, k, s.which)
        case Some(j) => OneofSlot(s.which, NormVal(fs[j], s.v))
        case None => OneofSlot(0, IntV(0))
  }

  function NormMsg(fs: seq<Field>, m: Msg): (r: Msg)
    requires MsgOk(fs, m)
    ensures |r| == |fs| && forall k | 0 <= k < |fs| :: r[k] == NormSlot(fs, k, m[k])
    decreases m, 3
  {
    seq(|fs|, k requires 0 <= k < |fs| => NormSlot(fs, k, m[k]))
  }

  // ---------- the guard of the string branch ----------

  // Every string that is written leaves room for its terminator.
  predicate ValueFits(f: Field, v: Value)
    requires ValueOk(f, v)
    decreases v, 0
  {
    (f.ltype.Str? ==> |v.b| < f.dataSize)
    && (f.ltype.Submessage? ==> MsgFits(f.ptr.fields, v.slots, 0))
  }

  predicate ItemsFit(f: Field, items: seq<Value>)
    requires forall x | x in items :: ValueOk(f, x)
    decreases items, 1
  {
    items == [] || (ValueFits(f, items[0]) && ItemsFit(f, items[1..]))
  }

  predicate FieldFits(f: Field, s: Slot)
    requires Holds(f, s)
    decreases s, 2
  {
    match f.htype
    case Required => ValueFits(f, s.v)
    case Optional =>
      if f.sizeOffset != 0 then s.has ==> ValueFits(f, s.v) else !ValueIsZero(f, s.v) ==> ValueFits(f, s.v)
    case Repeated => ItemsFit(f, s.items)
    case Oneof => s.which == f.tag ==> ValueFits(f, s.v)
  }

  predicate MsgFits(fs: seq<Field>, m: Msg, k: nat)
    requires MsgOk(fs, m) && k <= |fs|
    decreases m, 3, |fs| - k
  {
    k == |fs| || (
      OwnerHolds(fs, k, m);
      FieldFits(fs[k], m[Owner(fs, k)]) && MsgFits(fs, m, k + 1))
  }

  // ---------- the guard of the length prefixes ----------

  // Every length prefix that is written is below 2^32, and that of a string leaves room for its
  // terminator below it.
  predicate ValueShort(f: Field, v: Value)
    requires ValueOk(f, v)
    decreases v, 0
  {
    match f.ltype
    case Bytes => |v.b| < U32
    case FixedLengthBytes => |v.b| < U32
    case Str => |v.b| < U32 - 1
    case Submessage => Below32(EncFrom(f.ptr.fields, v.slots, 0)) && MsgShort(f.ptr.fields, v.slots, 0)
    case _ => true
  }

  predicate Below32(enc: Result<seq<byte>>) {
    enc.Ok? ==> |enc.value| < U32
  }

  predicate ItemsShort(f: Field, items: seq<Value>)
    requires forall x | x in items :: ValueOk(f, x)
    decreases items, 1
  {
    items == [] || (ValueShort(f, items[0]) && ItemsShort(f, items[1..]))
  }

  predicate ArrayShort(f: Field, items: seq<Value>)
    requires forall x | x in items :: ValueOk(f, x)
    decreases items, 2
  {
    if Packable(f.ltype) then Below32(EncPacked(f, items)) else ItemsShort(f, items)
  }

  predicate FieldShort(f: Field, s: Slot)
    requires Holds(f, s)
    decreases s, 3
  {
    match f.htype
    case Required => ValueShort(f, s.v)
    case Optional =>
      if f.sizeOffset != 0 then s.has ==> ValueShort(f, s.v) else !ValueIsZero(f, s.v) ==> ValueShort(f, s.v)
    case Repeated => ArrayShort(f, s.items)
    case Oneof => s.which == f.tag ==> ValueShort(f, s.v)
  }

  predicate MsgShort(fs: seq<Field>, m: Msg, k: nat)
    requires MsgOk(fs, m) && k <= |fs|
    decreases m, 4, |fs| - k
  {
    k == |fs| || (
      OwnerHolds(fs, k, m);
      FieldShort(fs[k], m[Owner(fs, k)]) && MsgShort(fs, m, k + 1))
  }

  // In particular, an encoding of fewer than 2^32 bytes has no longer prefix.
  lemma {:induction false} ShortValue(f: Field, v: Value)
    requires ValueOk(f, v) && EncValue(f, v).Ok? && |EncValue(f, v).value| < U32
    ensures ValueShort(f, v)
    decreases v, 0
  {
    match f.ltype {
      case Bytes => PrefixedLength(v.b);
      case FixedLengthBytes => PrefixedLength(v.b);
      case Str => PrefixedLength(v.b);
      case Submessage =>
        PrefixedLength(EncFrom(f.ptr.fields, v.slots, 0).value);
        ShortMsg(f.ptr.fields, v.slots, 0);
      case _ =>
    }
  }

  lemma {:induction false} ShortItems(f: Field, items: seq<Value>)
    requires forall x | x in items :: ValueOk(f, x)
    requires EncUnpacked(f, items).Ok? && |EncUnpacked(f, items).value| < U32
    ensures ItemsShort(f, items)
    decreases items, 1
  {
    hide EncValue, ValueShort, ValueOk;
    if items != [] {
      ShortValue(f, items[0]);
      ShortItems(f, items[1..]);
    }
  }

  lemma {:induction false} ShortField(f: Field, s: Slot)
    requires Holds(f, s) && EncField(f, s).Ok? && |EncField(f, s).value| < U32
    ensures FieldShort(f, s)
    decreases s, 3
  {
    hide EncValue, ValueShort, ValueOk;
    if f.htype.Repeated? {
      if Packable(f.ltype) {
        ShortPacked(f, s.items);
      } else if s.items != [] {
        ShortItems(f, s.items);
      }
    } else if Present(f, s) {
      ShortValue(f, s.v);
    }
  }

  lemma ShortPacked(f: Field, items: seq<Value>)
    requires Packable(f.ltype) && forall x | x in items :: ValueOk(f, x)
    requires EncArray(f, items).Ok? && |EncArray(f, items).value| < U32
    ensures Below32(EncPacked(f, items))
  {
    hide Prefixed, EncTag;
    if items != [] {
      PrefixedLength(EncPacked(f, items).value);
    }
  }

  lemma {:induction false} ShortMsg(fs: seq<Field>, m: Msg, k: nat)
    requires MsgOk(fs, m) && k <= |fs| && EncFrom(fs, m, k).Ok? && |EncFrom(fs, m, k).value| < U32
    ensures MsgShort(fs, m, k)
    decreases m, 4, |fs| - k
  {
    hide EncField, FieldShort, Holds;
    if k < |fs| {
      OwnerHolds(fs, k, m);
      ShortField(fs[k], m[Owner(fs, k)]);
      ShortMsg(fs, m, k + 1);
    }
  }

  // ---------- values ----------

  ghost predicate Decodes(f: Field, v: Value, tail: seq<byte>, cur: Value)
    requires ValueOk(f, v) && EncValue(f, v).Ok?
  {
    DecValue(f, EncValue(f, v).value + tail, cur)
      == if ValueFits(f, v) then Ok((NormVal(f, v), tail)) else Err(StringOverflow)
  }

  lemma IntDecodes(f: Field, v: Value, tail: seq<byte>, cur: Value)
    requires f.ltype.Varint? || f.ltype.Uvarint? || f.ltype.Svarint?
    requires ValueOk(f, v) && EncValue(f, v).Ok?
    ensures Decodes(f, v, tail, cur)
  {
    hide EncVarint, DecVarint64, ZigZag, UnZigZag, ToS32, ToS64;
    match f.ltype
    case Varint =>
      Varint64RoundTrip(ToU64(v.i), tail);
      SignedRoundTrip(f.dataSize, v.i);
    case Uvarint =>
      Varint64RoundTrip(v.i, tail);
    case Svarint =>
      ZigZagRoundTrip(v.i);
      Varint64RoundTrip(ZigZag(v.i), tail);
  }

  lemma FixedDecodes(f: Field, v: Value, tail: seq<byte>, cur: Value)
    requires f.ltype.Fixed32? || f.ltype.Fixed64?
    requires ValueOk(f, v) && EncValue(f, v).Ok?
    ensures Decodes(f, v, tail, cur)
  {
    hide FromLittleEndian, LittleEndian;
    FixedRoundTrip(v.i, if f.ltype.Fixed32? then 4 else 8, tail);
  }

  lemma PrefixedLength(b: seq<byte>)
    ensures |Prefixed(b)| > |b|
  {
  }

  lemma BytesDecode(f: Field, v: Value, tail: seq<byte>, cur: Value)
    requires f.ltype.Bytes?
    requires ValueOk(f, v) && EncValue(f, v).Ok? && |v.b| < U32
    ensures Decodes(f, v, tail, cur)
  {
    hide DecVarint32, Prefixed;
    PrefixedRoundTrip(v.b, tail);
    AppendSlices(v.b, tail);
  }

  lemma StringDecodes(f: Field, v: Value, tail: seq<byte>, cur: Value)
    requires f.ltype.Str?
    requires ValueOk(f, v) && EncValue(f, v).Ok? && |v.b| < U32 - 1
    ensures Decodes(f, v, tail, cur)
  {
    hide DecVarint32, CString, Prefixed;
    PrefixedRoundTrip(v.b, tail);
    AppendSlices(v.b, tail);
    CStringOfString(v.b);
  }

  lemma FixedLengthDecodes(f: Field, v: Value, tail: seq<byte>, cur: Value)
    requires f.ltype.FixedLengthBytes?
    requires ValueOk(f, v) && EncValue(f, v).Ok? && |v.b| < U32
    ensures Decodes(f, v, tail, cur)
  {
    hide DecVarint32, Prefixed;
    PrefixedRoundTrip(v.b, tail);
    AppendSlices(v.b, tail);
    if |v.b| == 0 {
      assert v.b == Zeros(f.dataSize);
      assert v.b + tail == tail;
    }
  }

  lemma {:induction false} ValueDecodes(f: Field, v: Value, tail: seq<byte>, cur: Value)
    requires FieldOk(f) && ValueOk(f, v) && EncValue(f, v).Ok? && ValueShort(f, v)
    requires f.ltype.Submessage? ==> InitialSub(f, cur) == DefaultMsg(f.ptr.fields)
    ensures Decodes(f, v, tail, cur)
    decreases v, 0
  {
    match f.ltype
    case Varint => IntDecodes(f, v, tail, cur);
    case Uvarint => IntDecodes(f, v, tail, cur);
    case Svarint => IntDecodes(f, v, tail, cur);
    case Fixed32 => FixedDecodes(f, v, tail, cur);
    case Fixed64 => FixedDecodes(f, v, tail, cur);
    case Bytes =>
      BytesDecode(f, v, tail, cur);
    case Str =>
      StringDecodes(f, v, tail, cur);
    case FixedLengthBytes =>
      FixedLengthDecodes(f, v, tail, cur);
    case Submessage =>
      var fs, sub := f.ptr.fields, EncFrom(f.ptr.fields, v.slots, 0).value;
      MsgDecodes(fs, v.slots);
      SubmessageDecodes(f, sub, tail, cur);
  }

  lemma SubmessageDecodes(f: Field, sub: seq<byte>, tail: seq<byte>, cur: Value)
    requires f.ltype.Submessage? && f.ptr.Fields? && InitialSub(f, cur) == DefaultMsg(f.ptr.fields) && |sub| < U32
    ensures DecValue(f, Prefixed(sub) + tail, cur)
         == if Decode(f.ptr.fields, sub).Ok? then Ok((MsgV(Decode(f.ptr.fields, sub).value.0), tail))
            else Err(Decode(f.ptr.fields, sub).error)
  {
    hide Prefixed, Window, DecLoop;
    PrefixedRoundTrip(sub, tail);
  }

  // ---------- records ----------

  // One record at the front of the stream is one turn of the loop.
  lemma RecordStep(fs: seq<Field>, k: nat, wt: nat, body: seq<byte>, m: Msg, seen: set<nat>)
    requires DescriptorOk(fs) && k < |fs| && |m| == |fs| && wt < 8
    ensures DecLoop(fs, EncTag(wt, fs[k].tag) + body, m, seen)
         == match DecField(fs[k], wt, body, m[Owner(fs, k)])
            case Err(e) => Err(e)
            case Ok((slot, rest)) => DecLoop(fs, rest, m[Owner(fs, k) := slot], seen + {k})
  {
    hide DecField, EncTag, DecTag;
    FindUnique(fs, k);
    TagRoundTrip(wt, fs[k].tag, body);
  }

  // What the slot of the field f holds after the value v was decoded into it.
  function Stored(f: Field, v: Value, slot: Slot): Slot {
    match f.htype
    case Required => Single(v)
    case Optional => if f.sizeOffset != 0 then Flagged(true, v) else Single(v)
    case Repeated => Rep(Items(slot) + [v])
    case Oneof => OneofSlot(f.tag, v)
  }

  // The slot is fresh: a submessage in it has its default value.
  predicate Fresh(f: Field, slot: Slot) {
    match f.htype
    case Required => slot == Single(DefaultVal(f))
    case Optional => slot == if f.sizeOffset != 0 then Flagged(false, DefaultVal(f)) else Single(DefaultVal(f))
    case Repeated => slot.Rep?
    case Oneof => slot.OneofSlot?
  }

  // The content that the decoder of f starts from.
  function Start(f: Field, slot: Slot): Value {
    if f.htype.Repeated? then IntV(0)
    else if f.htype.Oneof? && f.ltype.Submessage? && f.ptr.Fields? then MsgV(DefaultMsg(f.ptr.fields))
    else Content(slot)
  }

  lemma DecFieldStores(f: Field, wt: nat, s: seq<byte>, slot: Slot)
    requires f.htype.Repeated? ==> !Packable(f.ltype) && |Items(slot)| < f.arraySize
    ensures DecField(f, wt, s, slot)
         == if DecValue(f, s, Start(f, slot)).Ok?
            then Ok((Stored(f, DecValue(f, s, Start(f, slot)).value.0, slot), DecValue(f, s, Start(f, slot)).value.1))
            else Err(DecValue(f, s, Start(f, slot)).error)
  {
    hide DecValue;
  }

  lemma StartIsDefault(f: Field, slot: Slot)
    requires FieldOk(f) && Fresh(f, slot)
    ensures f.ltype.Submessage? ==> InitialSub(f, Start(f, slot)) == DefaultMsg(f.ptr.fields)
  {
  }

  lemma {:induction false} TaggedDecodes(fs: seq<Field>, k: nat, v: Value, tail: seq<byte>, m: Msg, seen: set<nat>)
    requires DescriptorOk(fs) && k < |fs| && |m| == |fs|
    requires ValueOk(fs[k], v) && EncTagged(fs[k], v).Ok? && ValueShort(fs[k], v)
    requires Fresh(fs[k], m[Owner(fs, k)])
    requires fs[k].htype.Repeated? ==> !Packable(fs[k].ltype) && |Items(m[Owner(fs, k)])| < fs[k].arraySize
    ensures DecLoop(fs, EncTagged(fs[k], v).value + tail, m, seen)
         == if ValueFits(fs[k], v)
            then DecLoop(fs, tail, m[Owner(fs, k) := Stored(fs[k], NormVal(fs[k], v), m[Owner(fs, k)])], seen + {k})
            else Err(StringOverflow)
    decreases v, 1
  {
    hide DecLoop, DecField, EncTag, EncValue, ValueFits, ValueShort, NormVal, Stored, Start, DefaultMsg, Fresh, FieldOk, DecValue,
      ValueOk, Owner;
    var f := fs[k];
    var slot := m[Owner(fs, k)];
    var wt := WireType(f.ltype);
    var t, e := EncTag(wt, f.tag), EncValue(f, v).value;
    assert EncTagged(f, v).value == t + e;
    assert (t + e) + tail == t + (e + tail);
    StartIsDefault(f, slot);
    ValueDecodes(f, v, tail, Start(f, slot));
    DecFieldStores(f, wt, e + tail, slot);
    RecordStep(fs, k, wt, e + tail, m, seen);
  }

  lemma {:induction false} UnpackedDecodes(fs: seq<Field>, k: nat, items: seq<Value>, tail: seq<byte>, m: Msg, seen: set<nat>)
    requires DescriptorOk(fs) && k < |fs| && |m| == |fs|
    requires fs[k].htype.Repeated? && !Packable(fs[k].ltype) && m[Owner(fs, k)].Rep?
    requires forall x | x in items :: ValueOk(fs[k], x)
    requires EncUnpacked(fs[k], items).Ok? && ItemsShort(fs[k], items)
    requires |Items(m[Owner(fs, k)])| + |items| <= fs[k].arraySize && items != []
    ensures DecLoop(fs, EncUnpacked(fs[k], items).value + tail, m, seen)
         == if ItemsFit(fs[k], items)
            then DecLoop(fs, tail, m[Owner(fs, k) := Rep(Items(m[Owner(fs, k)]) + NormItems(fs[k], items))], seen + {k})
            else Err(StringOverflow)
    decreases items, 2
  {
    hide DecLoop, EncTagged, NormVal, ValueFits, ValueShort, FieldOk, ValueOk, Owner, Packable;
    var f := fs[k];
    var o := Owner(fs, k);
    var head, rest := EncTagged(f, items[0]).value, EncUnpacked(f, items[1..]).value;
    assert EncUnpacked(f, items) == Ok(head + rest);
    assert (head + rest) + tail == head + (rest + tail);
    TaggedDecodes(fs, k, items[0], rest + tail, m, seen);
    NormItemsCons(f, items);
    if ValueFits(f, items[0]) {
      var x := Rep(Items(m[o]) + [NormVal(f, items[0])]);
      if items[1..] == [] {
        assert rest + tail == tail;
      } else {
        UnpackedDecodes(fs, k, items[1..], tail, m[o := x], seen + {k});
        hide *;
        UpdateTwice(m, o, x, Rep(Items(x) + NormItems(f, items[1..])));
        assert seen + {k} + {k} == seen + {k};
        AppendAssociates(Items(m[o]), NormVal(f, items[0]), NormItems(f, items[1..]));
        assert Items(x) == Items(m[o]) + [NormVal(f, items[0])] by { ItemsOfRep(x.items); }
      }
    }
  }

  lemma ItemsOfRep(items: seq<Value>)
    ensures Items(Rep(items)) == items
  {
  }

  lemma AppendAssociates(a: seq<Value>, x: Value, b: seq<Value>)
    ensures (a + [x]) + b == a + ([x] + b)
  {
  }

  lemma UpdateTwice(m: Msg, o: nat, x: Slot, y: Slot)
    requires o < |m|
    ensures m[o := x][o := y] == m[o := y]
  {
  }

  lemma NormItemsCons(f: Field, items: seq<Value>)
    requires items != [] && forall x | x in items :: ValueOk(f, x)
    ensures NormItems(f, items) == [NormVal(f, items[0])] + NormItems(f, items[1..])
    ensures items[1..] == [] ==> NormItems(f, items) == [NormVal(f, items[0])]
  {
    hide NormVal;
  }

  lemma {:induction false} PackedDecodes(f: Field, items: seq<Value>, done: seq<Value>)
    requires FieldOk(f) && Packable(f.ltype)
    requires forall x | x in items :: ValueOk(f, x)
    requires EncPacked(f, items).Ok?
    requires |done| + |items| <= f.arraySize
    ensures DecPacked(f, EncPacked(f, items).value, done) == Ok(done + items)
    ensures NormItems(f, items) == items && ItemsFit(f, items)
    decreases items
  {
    hide DecValue, EncValue, ValueOk, RestOnFailure, FieldOk;
    if items == [] {
      assert done + items == done;
    } else {
      var head, rest := EncValue(f, items[0]).value, EncPacked(f, items[1..]).value;
      assert EncPacked(f, items).value == head + rest;
      if f.ltype.Fixed32? || f.ltype.Fixed64? {
        FixedDecodes(f, items[0], rest, IntV(0));
      } else {
        IntDecodes(f, items[0], rest, IntV(0));
      }
      PackedDecodes(f, items[1..], done + [items[0]]);
      assert done + [items[0]] + items[1..] == done + items;
      assert NormItems(f, items) == items;
    }
  }

  lemma ArrayDecodes(fs: seq<Field>, k: nat, items: seq<Value>, tail: seq<byte>, m: Msg, seen: set<nat>)
    requires DescriptorOk(fs) && k < |fs| && |m| == |fs|
    requires fs[k].htype.Repeated? && m[Owner(fs, k)] == Rep([])
    requires forall x | x in items :: ValueOk(fs[k], x)
    requires EncArray(fs[k], items).Ok? && ArrayShort(fs[k], items) && items != []
    ensures DecLoop(fs, EncArray(fs[k], items).value + tail, m, seen)
         == if ItemsFit(fs[k], items)
            then DecLoop(fs, tail, m[Owner(fs, k) := Rep(NormItems(fs[k], items))], seen + {k})
            else Err(StringOverflow)
    decreases items, 3
  {
    var f := fs[k];
    assert [] + NormItems(f, items) == NormItems(f, items);
    if Packable(f.ltype) {
      var data := EncPacked(f, items).value;
      PackedDecodes(f, items, []);
      assert [] + items == items;
      var t := EncTag(WT_STRING, f.tag);
      assert (t + Prefixed(data)) + tail == t + (Prefixed(data) + tail);
      RecordStep(fs, k, WT_STRING, Prefixed(data) + tail, m, seen);
      PrefixedRoundTrip(data, tail);
      hide DecLoop, DecPacked, EncPacked, Prefixed, Window, EncTag, DescriptorOk;
    } else {
      UnpackedDecodes(fs, k, items, tail, m, seen);
    }
  }

  // ---------- whole messages ----------

  // Whether the field writes anything.
  predicate Present(f: Field, s: Slot)
    requires Holds(f, s)
  {
    match f.htype
    case Required => true
    case Optional => if f.sizeOffset != 0 then s.has else !ValueIsZero(f, s.v)
    case Repeated => s.items != []
    case Oneof => s.which == f.tag
  }

  // The slot at o is final once the fields before k are decoded.
  predicate Done(fs: seq<Field>, m: Msg, o: nat, k: nat)
    requires MsgOk(fs, m) && o < |fs| && !Continues(fs, o)
  {
    if fs[o].htype.Oneof? then
      assert SlotOk(fs, o, m[o]);
      var j := Member(fs, o, m[o].which);
      j.Some? && j.value < k
    else o < k
  }

  // The destination after the fields before k are decoded.
  function Partial(fs: seq<Field>, m: Msg, k: nat): (r: Msg)
    requires MsgOk(fs, m)
    ensures |r| == |fs|
  {
    seq(|fs|, o requires 0 <= o < |fs| =>
      if !Continues(fs, o) && Done(fs, m, o, k) then NormSlot(fs, o, m[o]) else DefaultSlot(fs, o))
  }

  lemma PartialStart(fs: seq<Field>, m: Msg)
    requires MsgOk(fs, m)
    ensures Partial(fs, m, 0) == DefaultMsg(fs)
  {
  }

  lemma PartialEnd(fs: seq<Field>, m: Msg)
    requires MsgOk(fs, m)
    ensures Partial(fs, m, |fs|) == NormMsg(fs, m)
  {
    forall o | 0 <= o < |fs|
      ensures Partial(fs, m, |fs|)[o] == NormSlot(fs, o, m[o])
    {
      assert SlotOk(fs, o, m[o]);
    }
  }

  // Decoding the field at k can only affect the slot that owns it.
  lemma PartialFrame(fs: seq<Field>, m: Msg, k: nat, p: nat)
    requires DescriptorOk(fs) && MsgOk(fs, m) && k < |fs| && p < |fs| && p != Owner(fs, k)
    ensures Partial(fs, m, k + 1)[p] == Partial(fs, m, k)[p]
  {
    hide FieldOk, NormSlot, DefaultSlot, ValueOk;
    if !Continues(fs, p) {
      assert SlotOk(fs, p, m[p]);
    }
  }

  lemma PresentIsMember(fs: seq<Field>, m: Msg, k: nat)
    requires DescriptorOk(fs) && MsgOk(fs, m) && k < |fs| && Holds(fs[k], m[Owner(fs, k)])
    requires fs[k].htype.Oneof?
    ensures Present(fs[k], m[Owner(fs, k)]) <==> Member(fs, Owner(fs, k), m[Owner(fs, k)].which) == Some(k)
  {
    hide FieldOk, ValueOk;
    FindUnique(fs, k);
  }

  lemma PartialAt(fs: seq<Field>, m: Msg, o: nat, k: nat)
    requires MsgOk(fs, m) && o < |fs| && SlotOk(fs, o, m[o]) && !Continues(fs, o)
    ensures Partial(fs, m, k)[o] == if Done(fs, m, o, k) then NormSlot(fs, o, m[o]) else DefaultSlot(fs, o)
  {
    hide NormSlot, DefaultSlot, Done, SlotOk;
  }

  // A field that is not present has the normal form of the default.
  lemma AbsentNorm(fs: seq<Field>, k: nat, s: Slot)
    requires k < |fs| && SlotOk(fs, k, s) && Holds(fs[k], s) && !fs[k].htype.Oneof? && !Continues(fs, k)
    ensures !Present(fs[k], s) ==> NormSlot(fs, k, s) == DefaultSlot(fs, k)
  {
    hide NormVal, DefaultVal, ValueOk, ValueIsZero;
  }

  lemma PartialOwner(fs: seq<Field>, m: Msg, k: nat)
    requires DescriptorOk(fs) && MsgOk(fs, m) && k < |fs|
    requires Holds(fs[k], m[Owner(fs, k)]) && SlotOk(fs, Owner(fs, k), m[Owner(fs, k)])
    ensures var o := Owner(fs, k);
            if Present(fs[k], m[o])
            then Partial(fs, m, k)[o] == DefaultSlot(fs, o) && Partial(fs, m, k + 1)[o] == NormSlot(fs, o, m[o])
            else Partial(fs, m, k + 1)[o] == Partial(fs, m, k)[o]
  {
    hide NormSlot, DefaultSlot, Member, Partial, SlotOk, Holds, FieldOk, ValueOk, ValueIsZero, DescriptorOk, FindField;
    var o := Owner(fs, k);
    if fs[k].htype.Oneof? {
      PresentIsMember(fs, m, k);
    } else {
      assert o == k;
      AbsentNorm(fs, k, m[k]);
    }
    PartialAt(fs, m, o, k);
    PartialAt(fs, m, o, k + 1);
  }

  // Before its field is decoded a slot has its default value; after it, its final one.
  lemma PartialStep(fs: seq<Field>, m: Msg, k: nat)
    requires DescriptorOk(fs) && MsgOk(fs, m) && k < |fs|
    ensures Holds(fs[k], m[Owner(fs, k)]) && SlotOk(fs, Owner(fs, k), m[Owner(fs, k)])
    ensures var o := Owner(fs, k);
            if Present(fs[k], m[o])
            then Partial(fs, m, k)[o] == DefaultSlot(fs, o)
                 && Partial(fs, m, k + 1) == Partial(fs, m, k)[o := NormSlot(fs, o, m[o])]
            else Partial(fs, m, k + 1) == Partial(fs, m, k)
  {
    var o := Owner(fs, k);
    OwnerHolds(fs, k, m);
    assert SlotOk(fs, o, m[o]);
    PartialOwner(fs, m, k);
    var a, b := Partial(fs, m, k), Partial(fs, m, k + 1);
    forall p | 0 <= p < |fs| && p != o
      ensures a[p] == b[p]
    {
      PartialFrame(fs, m, k, p);
    }
    hide *;
    assert b == a[o := b[o]];
    assert a[o := a[o]] == a;
  }

  lemma {:induction false} FieldDecodes(fs: seq<Field>, k: nat, m: Msg, tail: seq<byte>, d: Msg, seen: set<nat>)
    requires DescriptorOk(fs) && MsgOk(fs, m) && k < |fs| && |d| == |fs|
    requires Holds(fs[k], m[Owner(fs, k)]) && SlotOk(fs, Owner(fs, k), m[Owner(fs, k)])
    requires Present(fs[k], m[Owner(fs, k)]) && d[Owner(fs, k)] == DefaultSlot(fs, Owner(fs, k))
    requires EncField(fs[k], m[Owner(fs, k)]).Ok? && FieldShort(fs[k], m[Owner(fs, k)])
    ensures DecLoop(fs, EncField(fs[k], m[Owner(fs, k)]).value + tail, d, seen)
         == if FieldFits(fs[k], m[Owner(fs, k)])
            then DecLoop(fs, tail, d[Owner(fs, k) := NormSlot(fs, Owner(fs, k), m[Owner(fs, k)])], seen + {k})
            else Err(StringOverflow)
    decreases m[Owner(fs, k)], 5
  {
    hide DecLoop, EncArray, EncTagged, FieldOk, ArrayShort, ValueShort;
    var o := Owner(fs, k);
    var f, s := fs[k], m[o];
    if f.htype.Repeated? {
      ArrayDecodes(fs, k, s.items, tail, d, seen);
    } else {
      if f.htype.Oneof? {
        FindUnique(fs, k);
        assert Member(fs, o, s.which) == Some(k);
      }
      TaggedDecodes(fs, k, s.v, tail, d, seen);
    }
  }

  lemma AbsentField(f: Field, s: Slot)
    requires Holds(f, s) && !Present(f, s)
    ensures EncField(f, s) == Ok([]) && FieldFits(f, s) && !f.htype.Required?
  {
  }

  // The field at k is decoded, or skipped when it wrote nothing.
  lemma {:induction false} LoopStep(fs: seq<Field>, m: Msg, k: nat, seen: set<nat>)
    requires DescriptorOk(fs) && MsgOk(fs, m) && k < |fs|
    requires EncFrom(fs, m, k).Ok? && MsgShort(fs, m, k)
    ensures |m| == |fs| && Holds(fs[k], m[Owner(fs, k)]) && EncFrom(fs, m, k + 1).Ok?
    ensures MsgShort(fs, m, k + 1)
    ensures var s := m[Owner(fs, k)];
            DecLoop(fs, EncFrom(fs, m, k).value, Partial(fs, m, k), seen)
              == if FieldFits(fs[k], s)
                 then DecLoop(fs, EncFrom(fs, m, k + 1).value, Partial(fs, m, k + 1),
                              if Present(fs[k], s) then seen + {k} else seen)
                 else Err(StringOverflow)
    ensures fs[k].htype.Required? ==> Present(fs[k], m[Owner(fs, k)])
    ensures MsgFits(fs, m, k) <==> FieldFits(fs[k], m[Owner(fs, k)]) && MsgFits(fs, m, k + 1)
    decreases m, 6, |fs| - k, 0
  {
    hide DecLoop, EncField, FieldFits, FieldShort, Partial, NormSlot, DefaultSlot, SlotOk, Owner, FieldOk;
    var o := Owner(fs, k);
    PartialStep(fs, m, k);
    var head, tail := EncField(fs[k], m[o]).value, EncFrom(fs, m, k + 1).value;
    assert EncFrom(fs, m, k).value == head + tail;
    if Present(fs[k], m[o]) {
      FieldDecodes(fs, k, m, tail, Partial(fs, m, k), seen);
    } else {
      AbsentField(fs[k], m[o]);
      assert head + tail == tail;
    }
  }

  // The loop ended with the message m, every byte read, and every required field from k on seen.
  predicate Finished(fs: seq<Field>, m: Msg, k: nat, seen: set<nat>, r: Result<Loop>)
    requires MsgOk(fs, m)
  {
    && r.Ok? && r.value.m == NormMsg(fs, m) && r.value.rest == [] && seen <= r.value.seen
    && forall j | k <= j < |fs| && fs[j].htype.Required? :: j in r.value.seen
  }

  lemma LoopDecodesEnd(fs: seq<Field>, m: Msg, seen: set<nat>)
    requires MsgOk(fs, m)
    ensures EncFrom(fs, m, |fs|) == Ok([]) && MsgFits(fs, m, |fs|)
    ensures Finished(fs, m, |fs|, seen, DecLoop(fs, [], Partial(fs, m, |fs|), seen))
  {
    hide NormMsg, Partial, SlotOk;
    PartialEnd(fs, m);
  }

  lemma FinishedStep(fs: seq<Field>, m: Msg, k: nat, seen: set<nat>, seen': set<nat>, r: Result<Loop>)
    requires MsgOk(fs, m) && k < |fs| && Finished(fs, m, k + 1, seen', r)
    requires seen <= seen' && (fs[k].htype.Required? ==> k in seen')
    ensures Finished(fs, m, k, seen, r)
  {
    hide NormMsg, MsgOk;
  }

  // The loop over the encoding of the fields from k on.
  lemma {:induction false} LoopDecodes(fs: seq<Field>, m: Msg, k: nat, seen: set<nat>)
    requires DescriptorOk(fs) && MsgOk(fs, m) && k <= |fs|
    requires EncFrom(fs, m, k).Ok? && MsgShort(fs, m, k)
    ensures var r := DecLoop(fs, EncFrom(fs, m, k).value, Partial(fs, m, k), seen);
            if MsgFits(fs, m, k) then Finished(fs, m, k, seen, r) else r == Err(StringOverflow)
    decreases m, 6, |fs| - k, 1
  {
    hide *;
    if k == |fs| {
      LoopDecodesEnd(fs, m, seen);
    } else {
      LoopStep(fs, m, k, seen);
      var s := m[Owner(fs, k)];
      if FieldFits(fs[k], s) {
        var seen' := if Present(fs[k], s) then seen + {k} else seen;
        LoopDecodes(fs, m, k + 1, seen');
        if MsgFits(fs, m, k + 1) {
          FinishedStep(fs, m, k, seen, seen', DecLoop(fs, EncFrom(fs, m, k + 1).value, Partial(fs, m, k + 1), seen'));
        }
      }
    }
  }

  lemma {:induction false} MsgDecodes(fs: seq<Field>, m: Msg)
    requires DescriptorOk(fs) && MsgOk(fs, m)
    requires EncMsg(fs, m).Ok? && MsgShort(fs, m, 0)
    ensures Decode(fs, EncMsg(fs, m).value)
         == if MsgFits(fs, m, 0) then Ok((NormMsg(fs, m), [])) else Err(StringOverflow)
    decreases m, 7
  {
    hide DecLoop, EncFrom, MsgFits, MsgShort, NormMsg;
    PartialStart(fs, m);
    LoopDecodes(fs, m, 0, {});
  }
}
