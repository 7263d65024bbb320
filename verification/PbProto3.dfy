// Messages without default values: what is left out of the encoding, and that nothing is lost.
module PbProto3 {
  import opened Bits
  import opened Results
  import opened PbWire
  import opened PbDescriptor
  import opened PbEncodeSpec
  import opened PbDecodeSpec
  import opened PbRoundTrip
  import opened PbContent

  // ---------- descriptors without default values ----------

  ghost predicate Plain(f: Field)
    decreases f, 0
  {
    !f.ptr.DefaultValue? && (f.ptr.Fields? ==> PlainFields(f.ptr.fields))
  }

  ghost predicate PlainFields(fs: seq<Field>)
    decreases fs, 1
  {
    forall k: nat | k < |fs| :: Plain(fs[k])
  }

  // An omitted value is the default, and comes back.
  lemma {:induction false} ZeroIsDefault(f: Field, v: Value)
    requires FieldOk(f) && Plain(f) && ValueOk(f, v) && ValueIsZero(f, v)
    ensures ValueOk(f, DefaultVal(f)) && SameVal(f, v, DefaultVal(f))
    decreases v, 0
  {
    DefaultValOk(f);
    if f.ltype.Submessage? {
      ZeroIsDefaults(f.ptr.fields, v.slots);
    }
  }

  lemma {:induction false} ZeroIsDefaults(fs: seq<Field>, m: Msg)
    requires DescriptorOk(fs) && PlainFields(fs) && MsgOk(fs, m) && MsgIsZero(fs, m)
    ensures MsgOk(fs, DefaultMsg(fs)) && SameMsg(fs, m, DefaultMsg(fs))
    decreases m, 2
  {
    DefaultMsgOk(fs);
    hide SlotOk, SameSlot, FieldOk, FieldIsZero, DefaultSlot, Plain;
    forall k: nat | k < |fs|
      ensures SameSlot(fs, k, m[k], DefaultSlot(fs, k))
    {
      if Continues(fs, k) {
        SharedSame(fs, k, m[k], DefaultSlot(fs, k));
      } else {
        OwnOwner(fs, m, k);
        OwnerHolds(fs, k, m);
        ZeroIsDefaultSlot(fs, k, m[k]);
      }
    }
  }

  lemma {:induction false} ZeroIsDefaultSlot(fs: seq<Field>, k: nat, s: Slot)
    requires DescriptorOk(fs) && PlainFields(fs) && k < |fs| && !Continues(fs, k)
    requires SlotOk(fs, k, s) && SlotOk(fs, k, DefaultSlot(fs, k)) && Holds(fs[k], s) && FieldIsZero(fs[k], s)
    ensures SameSlot(fs, k, s, DefaultSlot(fs, k))
    decreases s, 1
  {
    hide ValueOk, SameVal, ValueIsZero, FieldOk, DefaultVal;
    if fs[k].htype.Optional? && fs[k].sizeOffset == 0 {
      ZeroIsDefault(fs[k], s.v);
    } else if fs[k].htype.Oneof? {
      NoMemberZero(fs, k);
    }
  }

  lemma {:induction false} PlainSafe(fs: seq<Field>, m: Msg)
    requires DescriptorOk(fs) && PlainFields(fs) && MsgOk(fs, m)
    ensures SafeMsg(fs, m)
    decreases m, 2
  {
    hide SlotOk, SafeSlot, FieldOk, Plain;
    forall k: nat | k < |fs|
      ensures SafeSlot(fs, k, m[k])
    {
      PlainSafeSlot(fs, k, m[k]);
    }
  }

  lemma {:induction false} PlainSafeSlot(fs: seq<Field>, k: nat, s: Slot)
    requires DescriptorOk(fs) && PlainFields(fs) && k < |fs| && SlotOk(fs, k, s)
    ensures SafeSlot(fs, k, s)
    decreases s, 1
  {
    hide ValueOk, SafeVal, ValueIsZero, FieldOk, DefaultVal, SameVal, Plain;
    var f := fs[k];
    if !Continues(fs, k) {
      match f.htype
      case Required => PlainSafeVal(f, s.v);
      case Optional =>
        PlainSafeVal(f, s.v);
        if f.sizeOffset == 0 && ValueIsZero(f, s.v) {
          ZeroIsDefault(f, s.v);
        }
      case Repeated =>
        forall i: nat | i < |s.items|
          ensures SafeVal(f, s.items[i])
        {
          PlainSafeVal(f, s.items[i]);
        }
      case Oneof =>
        if Member(fs, k, s.which).Some? {
          PlainSafeVal(fs[Member(fs, k, s.which).value], s.v);
        }
    }
  }

  lemma {:induction false} PlainSafeVal(f: Field, v: Value)
    requires FieldOk(f) && Plain(f) && ValueOk(f, v)
    ensures SafeVal(f, v)
    decreases v, 0
  {
    if f.ltype.Submessage? {
      PlainSafe(f.ptr.fields, v.slots);
    }
  }

  // Every message of such a descriptor that is encoded, and whose strings leave room for their
  // terminators, comes back with the same content.
  lemma NothingLost(fs: seq<Field>, m: Msg)
    requires DescriptorOk(fs) && PlainFields(fs) && MsgOk(fs, m)
    requires EncMsg(fs, m).Ok? && MsgShort(fs, m, 0) && MsgFits(fs, m, 0)
    ensures var r := Decode(fs, EncMsg(fs, m).value);
            r.Ok? && r.value.1 == [] && MsgOk(fs, r.value.0) && SameMsg(fs, m, r.value.0)
  {
    hide *;
    PlainSafe(fs, m);
    ContentRoundTrip(fs, m);
  }

  // ---------- what is absent ----------

  // A value of which no byte has been set.
  predicate Zeroed(f: Field, v: Value)
    decreases v, 0
  {
    match f.ltype
    case Bytes => v == BytesV([])
    case Str => v == BytesV([])
    case FixedLengthBytes => v.BytesV? && |v.b| == f.dataSize && forall x | x in v.b :: x == 0
    case Submessage => v.MsgV? && f.ptr.Fields? && ZeroedMsg(f.ptr.fields, v.slots)
    case _ => v == IntV(0)
  }

  predicate ZeroedSlot(fs: seq<Field>, k: nat, s: Slot)
    requires k < |fs|
    decreases s, 1
  {
    if Continues(fs, k) then s == Shared
    else
      match fs[k].htype
      case Required => s.Single? && Zeroed(fs[k], s.v)
      case Optional => if fs[k].sizeOffset != 0 then s.Flagged? && !s.has && Zeroed(fs[k], s.v) else s.Single? && Zeroed(fs[k], s.v)
      case Repeated => s == Rep([])
      case Oneof => s.OneofSlot? && s.which == 0
  }

  // A message in which nothing is set.
  predicate ZeroedMsg(fs: seq<Field>, m: Msg)
    decreases m, 2
  {
    |m| == |fs| && forall k: nat | k < |fs| :: ZeroedSlot(fs, k, m[k])
  }

  lemma {:induction false} DefaultZeroed(f: Field)
    requires FieldOk(f) && Plain(f)
    ensures Zeroed(f, DefaultVal(f))
    decreases f, 0
  {
    if f.ptr.Fields? {
      DefaultsZeroed(f.ptr.fields);
    }
  }

  lemma {:induction false} DefaultsZeroed(fs: seq<Field>)
    requires DescriptorOk(fs) && PlainFields(fs)
    ensures ZeroedMsg(fs, DefaultMsg(fs))
    decreases fs, 1
  {
    hide Zeroed, DefaultVal, FieldOk, Plain;
    forall k: nat | k < |fs|
      ensures ZeroedSlot(fs, k, DefaultSlot(fs, k))
    {
      DefaultZeroed(fs[k]);
    }
  }

  // Without input a message without required fields has nothing set.
  lemma NothingSet(fs: seq<Field>)
    requires DescriptorOk(fs) && PlainFields(fs) && forall k: nat | k < |fs| :: !fs[k].htype.Required?
    ensures Decode(fs, []).Ok? && ZeroedMsg(fs, Decode(fs, []).value.0) && Decode(fs, []).value.1 == []
  {
    hide Decode, ZeroedMsg, DefaultMsg;
    NothingDecodes(fs);
    DefaultsZeroed(fs);
  }

  // ---------- what is omitted ----------

  // A value that proto3 does not write: zero, empty, or a message in which nothing is set.
  predicate Blank(f: Field, v: Value)
    requires ValueOk(f, v)
    decreases v, 0
  {
    match f.ltype
    case Varint => v == IntV(0)
    case Uvarint => v == IntV(0)
    case Svarint => v == IntV(0)
    case Fixed32 => v == IntV(0)
    case Fixed64 => v == IntV(0)
    case Submessage => BlankMsg(f.ptr.fields, v.slots)
    case _ => v == BytesV([])
  }

  predicate BlankSlot(fs: seq<Field>, k: nat, s: Slot)
    requires k < |fs| && SlotOk(fs, k, s)
    decreases s, 1
  {
    match s
    case Shared => true
    case Single(v) => fs[k].htype.Optional? && Blank(fs[k], v)
    case Flagged(has, _) => !has
    case Rep(items) => items == []
    case OneofSlot(which, _) => which == 0
  }

  predicate BlankMsg(fs: seq<Field>, m: Msg)
    requires MsgOk(fs, m)
    decreases m, 2
  {
    forall k: nat | k < |fs| :: BlankSlot(fs, k, m[k])
  }

  lemma {:induction false} BlankIsZero(f: Field, v: Value)
    requires ValueOk(f, v)
    ensures Blank(f, v) <==> ValueIsZero(f, v)
    decreases v, 0
  {
    if f.ltype.Submessage? {
      BlankMsgIsZero(f.ptr.fields, v.slots);
    }
  }

  lemma {:induction false} BlankMsgIsZero(fs: seq<Field>, m: Msg)
    requires MsgOk(fs, m)
    ensures BlankMsg(fs, m) <==> MsgIsZero(fs, m)
    decreases m, 2
  {
    hide BlankSlot, FieldIsZero, SlotOk;
    forall k: nat | k < |fs|
      ensures Holds(fs[k], m[Owner(fs, k)])
      ensures BlankSlot(fs, Owner(fs, k), m[Owner(fs, k)]) <==> FieldIsZero(fs[k], m[Owner(fs, k)])
    {
      OwnerHolds(fs, k, m);
      BlankSlotIsZero(fs, k, m[Owner(fs, k)]);
    }
    forall k: nat | k < |fs|
      ensures Continues(fs, k) ==> BlankSlot(fs, k, m[k])
      ensures !Continues(fs, k) ==> Owner(fs, k) == k
    {
      SharedBlank(fs, k, m[k]);
    }
  }

  lemma SharedBlank(fs: seq<Field>, k: nat, s: Slot)
    requires k < |fs| && SlotOk(fs, k, s)
    ensures Continues(fs, k) ==> BlankSlot(fs, k, s)
  {
  }

  lemma {:induction false} BlankSlotIsZero(fs: seq<Field>, k: nat, s: Slot)
    requires k < |fs| && SlotOk(fs, Owner(fs, k), s) && Holds(fs[k], s)
    ensures BlankSlot(fs, Owner(fs, k), s) <==> FieldIsZero(fs[k], s)
    decreases s, 1
  {
    hide Blank, ValueIsZero, ValueOk;
    if s.Single? {
      BlankIsZero(fs[k], s.v);
    }
  }

  lemma TaggedNotEmpty(f: Field, v: Value)
    requires ValueOk(f, v)
    ensures EncTagged(f, v) != Ok([])
  {
    hide EncValue;
  }

  // An optional field without a has_ flag writes nothing exactly when its value is blank.
  lemma OmittedIff(f: Field, v: Value)
    requires f.htype.Optional? && f.sizeOffset == 0 && ValueOk(f, v)
    ensures EncField(f, Single(v)) == Ok([]) <==> Blank(f, v)
  {
    hide EncTagged, ValueIsZero, Blank, ValueOk;
    BlankIsZero(f, v);
    TaggedNotEmpty(f, v);
  }

  // ---------- what can be encoded ----------

  // Byte arrays leave room for their count, and arrays do not exceed their bound, in whatever is
  // written.
  predicate Encodable(f: Field, v: Value)
    requires ValueOk(f, v)
    decreases v, 0
  {
    match f.ltype
    case Bytes => |v.b| + 4 <= f.dataSize
    case Submessage => EncodableMsg(f.ptr.fields, v.slots)
    case _ => true
  }

  predicate EncodableSlot(f: Field, s: Slot)
    requires Holds(f, s)
    decreases s, 1
  {
    match f.htype
    case Required => Encodable(f, s.v)
    case Optional => (s.Flagged? && !s.has) || Encodable(f, s.v)
    case Repeated => |s.items| <= f.arraySize && forall i: nat | i < |s.items| :: Encodable(f, s.items[i])
    case Oneof => s.which == f.tag ==> Encodable(f, s.v)
  }

  predicate EncodableMsg(fs: seq<Field>, m: Msg)
    requires MsgOk(fs, m)
    decreases m, 2
  {
    forall k: nat | k < |fs| :: OwnerHolds(fs, k, m); EncodableSlot(fs[k], m[Owner(fs, k)])
  }

  lemma {:induction false} ValueEncodes(f: Field, v: Value)
    requires FieldOk(f) && ValueOk(f, v)
    ensures EncValue(f, v).Ok? <==> Encodable(f, v)
    ensures EncTagged(f, v).Ok? <==> Encodable(f, v)
    decreases v, 0
  {
    if f.ltype.Submessage? {
      EncodesIff(f.ptr.fields, v.slots);
    }
  }

  lemma {:induction false} ItemsEncode(f: Field, items: seq<Value>)
    requires FieldOk(f) && forall x | x in items :: ValueOk(f, x)
    ensures var all := forall i: nat | i < |items| :: Encodable(f, items[i]);
            (EncPacked(f, items).Ok? <==> all) && (EncUnpacked(f, items).Ok? <==> all)
    decreases items, 1
  {
    hide EncValue, EncTagged, Encodable, ValueOk, FieldOk;
    if items != [] {
      ValueEncodes(f, items[0]);
      ItemsEncode(f, items[1..]);
      assert forall i: nat | 0 < i < |items| :: items[i] == items[1..][i - 1];
      assert forall i: nat | i < |items[1..]| :: items[1..][i] == items[i + 1];
    }
  }

  lemma {:induction false} ZeroEncodes(f: Field, v: Value)
    requires FieldOk(f) && ValueOk(f, v) && ValueIsZero(f, v)
    ensures Encodable(f, v)
    decreases v, 0
  {
    if f.ltype.Submessage? {
      BlankEncodes(f.ptr.fields, v.slots);
    }
  }

  lemma {:induction false} BlankEncodes(fs: seq<Field>, m: Msg)
    requires DescriptorOk(fs) && MsgOk(fs, m) && MsgIsZero(fs, m)
    ensures EncodableMsg(fs, m)
    decreases m, 2
  {
    hide EncodableSlot, FieldIsZero, FieldOk;
    forall k: nat | k < |fs|
      ensures Holds(fs[k], m[Owner(fs, k)]) && EncodableSlot(fs[k], m[Owner(fs, k)])
    {
      OwnerHolds(fs, k, m);
      BlankSlotEncodes(fs[k], m[Owner(fs, k)]);
    }
  }

  lemma {:induction false} BlankSlotEncodes(f: Field, s: Slot)
    requires FieldOk(f) && Holds(f, s) && FieldIsZero(f, s)
    ensures EncodableSlot(f, s)
    decreases s, 1
  {
    hide Encodable, ValueOk, ValueIsZero;
    if s.Single? {
      ZeroEncodes(f, s.v);
    } else if s.OneofSlot? {
      assert f.tag > 0;
    }
  }

  lemma {:induction false} FieldEncodes(f: Field, s: Slot)
    requires FieldOk(f) && Holds(f, s)
    ensures EncField(f, s).Ok? <==> EncodableSlot(f, s)
    decreases s, 1
  {
    hide EncTagged, EncPacked, EncUnpacked, Encodable, ValueOk, FieldOk, ValueIsZero;
    match f.htype
    case Required => ValueEncodes(f, s.v);
    case Optional =>
      ValueEncodes(f, s.v);
      if f.sizeOffset == 0 && ValueIsZero(f, s.v) {
        ZeroEncodes(f, s.v);
      }
    case Repeated => ItemsEncode(f, s.items);
    case Oneof =>
      if s.which == f.tag {
        ValueEncodes(f, s.v);
      }
  }

  // The fields from position k on.
  lemma {:induction false} FromEncodes(fs: seq<Field>, m: Msg, k: nat)
    requires DescriptorOk(fs) && MsgOk(fs, m) && k <= |fs|
    requires forall j: nat | j < |fs| :: Holds(fs[j], m[Owner(fs, j)])
    ensures EncFrom(fs, m, k).Ok? <==> forall j: nat | k <= j < |fs| :: EncodableSlot(fs[j], m[Owner(fs, j)])
    decreases m, 2, |fs| - k
  {
    if k < |fs| {
      FromStep(fs, m, k);
      hide *;
      FieldEncodes(fs[k], m[Owner(fs, k)]);
      FromEncodes(fs, m, k + 1);
    }
  }

  lemma FromStep(fs: seq<Field>, m: Msg, k: nat)
    requires DescriptorOk(fs) && MsgOk(fs, m) && k < |fs|
    ensures Holds(fs[k], m[Owner(fs, k)]) && FieldOk(fs[k])
    ensures EncFrom(fs, m, k).Ok? <==> EncField(fs[k], m[Owner(fs, k)]).Ok? && EncFrom(fs, m, k + 1).Ok?
  {
    hide EncField, FieldOk, SlotOk;
    OwnerHolds(fs, k, m);
  }

  // The encoder succeeds exactly on the messages in which everything written fits.
  lemma {:induction false} EncodesIff(fs: seq<Field>, m: Msg)
    requires DescriptorOk(fs) && MsgOk(fs, m)
    ensures EncMsg(fs, m).Ok? <==> EncodableMsg(fs, m)
    decreases m, 3
  {
    hide EncFrom, EncodableSlot, FieldOk, Holds;
    forall k: nat | k < |fs|
      ensures Holds(fs[k], m[Owner(fs, k)])
    {
      OwnerHolds(fs, k, m);
    }
    FromEncodes(fs, m, 0);
  }
}
