// The decoded message has the content of the encoded one, exactly when omitted zeros are defaults.
module PbContent {
  import opened Bits
  import opened Results
  import opened PbWire
  import opened PbDescriptor
  import opened PbEncodeSpec
  import opened PbDecodeSpec
  import opened PbRoundTrip

  // ---------- equal content ----------

  // Equal up to memory that no accessor of the message reads: the value of an unset optional
  // and the union of an unset oneof.
  ghost predicate SameVal(f: Field, a: Value, b: Value)
    requires ValueOk(f, a) && ValueOk(f, b)
    decreases a, 0
  {
    if f.ltype.Submessage? then SameMsg(f.ptr.fields, a.slots, b.slots) else a == b
  }

  ghost predicate SameItems(f: Field, a: seq<Value>, b: seq<Value>)
    requires forall x | x in a :: ValueOk(f, x)
    requires forall x | x in b :: ValueOk(f, x)
    decreases a, 1
  {
    |a| == |b| && forall i: nat | i < |a| :: SameVal(f, a[i], b[i])
  }

  ghost predicate SameSlot(fs: seq<Field>, k: nat, a: Slot, b: Slot)
    requires k < |fs| && SlotOk(fs, k, a) && SlotOk(fs, k, b)
    decreases a, 2
  {
    var f := fs[k];
    if Continues(fs, k) then true
    else
      match f.htype
      case Required => SameVal(f, a.v, b.v)
      case Optional =>
        if f.sizeOffset != 0 then a.has == b.has && (a.has ==> SameVal(f, a.v, b.v)) else SameVal(f, a.v, b.v)
      case Repeated => SameItems(f, a.items, b.items)
      case Oneof =>
        && Member(fs, k, a.which) == Member(fs, k, b.which)
        && (Member(fs, k, a.which).Some? ==> SameVal(fs[Member(fs, k, a.which).value], a.v, b.v))
  }

  ghost predicate SameMsg(fs: seq<Field>, a: Msg, b: Msg)
    requires MsgOk(fs, a) && MsgOk(fs, b)
    decreases a, 3
  {
    forall k: nat | k < |fs| :: SameSlot(fs, k, a[k], b[k])
  }

  // ---------- the guard of the omission branch ----------

  // Every written value obeys the guard; so does every omitted one, by having the default content.
  ghost predicate SafeVal(f: Field, v: Value)
    requires FieldOk(f) && ValueOk(f, v)
    decreases v, 0
  {
    f.ltype.Submessage? ==> SafeMsg(f.ptr.fields, v.slots)
  }

  ghost predicate SafeItems(f: Field, items: seq<Value>)
    requires FieldOk(f) && forall x | x in items :: ValueOk(f, x)
    decreases items, 1
  {
    forall i: nat | i < |items| :: SafeVal(f, items[i])
  }

  ghost predicate SafeSlot(fs: seq<Field>, k: nat, s: Slot)
    requires DescriptorOk(fs) && k < |fs| && SlotOk(fs, k, s)
    decreases s, 2
  {
    var f := fs[k];
    if Continues(fs, k) then true
    else
      match f.htype
      case Required => SafeVal(f, s.v)
      case Optional =>
        if f.sizeOffset != 0 then s.has ==> SafeVal(f, s.v)
        else if ValueIsZero(f, s.v) then DefaultValOk(f); SameVal(f, s.v, DefaultVal(f))
        else SafeVal(f, s.v)
      case Repeated => SafeItems(f, s.items)
      case Oneof =>
        Member(fs, k, s.which).Some? ==> SafeVal(fs[Member(fs, k, s.which).value], s.v)
  }

  ghost predicate SafeMsg(fs: seq<Field>, m: Msg)
    requires DescriptorOk(fs) && MsgOk(fs, m)
    decreases m, 3
  {
    forall k: nat | k < |fs| :: SafeSlot(fs, k, m[k])
  }

  // ---------- the normal form is well formed and has the same content ----------

  lemma {:induction false} NormValOk(f: Field, v: Value)
    requires FieldOk(f) && ValueOk(f, v)
    ensures ValueOk(f, NormVal(f, v))
    ensures SameVal(f, v, NormVal(f, v)) <==> SafeVal(f, v)
    decreases v, 0
  {
    if f.ltype.Submessage? {
      NormMsgOk(f.ptr.fields, v.slots);
    }
  }

  lemma {:induction false} NormItemsOk(f: Field, items: seq<Value>)
    requires FieldOk(f) && forall x | x in items :: ValueOk(f, x)
    ensures forall x | x in NormItems(f, items) :: ValueOk(f, x)
    ensures SameItems(f, items, NormItems(f, items)) <==> SafeItems(f, items)
    decreases items, 1
  {
    hide ValueOk, SameVal, NormVal, SafeVal, FieldOk;
    forall i: nat | i < |items|
      ensures ValueOk(f, NormItems(f, items)[i])
      ensures SameVal(f, items[i], NormItems(f, items)[i]) <==> SafeVal(f, items[i])
    {
      NormValOk(f, items[i]);
    }
  }

  lemma {:induction false} NormSlotOk(fs: seq<Field>, k: nat, s: Slot)
    requires DescriptorOk(fs) && k < |fs| && SlotOk(fs, k, s)
    ensures SlotOk(fs, k, NormSlot(fs, k, s))
    ensures SameSlot(fs, k, s, NormSlot(fs, k, s)) <==> SafeSlot(fs, k, s)
    decreases s, 2
  {
    hide ValueOk, SameVal, NormVal, SafeVal, FieldOk, DefaultVal, ValueIsZero;
    var f := fs[k];
    if !Continues(fs, k) {
      match f.htype
      case Required => NormValOk(f, s.v);
      case Optional => DefaultValOk(f); NormValOk(f, s.v);
      case Repeated => NormItemsOk(f, s.items);
      case Oneof =>
        NoMemberZero(fs, k);
        if Member(fs, k, s.which).Some? {
          var j := Member(fs, k, s.which).value;
          NormValOk(fs[j], s.v);
          OneofOk(fs, k, j, s.which, NormVal(fs[j], s.v));
        } else {
          UnsetOk(fs, k);
        }
    }
  }

  lemma NoMemberZero(fs: seq<Field>, k: nat)
    requires DescriptorOk(fs)
    ensures Member(fs, k, 0) == None
  {
  }

  lemma OneofOk(fs: seq<Field>, k: nat, j: nat, which: nat, v: Value)
    requires DescriptorOk(fs) && k < |fs| && fs[k].htype.Oneof? && !Continues(fs, k)
    requires Member(fs, k, which) == Some(j) && ValueOk(fs[j], v)
    ensures SlotOk(fs, k, OneofSlot(which, v))
  {
    hide FieldOk, ValueOk, Owner;
  }

  lemma UnsetOk(fs: seq<Field>, k: nat)
    requires DescriptorOk(fs) && k < |fs| && fs[k].htype.Oneof? && !Continues(fs, k)
    ensures SlotOk(fs, k, OneofSlot(0, IntV(0)))
  {
    hide ValueOk, Owner;
  }

  lemma {:induction false} NormMsgOk(fs: seq<Field>, m: Msg)
    requires DescriptorOk(fs) && MsgOk(fs, m)
    ensures MsgOk(fs, NormMsg(fs, m))
    ensures SameMsg(fs, m, NormMsg(fs, m)) <==> SafeMsg(fs, m)
    decreases m, 3
  {
    hide SlotOk, SameSlot, NormSlot, SafeSlot, FieldOk;
    forall k: nat | k < |fs|
      ensures SlotOk(fs, k, NormSlot(fs, k, m[k]))
      ensures SameSlot(fs, k, m[k], NormSlot(fs, k, m[k])) <==> SafeSlot(fs, k, m[k])
    {
      NormSlotOk(fs, k, m[k]);
    }
  }

  // The round trip: decoding consumes every byte and gives back the content of the message, if
  // and only if every zero that proto3 omits is the default that the decoder fills in.
  lemma ContentRoundTrip(fs: seq<Field>, m: Msg)
    requires DescriptorOk(fs) && MsgOk(fs, m) && EncMsg(fs, m).Ok? && MsgShort(fs, m, 0)
    ensures var r := Decode(fs, EncMsg(fs, m).value);
            && (r.Ok? <==> MsgFits(fs, m, 0))
            && (r.Ok? ==> MsgOk(fs, r.value.0) && r.value.1 == []
                          && (SameMsg(fs, m, r.value.0) <==> SafeMsg(fs, m)))
  {
    hide *;
    MsgDecodes(fs, m);
    NormMsgOk(fs, m);
  }

  // ---------- descriptors for which the guard always holds ----------

  // Every optional field without a has_ flag defaults to zero, at every level; a proto3
  // descriptor has no default values.
  ghost predicate ZeroDefault(f: Field)
    requires FieldOk(f)
    decreases f, 0
  {
    && (f.ptr.Fields? ==> ZeroDefaults(f.ptr.fields))
    && (f.htype.Optional? && f.sizeOffset == 0 ==> (DefaultValOk(f); ValueIsZero(f, DefaultVal(f))))
  }

  ghost predicate ZeroDefaults(fs: seq<Field>)
    requires DescriptorOk(fs)
    decreases fs, 1
  {
    forall k: nat | k < |fs| :: ZeroDefault(fs[k])
  }

  lemma {:induction false} ZeroVals(f: Field, a: Value, b: Value)
    requires FieldOk(f) && ValueOk(f, a) && ValueOk(f, b) && ValueIsZero(f, a) && ValueIsZero(f, b)
    ensures SameVal(f, a, b)
    decreases a, 0
  {
    if f.ltype.Submessage? {
      ZeroMsgs(f.ptr.fields, a.slots, b.slots);
    }
  }

  lemma OwnOwner(fs: seq<Field>, m: Msg, k: nat)
    requires MsgOk(fs, m) && k < |fs| && !Continues(fs, k)
    ensures Owner(fs, k) == k && Holds(fs[k], m[k])
  {
    OwnerHolds(fs, k, m);
  }

  lemma {:induction false} ZeroSlots(fs: seq<Field>, k: nat, a: Slot, b: Slot)
    requires DescriptorOk(fs) && k < |fs| && !Continues(fs, k) && SlotOk(fs, k, a) && SlotOk(fs, k, b)
    requires Holds(fs[k], a) && Holds(fs[k], b) && FieldIsZero(fs[k], a) && FieldIsZero(fs[k], b)
    ensures SameSlot(fs, k, a, b)
    decreases a, 1
  {
    hide ValueOk, SameVal, ValueIsZero, FieldOk;
    if fs[k].htype.Optional? && fs[k].sizeOffset == 0 {
      ZeroVals(fs[k], a.v, b.v);
    } else if fs[k].htype.Oneof? {
      NoMemberZero(fs, k);
    }
  }

  lemma {:induction false} ZeroMsgs(fs: seq<Field>, a: Msg, b: Msg)
    requires DescriptorOk(fs) && MsgOk(fs, a) && MsgOk(fs, b) && MsgIsZero(fs, a) && MsgIsZero(fs, b)
    ensures SameMsg(fs, a, b)
    decreases a, 2
  {
    hide SlotOk, SameSlot, FieldOk, FieldIsZero;
    forall k: nat | k < |fs|
      ensures SameSlot(fs, k, a[k], b[k])
    {
      if Continues(fs, k) {
        SharedSame(fs, k, a[k], b[k]);
      } else {
        OwnOwner(fs, a, k);
        OwnOwner(fs, b, k);
        OwnerHolds(fs, k, a);
        ZeroSlots(fs, k, a[k], b[k]);
      }
    }
  }

  lemma SharedSame(fs: seq<Field>, k: nat, a: Slot, b: Slot)
    requires k < |fs| && Continues(fs, k) && SlotOk(fs, k, a) && SlotOk(fs, k, b)
    ensures SameSlot(fs, k, a, b)
  {
  }

  lemma {:induction false} ZeroDefaultVal(f: Field, v: Value)
    requires FieldOk(f) && ZeroDefault(f) && ValueOk(f, v)
    ensures SafeVal(f, v)
    decreases v, 0
  {
    if f.ltype.Submessage? {
      ZeroDefaultsSafe(f.ptr.fields, v.slots);
    }
  }

  lemma {:induction false} ZeroDefaultSlot(fs: seq<Field>, k: nat, s: Slot)
    requires DescriptorOk(fs) && ZeroDefaults(fs) && k < |fs| && SlotOk(fs, k, s)
    ensures SafeSlot(fs, k, s)
    decreases s, 1
  {
    hide ValueOk, SafeVal, ValueIsZero, FieldOk, DefaultVal, SameVal;
    var f := fs[k];
    if !Continues(fs, k) {
      match f.htype
      case Required => ZeroDefaultVal(f, s.v);
      case Optional =>
        DefaultValOk(f);
        ZeroDefaultVal(f, s.v);
        if f.sizeOffset == 0 && ValueIsZero(f, s.v) {
          assert ZeroDefault(f);
          ZeroVals(f, s.v, DefaultVal(f));
        }
      case Repeated =>
        forall i: nat | i < |s.items|
          ensures SafeVal(f, s.items[i])
        {
          ZeroDefaultVal(f, s.items[i]);
        }
      case Oneof =>
        if Member(fs, k, s.which).Some? {
          ZeroDefaultVal(fs[Member(fs, k, s.which).value], s.v);
        }
    }
  }

  // With zero defaults the round trip loses nothing, whatever the message.
  lemma {:induction false} ZeroDefaultsSafe(fs: seq<Field>, m: Msg)
    requires DescriptorOk(fs) && ZeroDefaults(fs) && MsgOk(fs, m)
    ensures SafeMsg(fs, m)
    decreases m, 2
  {
    hide SlotOk, SafeSlot, FieldOk, ZeroDefault;
    forall k: nat | k < |fs|
      ensures SafeSlot(fs, k, m[k])
    {
      ZeroDefaultSlot(fs, k, m[k]);
    }
  }

  // ---------- messages that do not come back ----------

  // A string that fills its array is written whole and then refused.
  lemma FullStringRefused()
    ensures var fs := [Field(1, Required, Str, 0, 0, 2, 0, Null)];
            var m := [Single(BytesV([65, 66]))];
            && DescriptorOk(fs) && MsgOk(fs, m) && EncMsg(fs, m) == Ok([10, 2, 65, 66])
            && Decode(fs, [10, 2, 65, 66]) == Err(StringOverflow)
  {
    var f := Field(1, Required, Str, 0, 0, 2, 0, Null);
    var fs := [f];
    var m := [Single(BytesV([65, 66]))];
    assert ValueOk(f, BytesV([65, 66]));
    assert SlotOk(fs, 0, m[0]);
    assert EncVarint(10) == [10] && EncVarint(2) == [2];
    assert EncValue(f, m[0].v) == Ok([2] + [65, 66]);
    assert EncTagged(f, m[0].v) == Ok([10] + ([2] + [65, 66]));
    assert Owner(fs, 0) == 0 && EncField(f, m[0]) == EncTagged(f, m[0].v);
    OneField(fs, m);
    assert [10] + ([2] + [65, 66]) == [10, 2, 65, 66];
    assert EncMsg(fs, m) == Ok([10, 2, 65, 66]);
    assert !FieldFits(f, m[0]);
    assert !MsgFits(fs, m, 0);
    MsgDecodes(fs, m);
  }

  lemma OneField(fs: seq<Field>, m: Msg)
    requires |fs| == 1 && MsgOk(fs, m)
    ensures |m| == 1 && Owner(fs, 0) == 0 && Holds(fs[0], m[0])
    ensures EncFrom(fs, m, 0) == EncField(fs[0], m[0])
  {
    hide EncField, SlotOk;
    OwnerHolds(fs, 0, m);
    assert EncFrom(fs, m, 1) == Ok([]);
    assert EncFrom(fs, m, 0) == Plus(EncField(fs[0], m[0]), Ok([]));
    if EncField(fs[0], m[0]).Ok? {
      assert EncField(fs[0], m[0]).value + [] == EncField(fs[0], m[0]).value;
    }
  }

  lemma NoneRequired(fs: seq<Field>)
    requires forall k: nat | k < |fs| :: !fs[k].htype.Required?
    ensures !MissesRequired(fs, {})
  {
  }

  // Without input the decoder gives the defaults.
  lemma NothingDecodes(fs: seq<Field>)
    requires forall k: nat | k < |fs| :: !fs[k].htype.Required?
    ensures Decode(fs, []) == Ok((DefaultMsg(fs), []))
  {
    hide DefaultMsg;
    assert DecTag([]) == TagEof([]);
    assert DecLoop(fs, [], DefaultMsg(fs), {}) == Ok(Loop(DefaultMsg(fs), {}, []));
    NoneRequired(fs);
  }

  // A zero in a field whose default is 7 is omitted and comes back as 7.
  lemma NonzeroDefaultLost()
    ensures var fs := [Field(1, Optional, Varint, 0, 0, 4, 0, DefaultValue(IntV(7)))];
            && DescriptorOk(fs) && MsgOk(fs, [Single(IntV(0))]) && EncMsg(fs, [Single(IntV(0))]) == Ok([])
            && Decode(fs, []) == Ok(([Single(IntV(7))], []))
  {
    var f := Field(1, Optional, Varint, 0, 0, 4, 0, DefaultValue(IntV(7)));
    var fs := [f];
    var m := [Single(IntV(0))];
    NothingDecodes(fs);
    hide Decode, DecLoop, DecNoinit, EncVarint;
    assert SlotOk(fs, 0, m[0]);
    OneField(fs, m);
    assert DefaultVal(f) == IntV(7) && DefaultSlot(fs, 0) == Single(IntV(7));
    assert DefaultMsg(fs) == [Single(IntV(7))];
  }
}
