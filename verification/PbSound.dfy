// Whatever bytes arrive, what the decoder accepts fits the memory that the descriptor declares.
module PbSound {
  import opened Bits
  import opened Results
  import opened PbWire
  import opened PbDescriptor
  import opened PbEncodeSpec
  import opened PbDecodeSpec

  // ---------- what fits ----------

  // The range of an integer member of n bytes.
  predicate FitsSigned(n: nat, i: int)
    requires n > 0
  {
    -(Pow2(8 * n - 1) as int) <= i < Pow2(8 * n - 1)
  }

  predicate FitsUnsigned(n: nat, i: int) {
    0 <= i < Pow2(8 * n)
  }

  // A value lies inside the member of the struct that the field declares: a bytes member begins
  // with a count of four bytes, and a string ends with a terminator.
  ghost predicate ValueInside(f: Field, v: Value)
    decreases v, 0
  {
    match f.ltype
    case Varint => v.IntV? && f.dataSize > 0 && FitsSigned(f.dataSize, v.i)
    case Svarint => v.IntV? && f.dataSize > 0 && FitsSigned(f.dataSize, v.i)
    case Uvarint => v.IntV? && FitsUnsigned(f.dataSize, v.i)
    case Fixed32 => v.IntV? && FitsUnsigned(4, v.i)
    case Fixed64 => v.IntV? && FitsUnsigned(8, v.i)
    case Bytes => v.BytesV? && |v.b| + 4 <= f.dataSize
    case Str => v.BytesV? && |v.b| + 1 <= f.dataSize && 0 !in v.b
    case FixedLengthBytes => v.BytesV? && |v.b| == f.dataSize
    case Submessage => v.MsgV? && f.ptr.Fields? && MsgInside(f.ptr.fields, v.slots)
  }

  ghost predicate SlotInside(fs: seq<Field>, k: nat, s: Slot)
    requires k < |fs|
    decreases s, 1
  {
    if Continues(fs, k) then s.Shared?
    else
      match fs[k].htype
      case Required => s.Single? && ValueInside(fs[k], s.v)
      case Optional => (if fs[k].sizeOffset != 0 then s.Flagged? else s.Single?) && ValueInside(fs[k], s.v)
      case Repeated => s.Rep? && |s.items| <= fs[k].arraySize && forall i: nat | i < |s.items| :: ValueInside(fs[k], s.items[i])
      case Oneof =>
        s.OneofSlot? && forall j: nat | j < |fs| && Owner(fs, j) == k && fs[j].tag == s.which :: ValueInside(fs[j], s.v)
  }

  // Every slot of the message, and of the messages in it.
  ghost predicate MsgInside(fs: seq<Field>, m: Msg)
    decreases m, 2
  {
    |m| == |fs| && forall k: nat | k < |fs| :: SlotInside(fs, k, m[k])
  }

  // ---------- the defaults ----------

  lemma {:induction false} DefaultsInside(fs: seq<Field>)
    requires DescriptorOk(fs)
    ensures MsgInside(fs, DefaultMsg(fs))
    decreases fs, 1
  {
    hide ValueInside, DefaultVal;
    forall k: nat | k < |fs|
      ensures SlotInside(fs, k, DefaultSlot(fs, k))
    {
      DefaultInside(fs[k]);
    }
  }

  lemma {:induction false} DefaultInside(f: Field)
    requires FieldOk(f)
    ensures ValueInside(f, DefaultVal(f))
    decreases f, 0
  {
    if f.ptr.Fields? {
      DefaultsInside(f.ptr.fields);
    } else {
      DefaultValOk(f);
      hide DefaultVal;
      ScalarInside(f, DefaultVal(f));
    }
  }

  lemma ScalarInside(f: Field, v: Value)
    requires FieldOk(f) && !f.ltype.Submessage? && ValueOk(f, v)
    requires f.ltype.Bytes? ==> |v.b| + 4 <= f.dataSize
    requires f.ltype.Str? ==> |v.b| < f.dataSize
    ensures ValueInside(f, v)
  {
    RangesExact(f.dataSize, if v.IntV? then v.i else 0);
  }

  // The ranges of the four integer types.
  lemma RangesExact(n: nat, i: int)
    ensures IntSize(n) ==> (InSigned(n, i) <==> FitsSigned(n, i)) && (InUnsigned(n, i) <==> FitsUnsigned(n, i))
    ensures Pow2(32) == U32 && Pow2(64) == U64
  {
    Pow2Values();
  }

  // ---------- what is inside is well formed ----------

  lemma {:induction false} InsideOk(fs: seq<Field>, m: Msg)
    requires DescriptorOk(fs) && MsgInside(fs, m)
    ensures MsgOk(fs, m)
    decreases m, 2
  {
    hide ValueInside, FieldOk, SlotOk;
    forall k: nat | k < |fs|
      ensures SlotOk(fs, k, m[k])
    {
      SlotInsideOk(fs, k, m[k]);
    }
  }

  lemma {:induction false} SlotInsideOk(fs: seq<Field>, k: nat, s: Slot)
    requires DescriptorOk(fs) && k < |fs| && SlotInside(fs, k, s)
    ensures SlotOk(fs, k, s)
    decreases s, 1
  {
    hide ValueInside, ValueOk, FieldOk;
    if !Continues(fs, k) {
      match fs[k].htype
      case Required => ValueInsideOk(fs[k], s.v);
      case Optional => ValueInsideOk(fs[k], s.v);
      case Repeated =>
        forall i: nat | i < |s.items|
          ensures ValueOk(fs[k], s.items[i])
        {
          ValueInsideOk(fs[k], s.items[i]);
        }
      case Oneof =>
        forall j: nat | j < |fs| && Owner(fs, j) == k && fs[j].tag == s.which
          ensures ValueOk(fs[j], s.v)
        {
          ValueInsideOk(fs[j], s.v);
        }
    }
  }

  lemma {:induction false} ValueInsideOk(f: Field, v: Value)
    requires FieldOk(f) && ValueInside(f, v)
    ensures ValueOk(f, v)
    decreases v, 0
  {
    if f.ltype.Submessage? {
      InsideOk(f.ptr.fields, v.slots);
    } else {
      RangesExact(f.dataSize, if v.IntV? then v.i else 0);
    }
  }

  // ---------- scalars ----------

  lemma {:induction false} LittleEndianBound(b: seq<byte>)
    ensures FromLittleEndian(b) < Pow2(8 * |b|)
    decreases |b|
  {
    if b != [] {
      LittleEndianBound(b[1..]);
      Pow2Add(8, 8 * |b[1..]|);
      Pow2Values();
    }
  }

  lemma IntegerInside(f: Field, s: seq<byte>)
    requires FieldOk(f) && (f.ltype.Varint? || f.ltype.Uvarint? || f.ltype.Svarint?) && DecInteger(f, s).Ok?
    ensures ValueInside(f, DecInteger(f, s).value.0)
  {
    hide DecVarint64, UnZigZag, ToS32, ToS64, Pow2, InSigned, InUnsigned;
    RangesExact(f.dataSize, DecInteger(f, s).value.0.i);
  }

  lemma FixedInside(f: Field, s: seq<byte>)
    requires f.ltype.Fixed32? || f.ltype.Fixed64?
    requires DecValue(f, s, IntV(0)).Ok?
    ensures ValueInside(f, DecValue(f, s, IntV(0)).value.0)
  {
    hide FromLittleEndian, Pow2;
    LittleEndianBound(s[..if f.ltype.Fixed32? then 4 else 8]);
  }

  lemma StringInside(f: Field, s: seq<byte>)
    requires f.ltype.Bytes? || f.ltype.Str? || f.ltype.FixedLengthBytes?
    requires DecString(f, s).Ok?
    ensures ValueInside(f, DecString(f, s).value.0)
  {
    hide DecVarint32, CString;
  }

  // ---------- the decoder ----------

  // The content that a field is decoded on top of is inside.
  ghost predicate CurInside(f: Field, cur: Value) {
    if f.ltype.Submessage? && f.ptr.Fields? && !f.htype.Repeated? && cur.MsgV? && |cur.slots| == |f.ptr.fields|
    then MsgInside(f.ptr.fields, cur.slots) else true
  }

  lemma InitialInside(f: Field, cur: Value)
    requires FieldOk(f) && f.ptr.Fields? && f.ltype.Submessage? && CurInside(f, cur)
    ensures MsgInside(f.ptr.fields, InitialSub(f, cur))
  {
    DefaultsInside(f.ptr.fields);
  }

  lemma {:induction false} ValueDecodesInside(f: Field, s: seq<byte>, cur: Value)
    requires FieldOk(f) && CurInside(f, cur) && DecValue(f, s, cur).Ok?
    ensures ValueInside(f, DecValue(f, s, cur).value.0)
    decreases |s|, 1
  {
    match f.ltype
    case Varint => IntegerInside(f, s);
    case Uvarint => IntegerInside(f, s);
    case Svarint => IntegerInside(f, s);
    case Fixed32 => FixedInside(f, s);
    case Fixed64 => FixedInside(f, s);
    case Bytes => StringInside(f, s);
    case Str => StringInside(f, s);
    case FixedLengthBytes => StringInside(f, s);
    case Submessage =>
      hide DecNoinit, Window, MsgInside, InitialSub, FieldOk;
      assert f.ptr.Fields? by { IsSubmessage(f); }
      InitialInside(f, cur);
      NoinitInside(f.ptr.fields, Window(s).value.0, InitialSub(f, cur));
  }

  lemma IsSubmessage(f: Field)
    requires FieldOk(f) && f.ltype.Submessage?
    ensures f.ptr.Fields? && DescriptorOk(f.ptr.fields)
  {
  }

  lemma {:induction false} PackedInside(f: Field, s: seq<byte>, items: seq<Value>)
    requires FieldOk(f) && f.htype.Repeated? && DecPacked(f, s, items).Ok?
    requires |items| <= f.arraySize && forall i: nat | i < |items| :: ValueInside(f, items[i])
    ensures var r := DecPacked(f, s, items).value;
            |r| <= f.arraySize && forall i: nat | i < |r| :: ValueInside(f, r[i])
    decreases |s|, 2
  {
    hide DecValue, ValueInside, FieldOk, RestOnFailure;
    if s != [] {
      ValueDecodesInside(f, s, IntV(0));
      var (v, rest) := DecValue(f, s, IntV(0)).value;
      PackedInside(f, rest, items + [v]);
    }
  }

  lemma CurOfSlot(fs: seq<Field>, k: nat, slot: Slot)
    requires DescriptorOk(fs) && k < |fs| && SlotInside(fs, Owner(fs, k), slot) && !fs[k].htype.Repeated?
    ensures !fs[k].htype.Oneof? ==> CurInside(fs[k], Content(slot))
    ensures fs[k].ptr.Fields? ==> CurInside(fs[k], MsgV(DefaultMsg(fs[k].ptr.fields)))
  {
    hide FieldOk, MsgInside;
    var f := fs[k];
    assert FieldOk(f);
    if f.ptr.Fields? {
      assert DescriptorOk(f.ptr.fields) by { SubOk(f); }
      DefaultsInside(f.ptr.fields);
    }
  }

  lemma SubOk(f: Field)
    requires FieldOk(f) && f.ptr.Fields?
    ensures DescriptorOk(f.ptr.fields)
  {
  }

  // What one field decoder stores in the slot that owns the field.
  lemma {:induction false} FieldInside(fs: seq<Field>, k: nat, wt: nat, s: seq<byte>, slot: Slot)
    requires DescriptorOk(fs) && k < |fs| && SlotInside(fs, Owner(fs, k), slot) && DecField(fs[k], wt, s, slot).Ok?
    ensures SlotInside(fs, Owner(fs, k), DecField(fs[k], wt, s, slot).value.0)
    decreases |s|, 2
  {
    hide DecValue, DecPacked, ValueInside, FieldOk, DefaultMsg, Window, CurInside;
    var f := fs[k];
    assert FieldOk(f);
    match f.htype
    case Required =>
      CurOfSlot(fs, k, slot);
      ValueDecodesInside(f, s, Content(slot));
    case Optional =>
      CurOfSlot(fs, k, slot);
      ValueDecodesInside(f, s, Content(slot));
    case Repeated =>
      var items := Items(slot);
      if wt == WT_STRING && Packable(f.ltype) {
        WindowShrinks(s);
        PackedInside(f, Window(s).value.0, items);
      } else {
        NothingInside(f);
        ValueDecodesInside(f, s, IntV(0));
      }
    case Oneof =>
      CurOfSlot(fs, k, slot);
      var cur := if f.ltype.Submessage? && f.ptr.Fields? then MsgV(DefaultMsg(f.ptr.fields)) else Content(slot);
      assert CurInside(f, cur) by { ScalarCur(f, cur); }
      ValueDecodesInside(f, s, cur);
      OneofInside(fs, k, DecValue(f, s, cur).value.0);
  }

  lemma ScalarCur(f: Field, cur: Value)
    ensures !(f.ltype.Submessage? && f.ptr.Fields?) ==> CurInside(f, cur)
  {
  }

  lemma NothingInside(f: Field)
    ensures CurInside(f, IntV(0))
  {
  }

  lemma WindowShrinks(s: seq<byte>)
    requires Window(s).Ok?
    ensures |Window(s).value.0| < |s|
  {
  }

  lemma OneofInside(fs: seq<Field>, k: nat, v: Value)
    requires DescriptorOk(fs) && k < |fs| && fs[k].htype.Oneof? && ValueInside(fs[k], v)
    ensures SlotInside(fs, Owner(fs, k), OneofSlot(fs[k].tag, v))
  {
    hide ValueInside, FieldOk;
    FindUnique(fs, k);
  }

  lemma {:induction false} LoopInside(fs: seq<Field>, s: seq<byte>, m: Msg, seen: set<nat>)
    requires DescriptorOk(fs) && MsgInside(fs, m) && DecLoop(fs, s, m, seen).Ok?
    ensures MsgInside(fs, DecLoop(fs, s, m, seen).value.m)
    decreases |s|, 3
  {
    hide DecField, SlotInside, DescriptorOk, Skip, FindField;
    match DecTag(s)
    case TagEof(rest) =>
    case TagOk(wt, tag, rest) =>
      match FindField(fs, tag)
      case None =>
        if !(fs == [] && tag == 0) {
          LoopInside(fs, Skip(wt, rest).value, m, seen);
        }
      case Some(k) =>
        var o := Owner(fs, k);
        var (slot, rest') := DecField(fs[k], wt, rest, m[o]).value;
        FieldInside(fs, k, wt, rest, m[o]);
        LoopInside(fs, rest', m[o := slot], seen + {k});
  }

  lemma {:induction false} NoinitInside(fs: seq<Field>, s: seq<byte>, m: Msg)
    requires DescriptorOk(fs) && MsgInside(fs, m) && DecNoinit(fs, s, m).Ok?
    ensures MsgInside(fs, DecNoinit(fs, s, m).value.0)
    decreases |s|, 4
  {
    hide DecLoop, MsgInside, MissesRequired;
    LoopInside(fs, s, m, {});
  }

  // No byte string makes the decoder store outside the struct, or a value that its type cannot hold.
  lemma DecodeInside(fs: seq<Field>, s: seq<byte>)
    requires DescriptorOk(fs) && Decode(fs, s).Ok?
    ensures MsgInside(fs, Decode(fs, s).value.0) && MsgOk(fs, Decode(fs, s).value.0)
  {
    hide DecNoinit, MsgInside, MsgOk;
    DefaultsInside(fs);
    NoinitInside(fs, s, DefaultMsg(fs));
    InsideOk(fs, Decode(fs, s).value.0);
  }
}
