// What a stream of records means: scalars overwrite, arrays grow, submessages merge.
module PbMerge {
  import opened Bits
  import opened Results
  import opened PbWire
  import opened PbDescriptor
  import opened PbEncodeSpec
  import opened PbDecodeSpec
  import opened PbRoundTrip
  import opened PbForward
  import opened PbSound

  // One record, by what it carries: a value, several values of a packed array, the records of a
  // submessage, or bytes that the descriptor does not know.
  datatype Part =
    | One(k: nat, v: Value)
    | Many(k: nat, vs: seq<Value>)
    | Sub(k: nat, parts: seq<Part>)
    | Other(wt: nat, tag: nat, body: seq<byte>)

  // ---------- what the records mean ----------

  ghost predicate PartOk(fs: seq<Field>, p: Part)
    requires DescriptorOk(fs)
    decreases p, 0
  {
    match p
    case One(k, v) => k < |fs| && !fs[k].ltype.Submessage? && ValueInside(fs[k], v)
    case Many(k, vs) =>
      && k < |fs| && fs[k].htype.Repeated? && Packable(fs[k].ltype)
      && (forall i: nat | i < |vs| :: ValueInside(fs[k], vs[i]))
      && |PackedBytes(fs[k], vs)| < U32
    case Sub(k, ps) =>
      && k < |fs| && fs[k].ptr.Fields?
      && (IsSub(fs[k]); PartsOk(fs[k].ptr.fields, ps) && |BytesOf(fs[k].ptr.fields, Records(fs[k].ptr.fields, ps))| < U32)
    case Other(wt, tag, body) => RecordOk(fs, Unknown(wt, tag, body))
  }

  ghost predicate PartsOk(fs: seq<Field>, ps: seq<Part>)
    requires DescriptorOk(fs)
    decreases ps, 1
  {
    ps == [] || (PartOk(fs, ps[0]) && PartsOk(fs, ps[1..]))
  }

  lemma IsSub(f: Field)
    requires FieldOk(f) && f.ptr.Fields?
    ensures f.ltype.Submessage? && DescriptorOk(f.ptr.fields)
  {
  }

  // The message that a submessage is merged into: the one already there, except in arrays and
  // unions, where each record starts anew.
  function Base(f: Field, slot: Slot): (m: Msg)
    requires f.ptr.Fields?
    ensures |m| == |f.ptr.fields|
  {
    if !slot.Rep? && !slot.Shared? && !f.htype.Repeated? && !f.htype.Oneof?
       && slot.v.MsgV? && |slot.v.slots| == |f.ptr.fields|
    then slot.v.slots
    else DefaultMsg(f.ptr.fields)
  }

  function Entries(slot: Slot): seq<Value> {
    if slot.Rep? then slot.items else []
  }

  // A value is stored, and marked as present or chosen; in an array it is appended.
  function Put(f: Field, v: Value, slot: Slot): Result<Slot> {
    match f.htype
    case Required => Ok(Single(v))
    case Optional => Ok(if f.sizeOffset == 0 then Single(v) else Flagged(true, v))
    case Oneof => Ok(OneofSlot(f.tag, v))
    case Repeated =>
      var items := Entries(slot);
      if |items| < f.arraySize then Ok(Rep(items + [v])) else Err(ArrayOverflow)
  }

  function MergePart(fs: seq<Field>, m: Msg, p: Part): (r: Result<Msg>)
    requires |m| == |fs|
    ensures r.Ok? ==> |r.value| == |fs|
    decreases p, 0
  {
    match p
    case Other(_, _, _) => Ok(m)
    case One(k, v) =>
      if k >= |fs| then Ok(m)
      else
        var slot :- Put(fs[k], v, m[Owner(fs, k)]);
        Ok(m[Owner(fs, k) := slot])
    case Many(k, vs) =>
      if k >= |fs| then Ok(m)
      else
        var slot := m[Owner(fs, k)];
        var items := Entries(slot);
        if vs != [] && |items| + |vs| > fs[k].arraySize then Err(ArrayOverflow)
        else Ok(m[Owner(fs, k) := Rep(items + vs)])
    case Sub(k, ps) =>
      if k >= |fs| || !fs[k].ptr.Fields? then Ok(m)
      else
        var slot := m[Owner(fs, k)];
        if fs[k].htype.Repeated? && |Entries(slot)| >= fs[k].arraySize then Err(ArrayOverflow)
        else
          var sub :- Merge(fs[k].ptr.fields, Base(fs[k], slot), ps);
          var slot' :- Put(fs[k], MsgV(sub), slot);
          Ok(m[Owner(fs, k) := slot'])
  }

  function MergeAll(fs: seq<Field>, m: Msg, ps: seq<Part>): (r: Result<Msg>)
    requires |m| == |fs|
    ensures r.Ok? ==> |r.value| == |fs|
    decreases ps, 1
  {
    if ps == [] then Ok(m)
    else
      var m' :- MergePart(fs, m, ps[0]);
      MergeAll(fs, m', ps[1..])
  }

  // A whole message: its records one after the other, and none of the required fields missing.
  function Merge(fs: seq<Field>, m: Msg, ps: seq<Part>): (r: Result<Msg>)
    requires |m| == |fs|
    ensures r.Ok? ==> |r.value| == |fs|
    decreases ps, 2
  {
    var m' :- MergeAll(fs, m, ps);
    if Lacks(fs, ps) then Err(MissingRequired) else Ok(m')
  }

  // No record carries some required field, which is among the first 64 of them.
  predicate Lacks(fs: seq<Field>, ps: seq<Part>) {
    exists k: nat | k < |fs| ::
      fs[k].htype.Required? && |set j: nat | j < k && fs[j].htype.Required?| < 64 && k !in Keys(ps)
  }

  function Keys(ps: seq<Part>): set<nat> {
    set i: nat | i < |ps| && !ps[i].Other? :: ps[i].k
  }

  // ---------- their bytes ----------

  function PackedBytes(f: Field, vs: seq<Value>): seq<byte> {
    if vs == [] then []
    else (if ValueOk(f, vs[0]) && EncValue(f, vs[0]).Ok? then EncValue(f, vs[0]).value else []) + PackedBytes(f, vs[1..])
  }

  function RecordOf(fs: seq<Field>, p: Part): Record
    decreases p, 0
  {
    match p
    case One(k, v) =>
      if k < |fs| && ValueOk(fs[k], v) && EncValue(fs[k], v).Ok?
      then Known(k, WireType(fs[k].ltype), EncValue(fs[k], v).value) else Known(k, WT_VARINT, [])
    case Many(k, vs) => if k < |fs| then Known(k, WT_STRING, Prefixed(PackedBytes(fs[k], vs))) else Known(k, WT_STRING, [])
    case Sub(k, ps) => if k < |fs| && fs[k].ptr.Fields? then Nested(k, Records(fs[k].ptr.fields, ps)) else Nested(k, [])
    case Other(wt, tag, body) => Unknown(wt, tag, body)
  }

  function Records(fs: seq<Field>, ps: seq<Part>): seq<Record>
    decreases ps, 1
  {
    if ps == [] then [] else [RecordOf(fs, ps[0])] + Records(fs, ps[1..])
  }

  // ---------- single values ----------

  lemma InsideEncodes(f: Field, v: Value)
    requires FieldOk(f) && !f.ltype.Submessage? && ValueInside(f, v)
    ensures ValueOk(f, v) && EncValue(f, v).Ok? && ValueShort(f, v) && ValueFits(f, v) && NormVal(f, v) == v
  {
    ValueInsideOk(f, v);
  }

  // A scalar decoder reads its value back, whatever was stored before.
  lemma ScalarReads(f: Field, v: Value, tail: seq<byte>, cur: Value)
    requires FieldOk(f) && !f.ltype.Submessage? && ValueInside(f, v)
    ensures ValueOk(f, v) && EncValue(f, v).Ok?
    ensures DecValue(f, EncValue(f, v).value + tail, cur) == Ok((v, tail))
  {
    hide DecValue, EncValue, FieldOk, ValueInside;
    InsideEncodes(f, v);
    ValueDecodes(f, v, tail, cur);
  }

  lemma OneReads(f: Field, v: Value, slot: Slot)
    requires FieldOk(f) && !f.ltype.Submessage? && ValueInside(f, v)
    ensures ValueOk(f, v) && EncValue(f, v).Ok?
    ensures DecField(f, WireType(f.ltype), EncValue(f, v).value, slot)
         == match Put(f, v, slot) case Ok(x) => Ok((x, [])) case Err(e) => Err(e)
  {
    hide DecValue, EncValue, FieldOk, ValueInside, ValueOk;
    var cur := if f.htype.Repeated? then IntV(0) else Content(slot);
    ScalarReads(f, v, [], cur);
    assert EncValue(f, v).value + [] == EncValue(f, v).value;
    assert Packable(f.ltype) ==> WireType(f.ltype) != WT_STRING;
  }

  // ---------- packed arrays ----------

  lemma {:induction false} PackedReads(f: Field, vs: seq<Value>, done: seq<Value>)
    requires FieldOk(f) && f.htype.Repeated? && Packable(f.ltype) && forall i: nat | i < |vs| :: ValueInside(f, vs[i])
    ensures DecPacked(f, PackedBytes(f, vs), done)
         == if vs != [] && |done| + |vs| > f.arraySize then Err(ArrayOverflow) else Ok(done + vs)
    decreases vs
  {
    hide DecValue, EncValue, ValueInside, ValueOk, RestOnFailure, FieldOk;
    if vs == [] {
      assert done + vs == done;
    } else {
      var rest := PackedBytes(f, vs[1..]);
      ScalarReads(f, vs[0], rest, IntV(0));
      var head := EncValue(f, vs[0]).value;
      assert PackedBytes(f, vs) == head + rest;
      assert head + rest != [] by { ReadsSomething(f, head + rest); }
      if |done| < f.arraySize {
        PackedReads(f, vs[1..], done + [vs[0]]);
        assert done + [vs[0]] + vs[1..] == done + vs;
      }
    }
  }

  lemma ReadsSomething(f: Field, s: seq<byte>)
    requires DecValue(f, s, IntV(0)).Ok?
    ensures s != []
  {
  }

  lemma ManyReads(f: Field, vs: seq<Value>, slot: Slot)
    requires FieldOk(f) && f.htype.Repeated? && Packable(f.ltype) && forall i: nat | i < |vs| :: ValueInside(f, vs[i])
    requires |PackedBytes(f, vs)| < U32
    ensures var items := Entries(slot);
            DecField(f, WT_STRING, Prefixed(PackedBytes(f, vs)), slot)
              == if vs != [] && |items| + |vs| > f.arraySize then Err(ArrayOverflow) else Ok((Rep(items + vs), []))
  {
    hide DecPacked, PackedBytes, Prefixed, Window, FieldOk, ValueInside;
    var data := PackedBytes(f, vs);
    assert Window(Prefixed(data)) == Ok((data, [])) by { WindowOf(data); }
    PackedReads(f, vs, Items(slot));
  }

  lemma WindowOf(data: seq<byte>)
    requires |data| < U32
    ensures Window(Prefixed(data)) == Ok((data, []))
  {
    hide EncVarint, DecVarint32;
    Varint32RoundTrip(|data|, data);
    assert data[..|data|] == data && data[|data|..] == [];
  }

  // ---------- the loop ----------

  lemma {:induction false} RecordsFine(fs: seq<Field>, ps: seq<Part>)
    requires DescriptorOk(fs) && PartsOk(fs, ps)
    ensures RecordsOk(fs, Records(fs, ps)) && |Records(fs, ps)| == |ps|
    decreases ps, 1
  {
    if ps != [] {
      hide RecordOk, RecordOf, PartOk;
      RecordFine(fs, ps[0]);
      RecordsFine(fs, ps[1..]);
      assert ([RecordOf(fs, ps[0])] + Records(fs, ps[1..]))[1..] == Records(fs, ps[1..]);
    }
  }

  lemma {:induction false} RecordFine(fs: seq<Field>, p: Part)
    requires DescriptorOk(fs) && PartOk(fs, p)
    ensures RecordOk(fs, RecordOf(fs, p))
    decreases p, 0
  {
    hide WholeValue, EncValue, Prefixed, FieldOk, ValueInside, ValueOk, PackedBytes;
    match p
    case One(k, v) =>
      assert FieldOk(fs[k]);
      InsideEncodes(fs[k], v);
      ScalarWhole(fs[k], v);
    case Many(k, vs) => PrefixedWhole(PackedBytes(fs[k], vs));
    case Sub(k, ps) =>
      IsSub(fs[k]);
      RecordsFine(fs[k].ptr.fields, ps);
    case Other(wt, tag, body) =>
  }

  // The slot after one record that is not a submessage.
  lemma PlainStep(fs: seq<Field>, p: Part, rest: seq<byte>, m: Msg, seen: set<nat>)
    requires DescriptorOk(fs) && |m| == |fs| && PartOk(fs, p) && !p.Sub?
    ensures DecLoop(fs, Bytes1(fs, RecordOf(fs, p)) + rest, m, seen)
         == match MergePart(fs, m, p)
            case Ok(m') => DecLoop(fs, rest, m', if p.Other? then seen else seen + {p.k})
            case Err(e) => Err(e)
  {
    hide DecLoop, EncTag, DecField, EncValue, Prefixed, FieldOk, ValueInside, ValueOk, Owner, WholeValue, PackedBytes;
    RecordFine(fs, p);
    match p
    case One(k, v) =>
      assert FieldOk(fs[k]);
      OneReads(fs[k], v, m[Owner(fs, k)]);
      KnownStep(fs, k, WireType(fs[k].ltype), EncValue(fs[k], v).value, rest, m, seen);
    case Many(k, vs) =>
      assert FieldOk(fs[k]);
      ManyReads(fs[k], vs, m[Owner(fs, k)]);
      KnownStep(fs, k, WT_STRING, Prefixed(PackedBytes(fs[k], vs)), rest, m, seen);
    case Other(wt, tag, body) => UnknownStep(fs, wt, tag, body, rest, m, seen);
  }

  lemma BaseIsStart(f: Field, slot: Slot)
    requires FieldOk(f) && f.ptr.Fields?
    ensures InitialSub(f, Start(f, slot)) == Base(f, slot)
  {
  }

  lemma StoresPut(f: Field, v: Value, slot: Slot)
    ensures Put(f, v, slot) == if f.htype.Repeated? && |Items(slot)| >= f.arraySize then Err(ArrayOverflow) else Ok(Stored(f, v, slot))
  {
  }

  lemma {:induction false} SubStep(fs: seq<Field>, p: Part, rest: seq<byte>, m: Msg, seen: set<nat>)
    requires DescriptorOk(fs) && |m| == |fs| && PartOk(fs, p) && p.Sub?
    ensures DecLoop(fs, Bytes1(fs, RecordOf(fs, p)) + rest, m, seen)
         == match MergePart(fs, m, p)
            case Ok(m') => DecLoop(fs, rest, m', seen + {p.k})
            case Err(e) => Err(e)
    decreases p, 0
  {
    hide DecLoop, EncTag, Prefixed, FieldOk, Owner, Put, Stored, Base, InitialSub, Start, Merge, DecStruct, Records, BytesOf, PartsOk;
    var f := fs[p.k];
    assert FieldOk(f);
    IsSub(f);
    var slot := m[Owner(fs, p.k)];
    var sub := BytesOf(f.ptr.fields, Records(f.ptr.fields, p.parts));
    NestedStep(fs, p.k, sub, rest, m, seen);
    BaseIsStart(f, slot);
    NoinitMerges(f.ptr.fields, p.parts, Base(f, slot));
    var r := Merge(f.ptr.fields, Base(f, slot), p.parts);
    if r.Ok? {
      StoresPut(f, MsgV(r.value), slot);
    }
    StoreSubMerges(f, sub, slot, r);
  }

  lemma StoreSubMerges(f: Field, sub: seq<byte>, slot: Slot, r: Result<Msg>)
    requires FieldOk(f) && f.ptr.Fields? && DecStruct(f.ptr.fields, sub, Base(f, slot)) == r
    ensures StoreSub(f, sub, slot)
         == if f.htype.Repeated? && |Entries(slot)| >= f.arraySize then Err(ArrayOverflow)
            else match r case Ok(m) => Put(f, MsgV(m), slot) case Err(e) => Err(e)
  {
    hide DecStruct, Base, InitialSub, Start, FieldOk;
    BaseIsStart(f, slot);
  }

  lemma KeysCons(p: Part, ps: seq<Part>)
    ensures Keys([p] + ps) == if p.Other? then Keys(ps) else {p.k} + Keys(ps)
  {
    var all := [p] + ps;
    assert all[0] == p && forall i: nat | i < |ps| :: all[i + 1] == ps[i];
    forall k
      ensures k in Keys(all) <==> (!p.Other? && k == p.k) || k in Keys(ps)
    {
      if k in Keys(ps) {
        var i: nat :| i < |ps| && !ps[i].Other? && ps[i].k == k;
        assert all[i + 1].k == k;
      }
      if k in Keys(all) {
        var i: nat :| i < |all| && !all[i].Other? && all[i].k == k;
        if i > 0 {
          assert ps[i - 1].k == k;
        }
      }
    }
  }

  // The loop is the fold of the records, and remembers the fields that it has seen.
  lemma {:induction false} LoopMerges(fs: seq<Field>, ps: seq<Part>, m: Msg, seen: set<nat>)
    requires DescriptorOk(fs) && |m| == |fs| && PartsOk(fs, ps)
    ensures DecLoop(fs, BytesOf(fs, Records(fs, ps)), m, seen)
         == match MergeAll(fs, m, ps)
            case Ok(m') => Ok(Loop(m', seen + Keys(ps), []))
            case Err(e) => Err(e)
    decreases ps, 1
  {
    if ps == [] {
      assert seen + Keys(ps) == seen;
    } else {
      hide DecLoop, Bytes1, RecordOf, MergePart, PartOk, DescriptorOk, Keys;
      var rest := Records(fs, ps[1..]);
      StripHead(fs, RecordOf(fs, ps[0]), rest);
      assert [ps[0]] + ps[1..] == ps;
      KeysCons(ps[0], ps[1..]);
      if ps[0].Sub? {
        SubStep(fs, ps[0], BytesOf(fs, rest), m, seen);
      } else {
        PlainStep(fs, ps[0], BytesOf(fs, rest), m, seen);
      }
      var r := MergePart(fs, m, ps[0]);
      if r.Ok? {
        var seen' := if ps[0].Other? then seen else seen + {ps[0].k};
        LoopMerges(fs, ps[1..], r.value, seen');
        assert seen' + Keys(ps[1..]) == seen + Keys(ps);
      }
    }
  }

  lemma {:induction false} RankIsCount(fs: seq<Field>, k: nat)
    requires k <= |fs|
    ensures RequiredBefore(fs, k) == |set j: nat | j < k && fs[j].htype.Required?|
  {
    var s := set j: nat | j < k && fs[j].htype.Required?;
    if k == 0 {
      assert s == {};
    } else {
      RankIsCount(fs, k - 1);
      var t := set j: nat | j < k - 1 && fs[j].htype.Required?;
      assert s == if fs[k - 1].htype.Required? then t + {k - 1} else t;
    }
  }

  lemma LacksIsMissing(fs: seq<Field>, ps: seq<Part>)
    ensures MissesRequired(fs, Keys(ps)) <==> Lacks(fs, ps)
  {
    hide Keys;
    forall k: nat | k < |fs|
      ensures RequiredBefore(fs, k) == |set j: nat | j < k && fs[j].htype.Required?|
    {
      RankIsCount(fs, k);
    }
  }

  lemma {:induction false} NoinitMerges(fs: seq<Field>, ps: seq<Part>, m: Msg)
    requires DescriptorOk(fs) && |m| == |fs| && PartsOk(fs, ps)
    ensures DecNoinit(fs, BytesOf(fs, Records(fs, ps)), m)
         == match Merge(fs, m, ps) case Ok(m') => Ok((m', [])) case Err(e) => Err(e)
    ensures DecStruct(fs, BytesOf(fs, Records(fs, ps)), m) == Merge(fs, m, ps)
    decreases ps, 2
  {
    hide DecLoop, MergeAll, Records, BytesOf, MissesRequired, Lacks, Keys;
    LoopMerges(fs, ps, m, {});
    assert {} + Keys(ps) == Keys(ps);
    LacksIsMissing(fs, ps);
  }

  // The meaning of a stream: every record in turn changes the message that begins with the
  // defaults, and in the end none of the required fields may be missing.
  lemma DecodeMerges(fs: seq<Field>, ps: seq<Part>)
    requires DescriptorOk(fs) && PartsOk(fs, ps)
    ensures Decode(fs, BytesOf(fs, Records(fs, ps)))
         == match Merge(fs, DefaultMsg(fs), ps) case Ok(m) => Ok((m, [])) case Err(e) => Err(e)
  {
    hide DecNoinit, Merge, Records, BytesOf;
    NoinitMerges(fs, ps, DefaultMsg(fs));
  }
}
