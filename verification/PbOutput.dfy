// pb_ostream_t and the encoder loops of pb_encode.c.
module PbOutput {
  import opened Bits
  import opened Results
  import opened PbWire
  import opened PbDescriptor
  import opened PbEncodeSpec
  import opened PbIterator

  // ---------- what an encoder does to its stream ----------

  // The state of a stream and the memory it writes to.
  datatype Out = Out(sizing: bool, maxSize: nat, written: nat, state: nat, mem: seq<byte>, err: Option<Error>)

  predicate OutOk(s: Out) {
    s.sizing || (s.written <= s.maxSize && s.state + (s.maxSize - s.written) <= |s.mem|)
  }

  predicate Fits(s: Out, n: nat) {
    s.sizing || s.written + n <= s.maxSize
  }

  function Append(s: Out, data: seq<byte>): (t: Out)
    requires OutOk(s) && Fits(s, |data|)
    ensures OutOk(t) && |t.mem| == |s.mem|
  {
    if s.sizing then s.(written := s.written + |data|)
    else s.(written := s.written + |data|, state := s.state + |data|,
            mem := s.mem[..s.state] + data + s.mem[s.state + |data|..])
  }

  // Only the part of the memory that the stream may still fill has changed.
  predicate Confined(s: Out, t: Out)
    requires OutOk(s)
  {
    && OutOk(t) && t.sizing == s.sizing && t.maxSize == s.maxSize && |t.mem| == |s.mem|
    && s.written <= t.written
    && if s.sizing then t.mem == s.mem && t.state == s.state
       else
         && t.state - t.written == s.state - s.written
         && t.mem[..s.state] == s.mem[..s.state]
         && t.mem[s.state + (s.maxSize - s.written)..] == s.mem[s.state + (s.maxSize - s.written)..]
  }

  // Error messages that an encoder leaves in a stream that had none.
  predicate Reported(s: Out, enc: Result<seq<byte>>, ok: bool, t: Out) {
    if ok then t.err == None
    else if enc.Ok? then t.err == Some(StreamFull)
    else t.err == None || t.err == Some(enc.error) || (!s.sizing && t.err == Some(StreamFull))
  }

  // The encoder with the outcome enc took the stream from s to t and returned ok.
  predicate Emits(s: Out, enc: Result<seq<byte>>, ok: bool, t: Out)
    requires OutOk(s)
  {
    && (ok <==> enc.Ok? && Fits(s, |enc.value|))
    && (ok ==> t == Append(s, enc.value).(err := t.err))
    && Confined(s, t)
    && (s.err == None ==> Reported(s, enc, ok, t))
  }

  lemma AppendConfined(s: Out, data: seq<byte>, e: Option<Error>)
    requires OutOk(s) && Fits(s, |data|)
    ensures Confined(s, Append(s, data).(err := e))
  {
    var t := Append(s, data);
    if !s.sizing {
      var limit := s.state + (s.maxSize - s.written);
      assert t.mem[limit..] == s.mem[limit..];
    }
  }

  lemma AppendTwice(s: Out, a: seq<byte>, b: seq<byte>, e: Option<Error>)
    requires OutOk(s) && Fits(s, |a|) && Fits(Append(s, a), |b|)
    ensures Fits(s, |a + b|)
    ensures Append(Append(s, a).(err := e), b) == Append(s, a + b).(err := e)
  {
    if !s.sizing {
      var p := s.mem[..s.state];
      var t := Append(s, a);
      assert t.mem[..t.state] == p + a;
      assert t.mem[t.state + |b|..] == s.mem[s.state + |a + b|..];
      assert (p + a) + b == p + (a + b);
    }
  }

  lemma ConfinedTwice(s: Out, t: Out, u: Out)
    requires OutOk(s) && Confined(s, t) && Confined(t, u)
    ensures Confined(s, u)
  {
    if !s.sizing {
      var limit := s.state + (s.maxSize - s.written);
      assert t.state + (t.maxSize - t.written) == limit;
      PrefixOf(u.mem, t.mem, t.state, s.state);
    }
  }

  lemma PrefixOf(a: seq<byte>, b: seq<byte>, n: nat, k: nat)
    requires k <= n <= |a| && n <= |b| && a[..n] == b[..n]
    ensures a[..k] == b[..k]
  {
    assert a[..k] == a[..n][..k];
    assert b[..k] == b[..n][..k];
  }

  // Two encoders in sequence.
  lemma Then(s: Out, a: Result<seq<byte>>, t: Out, b: Result<seq<byte>>, ok: bool, u: Out)
    requires OutOk(s) && Emits(s, a, true, t) && Emits(t, b, ok, u)
    ensures Emits(s, Plus(a, b), ok, u) && (ok ==> b.Ok?)
  {
    hide Append, Confined;
    ConfinedTwice(s, t, u);
    AppendFields(s, a.value);
    assert b.Ok? ==> (Fits(t, |b.value|) <==> Fits(s, |a.value + b.value|));
    if ok {
      AppendTwice(s, a.value, b.value, t.err);
    }
  }

  lemma AppendFields(s: Out, data: seq<byte>)
    requires OutOk(s) && Fits(s, |data|)
    ensures var t := Append(s, data);
            t.written == s.written + |data| && t.sizing == s.sizing && t.maxSize == s.maxSize
  {
  }

  // A failure ends the sequence.
  lemma Stops(s: Out, a: Result<seq<byte>>, t: Out, b: Result<seq<byte>>)
    requires OutOk(s) && Emits(s, a, false, t)
    ensures Emits(s, Plus(a, b), false, t)
  {
  }

  lemma EmitsNothing(s: Out)
    requires OutOk(s)
    ensures Emits(s, Ok([]), true, s)
  {
    if !s.sizing {
      assert s.mem[..s.state] + [] + s.mem[s.state..] == s.mem;
    }
  }

  // ---------- sizes ----------

  predicate Below64(enc: Result<seq<byte>>) {
    enc.Ok? ==> |enc.value| < U64
  }

  // Every length prefix fits size_t, at every level.
  predicate SizedVal(f: Field, v: Value)
    requires ValueOk(f, v)
    decreases v, 0
  {
    f.ltype.Submessage? ==> Below64(EncFrom(f.ptr.fields, v.slots, 0)) && SizedMsg(f.ptr.fields, v.slots)
  }

  predicate SizedItems(f: Field, items: seq<Value>)
    requires forall x | x in items :: ValueOk(f, x)
    decreases items, 1
  {
    (Packable(f.ltype) ==> Below64(EncPacked(f, items))) && forall i: nat | i < |items| :: SizedVal(f, items[i])
  }

  predicate SizedField(f: Field, s: Slot)
    requires Holds(f, s)
    decreases s, 2
  {
    match f.htype
    case Required => SizedVal(f, s.v)
    case Optional => (if f.sizeOffset != 0 then s.has else !ValueIsZero(f, s.v)) ==> SizedVal(f, s.v)
    case Repeated => SizedItems(f, s.items)
    case Oneof => s.which == f.tag ==> SizedVal(f, s.v)
  }

  predicate SizedMsg(fs: seq<Field>, m: Msg)
    requires MsgOk(fs, m)
    decreases m, 3
  {
    forall k: nat | k < |fs| :: OwnerHolds(fs, k, m); SizedField(fs[k], m[Owner(fs, k)])
  }

  // ---------- compositions ----------

  lemma PlusNothing(a: Result<seq<byte>>)
    ensures Plus(Ok([]), a) == a && Plus(a, Ok([])) == a
  {
    if a.Ok? {
      assert [] + a.value == a.value && a.value + [] == a.value;
    }
  }

  lemma PlusAssociates(a: Result<seq<byte>>, b: Result<seq<byte>>, c: Result<seq<byte>>)
    ensures Plus(a, Plus(b, c)) == Plus(Plus(a, b), c)
    ensures a.Ok? && b.Ok? ==> Plus(a, b) == Ok(a.value + b.value)
  {
    if a.Ok? && b.Ok? && c.Ok? {
      assert a.value + (b.value + c.value) == (a.value + b.value) + c.value;
    }
  }

  // A length prefix in front of an outcome.
  function Framed(enc: Result<seq<byte>>): Result<seq<byte>> {
    if enc.Err? then enc else Ok(Prefixed(enc.value))
  }

  // The encoding pass of a submessage into the room that the sizing pass measured.
  lemma SubstreamWrites(s: Out, data: seq<byte>, ok: bool, u: Out)
    requires OutOk(s) && !s.sizing && Fits(s, |data|)
    requires Emits(Out(false, |data|, 0, s.state, s.mem, None), Ok(data), ok, u)
    ensures ok && u.written == |data| && OutOk(Out(false, s.maxSize, s.written + u.written, u.state, u.mem, u.err))
    ensures Emits(s, Ok(data), true, Out(false, s.maxSize, s.written + u.written, u.state, u.mem, u.err))
  {
    AppendConfined(s, data, u.err);
  }

  lemma NextField(fs: seq<Field>, m: Msg, k: nat)
    requires DescriptorSizes(fs) && MsgOk(fs, m) && SizedMsg(fs, m) && k < |fs|
    ensures |m| == |fs| && Holds(fs[k], m[Owner(fs, k)]) && FieldSizes(fs[k]) && SizedField(fs[k], m[Owner(fs, k)])
    ensures EncFrom(fs, m, k) == Plus(EncField(fs[k], m[Owner(fs, k)]), EncFrom(fs, m, k + 1))
  {
    hide SlotOk, Holds, FieldSizes, SizedField, EncField;
    OwnerHolds(fs, k, m);
  }

  lemma NoFieldsLeft(fs: seq<Field>, m: Msg)
    requires MsgOk(fs, m)
    ensures EncFrom(fs, m, |fs|) == Ok([])
  {
  }

  const SIZING: Out := Out(true, 0, 0, 0, [], None)

  // The measuring pass fails only with the error of the message itself.
  lemma SizingOutcome(enc: Result<seq<byte>>, ok: bool, u: Out)
    requires Emits(SIZING, enc, ok, u)
    ensures ok <==> enc.Ok?
    ensures ok ==> u.written == |enc.value|
    ensures !ok ==> u.err == None || u.err == Some(enc.error)
  {
  }

  lemma NoRoom(s: Out, data: seq<byte>, u: Out)
    requires OutOk(s) && !Fits(s, |data|) && Emits(s, Err(StreamFull), false, u)
    requires s.err == None ==> u.err == Some(StreamFull)
    ensures Emits(s, Ok(data), false, u)
  {
  }

  lemma FailsWith(s: Out, enc: Result<seq<byte>>, e: Option<Error>)
    requires OutOk(s) && enc.Err? && (s.err == None ==> e == None || e == Some(enc.error))
    ensures Emits(s, enc, false, s.(err := e))
  {
  }

  // ---------- the stream ----------

  class OStream {
    var sizing: bool            // callback == NULL
    var buf: array<byte>
    var state: nat              // offset of the next byte in buf
    var maxSize: nat
    var bytesWritten: nat
    var errmsg: Option<Error>

    ghost function Snap(): Out
      reads this, buf
    {
      Out(sizing, maxSize, bytesWritten, state, buf[..], errmsg)
    }

    ghost predicate Valid()
      reads this, buf
    {
      OutOk(Snap())
    }

    // PB_OSTREAM_SIZING.
    constructor Sizing()
      ensures Valid() && fresh(buf) && Snap() == SIZING
    {
      sizing, state, maxSize, bytesWritten, errmsg := true, 0, 0, 0, None;
      buf := new byte[0];
    }

    // pb_ostream_from_buffer, and the substream of pb_encode_submessage at a later state.
    constructor FromBuffer(memory: array<byte>, at: nat, size: nat)
      requires at + size <= memory.Length
      ensures Valid() && buf == memory && Snap() == Out(false, size, 0, at, memory[..], None)
    {
      sizing, buf, state, maxSize, bytesWritten, errmsg := false, memory, at, size, 0, None;
    }

    // PB_RETURN_ERROR: the first message stays.
    method SetError(e: Error)
      modifies this`errmsg
      ensures errmsg == if old(errmsg).Some? then old(errmsg) else Some(e)
    {
      if errmsg.None? {
        errmsg := Some(e);
      }
    }

    // buf_write.
    method BufWrite(data: seq<byte>)
      requires state + |data| <= buf.Length
      modifies this`state, buf
      ensures state == old(state) + |data|
      ensures buf[..] == old(buf[..])[..old(state)] + data + old(buf[..])[old(state) + |data|..]
    {
      var dest := state;
      state := dest + |data|;
      var i := 0;
      while i < |data|
        invariant 0 <= i <= |data|
        invariant buf == old(buf) && state == dest + |data|
        invariant buf[..] == old(buf[..])[..dest] + data[..i] + old(buf[..])[dest + i..]
      {
        ghost var before := buf[..];
        buf[dest + i] := data[i];
        assert buf[..] == before[dest + i := data[i]];
        i := i + 1;
      }
      assert data[..i] == data;
    }

    // pb_write.
    method Write(data: seq<byte>) returns (ok: bool)
      requires Valid()
      modifies this, buf
      ensures buf == old(buf) && Valid()
      ensures Emits(old(Snap()), Ok(data), ok, Snap())
    {
      ghost var s := Snap();
      if !sizing {
        if bytesWritten + |data| > maxSize {
          SetError(StreamFull);
          return false;
        }
        BufWrite(data);
      }
      bytesWritten := bytesWritten + |data|;
      AppendConfined(s, data, errmsg);
      return true;
    }

    // pb_write with a null buffer: only the length matters.
    method WriteNull(count: nat, ghost data: seq<byte>)
      requires Valid() && sizing && |data| == count
      modifies this`bytesWritten
      ensures Valid() && Emits(old(Snap()), Ok(data), true, Snap())
    {
      bytesWritten := bytesWritten + count;
    }

    // pb_encode_varint.
    method EncodeVarint(v: nat) returns (ok: bool)
      requires Valid() && v < U64
      modifies this, buf
      ensures buf == old(buf) && Valid()
      ensures Emits(old(Snap()), Ok(EncVarint(v)), ok, Snap())
    {
      if v <= 0x7F {
        ok := Write([v]);
      } else {
        var buffer, i := VarintGroups(v);
        ok := Write(buffer[..i]);
      }
    }

    // pb_encode_tag.
    method EncodeTag(wt: nat, tag: nat) returns (ok: bool)
      requires Valid() && wt < 8 && tag < U32
      modifies this, buf
      ensures buf == old(buf) && Valid()
      ensures Emits(old(Snap()), Ok(EncTag(wt, tag)), ok, Snap())
    {
      ok := EncodeVarint(tag * 8 + wt);
    }

    // pb_encode_string.
    method EncodeString(data: seq<byte>) returns (ok: bool)
      requires Valid() && |data| < U64
      modifies this, buf
      ensures buf == old(buf) && Valid()
      ensures Emits(old(Snap()), Ok(Prefixed(data)), ok, Snap())
    {
      ghost var s := Snap();
      assert OutOk(s);
      PrefixedPlus(data);
      ok := EncodeVarint(|data|);
      ghost var t := Snap();
      hide *;
      if !ok {
        Stops(s, Ok(EncVarint(|data|)), t, Ok(data));
        return false;
      }
      ok := Write(data);
      Then(s, Ok(EncVarint(|data|)), t, Ok(data), ok, Snap());
    }

    // The field encoders of PB_ENCODERS but for submessages.
    method EncodeScalar(f: Field, v: Value) returns (ok: bool)
      requires Valid() && FieldSizes(f) && ValueOk(f, v) && !f.ltype.Submessage?
      modifies this, buf
      ensures buf == old(buf) && Valid()
      ensures Emits(old(Snap()), EncValue(f, v), ok, Snap())
    {
      hide Emits, Append, Confined, EncVarint, LittleEndian, OutOk;
      match f.ltype {
        case Varint =>
          if IntSize(f.dataSize) {
            ok := EncodeVarint(ToU64(v.i));
          } else {
            ok := Fail(InvalidDataSize);
          }
        case Uvarint =>
          if IntSize(f.dataSize) {
            ok := EncodeVarint(v.i);
          } else {
            ok := Fail(InvalidDataSize);
          }
        case Svarint =>
          if IntSize(f.dataSize) {
            ok := EncodeVarint(ZigZag(v.i));
          } else {
            ok := Fail(InvalidDataSize);
          }
        case Fixed32 =>
          var bytes := Fixed32Bytes(v.i);
          ok := Write(bytes);
        case Fixed64 =>
          var bytes := Fixed64Bytes(v.i);
          ok := Write(bytes);
        case Bytes =>
          if |v.b| + BYTES_HEADER > f.dataSize {
            ok := Fail(BytesSizeExceeded);
          } else {
            ok := EncodeString(v.b);
          }
        case Str =>
          var size := StringLength(v.b, f.dataSize);
          assert v.b[..size] == v.b;
          ok := EncodeString(v.b[..size]);
        case FixedLengthBytes =>
          ok := EncodeString(v.b);
      }
    }

    // pb_enc_submessage and pb_encode_submessage: measure, write the length, write the message.
    method EncodeSubmessage(fs: seq<Field>, m: Msg) returns (ok: bool)
      requires Valid() && DescriptorSizes(fs) && MsgOk(fs, m) && SizedMsg(fs, m) && Below64(EncFrom(fs, m, 0))
      modifies this, buf
      ensures buf == old(buf) && Valid()
      ensures Emits(old(Snap()), Framed(EncFrom(fs, m, 0)), ok, Snap())
      decreases m, 7
    {
      hide Emits, Append, Confined, EncFrom, EncVarint, Prefixed, MsgOk, SizedMsg, DescriptorSizes;
      ghost var s := Snap();
      ghost var enc := EncFrom(fs, m, 0);
      var substream := new OStream.Sizing();
      var status := substream.Encode(fs, m);
      SizingOutcome(enc, status, substream.Snap());
      if !status {
        errmsg := substream.errmsg;
        FailsWith(s, Framed(enc), errmsg);
        return false;
      }
      var size := substream.bytesWritten;
      PrefixedPlus(enc.value);
      status := EncodeVarint(size);
      ghost var t := Snap();
      if !status {
        Stops(s, Ok(EncVarint(size)), t, Ok(enc.value));
        return false;
      }
      if sizing {
        WriteNull(size, enc.value);
        Then(s, Ok(EncVarint(size)), t, Ok(enc.value), true, Snap());
        return true;
      }
      ok := EncodeMeasured(fs, m, size);
      Then(s, Ok(EncVarint(size)), t, Ok(enc.value), ok, Snap());
    }

    // The writing pass of pb_encode_submessage.
    method EncodeMeasured(fs: seq<Field>, m: Msg, size: nat) returns (ok: bool)
      requires Valid() && !sizing && DescriptorSizes(fs) && MsgOk(fs, m) && SizedMsg(fs, m)
      requires EncFrom(fs, m, 0).Ok? && |EncFrom(fs, m, 0).value| == size
      modifies this, buf
      ensures buf == old(buf) && Valid()
      ensures Emits(old(Snap()), EncFrom(fs, m, 0), ok, Snap())
      decreases m, 6
    {
      hide Emits, Append, Confined, EncFrom, MsgOk, SizedMsg, DescriptorSizes;
      ghost var s := Snap();
      ghost var data := EncFrom(fs, m, 0).value;
      if bytesWritten + size > maxSize {
        ok := Fail(StreamFull);
        NoRoom(s, data, Snap());
        return false;
      }
      var substream := new OStream.FromBuffer(buf, state, size);
      var status := substream.Encode(fs, m);
      SubstreamWrites(s, data, status, substream.Snap());
      bytesWritten := bytesWritten + substream.bytesWritten;
      state := substream.state;
      errmsg := substream.errmsg;
      if substream.bytesWritten != size {
        assert false;  // "submsg size changed" never happens
      }
      return status;
    }

    method EncodeValue(f: Field, v: Value) returns (ok: bool)
      requires Valid() && FieldSizes(f) && ValueOk(f, v) && SizedVal(f, v)
      modifies this, buf
      ensures buf == old(buf) && Valid()
      ensures Emits(old(Snap()), EncValue(f, v), ok, Snap())
      decreases v, 0
    {
      if f.ltype.Submessage? {
        hide Emits, EncFrom, MsgOk, SizedMsg, DescriptorSizes, OutOk, Snap;
        ok := EncodeSubmessage(f.ptr.fields, v.slots);
      } else {
        ok := EncodeScalar(f, v);
      }
    }

    // pb_encode_tag_for_field and the field encoder.
    method EncodeTagged(f: Field, v: Value) returns (ok: bool)
      requires Valid() && FieldSizes(f) && ValueOk(f, v) && SizedVal(f, v)
      modifies this, buf
      ensures buf == old(buf) && Valid()
      ensures Emits(old(Snap()), EncTagged(f, v), ok, Snap())
      decreases v, 1
    {
      hide Emits, EncValue, EncTag, ValueOk, OutOk, Snap;
      ghost var s := Snap();
      ghost var tag := EncTag(WireType(f.ltype), f.tag);
      ok := EncodeTag(WireType(f.ltype), f.tag);
      ghost var t := Snap();
      if !ok {
        Stops(s, Ok(tag), t, EncValue(f, v));
        return false;
      }
      ok := EncodeValue(f, v);
      Then(s, Ok(tag), t, EncValue(f, v), ok, Snap());
    }

    // The loop over the entries of a packed array, both for sizing and for writing.
    method EncodePacked(f: Field, items: seq<Value>) returns (ok: bool)
      requires Valid() && FieldSizes(f) && (forall x | x in items :: ValueOk(f, x)) && SizedItems(f, items)
      modifies this, buf
      ensures buf == old(buf) && Valid()
      ensures Emits(old(Snap()), EncPacked(f, items), ok, Snap())
      decreases items, 2
    {
      hide Emits, EncValue, ValueOk, OutOk, Snap, FieldSizes, SizedVal, Plus;
      ghost var s := Snap();
      ghost var done: seq<byte> := [];
      EmitsNothing(s);
      PlusNothing(EncPacked(f, items));
      var i := 0;
      while i < |items|
        invariant 0 <= i <= |items| && buf == old(buf) && Valid() && Emits(s, Ok(done), true, Snap())
        invariant Plus(Ok(done), EncPacked(f, items[i..])) == EncPacked(f, items)
      {
        ghost var t := Snap();
        ghost var head, rest := EncValue(f, items[i]), EncPacked(f, items[i + 1..]);
        assert items[i..][1..] == items[i + 1..];
        assert EncPacked(f, items[i..]) == Plus(head, rest);
        PlusAssociates(Ok(done), head, rest);
        ok := EncodeValue(f, items[i]);
        Then(s, Ok(done), t, head, ok, Snap());
        if !ok {
          Stops(s, Plus(Ok(done), head), Snap(), rest);
          return false;
        }
        done := done + head.value;
        i := i + 1;
      }
      PlusNothing(Ok(done));
      return true;
    }

    // The packed branch of encode_array.
    method EncodePackedArray(f: Field, items: seq<Value>) returns (ok: bool)
      requires Valid() && FieldSizes(f) && Packable(f.ltype)
      requires (forall x | x in items :: ValueOk(f, x)) && SizedItems(f, items)
      modifies this, buf
      ensures buf == old(buf) && Valid()
      ensures Emits(old(Snap()), Plus(Ok(EncTag(WT_STRING, f.tag)), Framed(EncPacked(f, items))), ok, Snap())
      decreases items, 4
    {
      hide Emits, EncPacked, ValueOk, OutOk, Snap, Plus, EncVarint, EncTag, SizedVal, Confined;
      ghost var s := Snap();
      ghost var tag, enc := EncTag(WT_STRING, f.tag), EncPacked(f, items);
      ok := EncodeTag(WT_STRING, f.tag);
      ghost var t := Snap();
      if !ok {
        Stops(s, Ok(tag), t, Framed(enc));
        return false;
      }
      var size := 0;
      if f.ltype.Fixed32? {
        size := 4 * |items|;
        FixedPacked(f, items, 4);
      } else if f.ltype.Fixed64? {
        size := 8 * |items|;
        FixedPacked(f, items, 8);
      } else {
        var sizestream := new OStream.Sizing();
        ok := sizestream.EncodePacked(f, items);
        SizingOutcome(enc, ok, sizestream.Snap());
        if !ok {
          FailsWith(t, enc, t.err);
          Then(s, Ok(tag), t, enc, false, t);
          return false;
        }
        size := sizestream.bytesWritten;
        SizingSnap(sizestream);
      }
      ok := EncodeSized(f, items, size);
      Then(s, Ok(tag), t, Framed(enc), ok, Snap());
    }

    // The length of a packed array and its entries.
    method EncodeSized(f: Field, items: seq<Value>, size: nat) returns (ok: bool)
      requires Valid() && FieldSizes(f) && Packable(f.ltype)
      requires (forall x | x in items :: ValueOk(f, x)) && SizedItems(f, items)
      requires EncPacked(f, items).Ok? && |EncPacked(f, items).value| == size
      modifies this, buf
      ensures buf == old(buf) && Valid()
      ensures Emits(old(Snap()), Framed(EncPacked(f, items)), ok, Snap())
      decreases items, 3
    {
      hide Emits, EncPacked, ValueOk, OutOk, Snap, Plus, EncVarint, SizedVal, Confined;
      ghost var s := Snap();
      ghost var data := EncPacked(f, items).value;
      PrefixedPlus(data);
      ok := EncodeVarint(size);
      ghost var t := Snap();
      if !ok {
        Stops(s, Ok(EncVarint(size)), t, Ok(data));
        return false;
      }
      if sizing {
        WriteNull(size, data);
        Then(s, Ok(EncVarint(size)), t, Ok(data), true, Snap());
        return true;
      }
      ok := EncodePacked(f, items);
      Then(s, Ok(EncVarint(size)), t, Ok(data), ok, Snap());
    }

    // The unpacked branch of encode_array.
    method EncodeUnpacked(f: Field, items: seq<Value>) returns (ok: bool)
      requires Valid() && FieldSizes(f) && (forall x | x in items :: ValueOk(f, x)) && SizedItems(f, items)
      modifies this, buf
      ensures buf == old(buf) && Valid()
      ensures Emits(old(Snap()), EncUnpacked(f, items), ok, Snap())
      decreases items, 2
    {
      hide Emits, EncTagged, ValueOk, OutOk, Snap, FieldSizes, SizedVal, Plus;
      ghost var s := Snap();
      ghost var done: seq<byte> := [];
      EmitsNothing(s);
      PlusNothing(EncUnpacked(f, items));
      var i := 0;
      while i < |items|
        invariant 0 <= i <= |items| && buf == old(buf) && Valid() && Emits(s, Ok(done), true, Snap())
        invariant Plus(Ok(done), EncUnpacked(f, items[i..])) == EncUnpacked(f, items)
      {
        ghost var t := Snap();
        ghost var head, rest := EncTagged(f, items[i]), EncUnpacked(f, items[i + 1..]);
        assert items[i..][1..] == items[i + 1..];
        assert EncUnpacked(f, items[i..]) == Plus(head, rest);
        PlusAssociates(Ok(done), head, rest);
        ok := EncodeTagged(f, items[i]);
        Then(s, Ok(done), t, head, ok, Snap());
        if !ok {
          Stops(s, Plus(Ok(done), head), Snap(), rest);
          return false;
        }
        done := done + head.value;
        i := i + 1;
      }
      PlusNothing(Ok(done));
      return true;
    }

    // encode_array.
    method EncodeArray(f: Field, items: seq<Value>) returns (ok: bool)
      requires Valid() && FieldSizes(f) && (forall x | x in items :: ValueOk(f, x)) && SizedItems(f, items)
      modifies this, buf
      ensures buf == old(buf) && Valid()
      ensures Emits(old(Snap()), EncArray(f, items), ok, Snap())
      decreases items, 5
    {
      hide Emits, EncPacked, EncUnpacked, ValueOk, OutOk, Snap, EncTag, Prefixed, SizedItems;
      EmitsNothing(Snap());
      if |items| == 0 {
        return true;
      }
      if |items| > f.arraySize {
        ok := Fail(ArraySizeExceeded);
      } else if Packable(f.ltype) {
        ok := EncodePackedArray(f, items);
      } else {
        ok := EncodeUnpacked(f, items);
      }
    }

    // encode_basic_field.
    method EncodeField(f: Field, s: Slot) returns (ok: bool)
      requires Valid() && FieldSizes(f) && Holds(f, s) && SizedField(f, s)
      modifies this, buf
      ensures buf == old(buf) && Valid()
      ensures Emits(old(Snap()), EncField(f, s), ok, Snap())
      decreases s, 5
    {
      hide Emits, EncArray, EncTagged, ValueOk, OutOk, Snap, SizedItems, SizedVal, FieldSizes, ValueIsZero;
      EmitsNothing(Snap());
      var implicitHas := true;
      if f.htype.Optional? && f.sizeOffset == 0 {
        var zero := CheckDefault(f, s);
        implicitHas := !zero;
      }
      match f.htype {
        case Required =>
          ok := EncodeTagged(f, s.v);
        case Optional =>
          if (f.sizeOffset != 0 && s.has) || (f.sizeOffset == 0 && implicitHas) {
            ok := EncodeTagged(f, s.v);
          } else {
            ok := true;
          }
        case Repeated =>
          ok := EncodeArray(f, s.items);
        case Oneof =>
          if s.which == f.tag {
            ok := EncodeTagged(f, s.v);
          } else {
            ok := true;
          }
      }
    }

    // One turn of pb_encode: done holds the bytes of the fields before k.
    method EncodeAt(fs: seq<Field>, m: Msg, k: nat, ghost s: Out, ghost done: seq<byte>)
      returns (ok: bool, ghost done': seq<byte>)
      requires Valid() && DescriptorSizes(fs) && MsgOk(fs, m) && SizedMsg(fs, m) && k < |fs|
      requires OutOk(s) && Emits(s, Ok(done), true, Snap()) && Plus(Ok(done), EncFrom(fs, m, k)) == EncFrom(fs, m, 0)
      modifies this, buf
      ensures buf == old(buf) && Valid()
      ensures ok ==> Emits(s, Ok(done'), true, Snap()) && Plus(Ok(done'), EncFrom(fs, m, k + 1)) == EncFrom(fs, m, 0)
      ensures !ok ==> Emits(s, EncFrom(fs, m, 0), false, Snap())
      decreases m, 4
    {
      hide *;
      NextField(fs, m, k);
      ghost var t := Snap();
      ghost var head, rest := EncField(fs[k], m[Owner(fs, k)]), EncFrom(fs, m, k + 1);
      PlusAssociates(Ok(done), head, rest);
      ok := EncodeField(fs[k], m[Owner(fs, k)]);
      Then(s, Ok(done), t, head, ok, Snap());
      if ok {
        done' := done + head.value;
      } else {
        done' := done;
        Stops(s, Plus(Ok(done), head), Snap(), rest);
      }
    }

    // pb_encode. The slot under the iterator is the one at the address it has reached.
    method Encode(fs: seq<Field>, m: Msg) returns (ok: bool)
      requires Valid() && DescriptorSizes(fs) && MsgOk(fs, m) && SizedMsg(fs, m)
      modifies this, buf
      ensures buf == old(buf) && Valid()
      ensures Emits(old(Snap()), EncFrom(fs, m, 0), ok, Snap())
      decreases m, 5
    {
      hide *;
      ghost var s := Snap();
      ghost var done: seq<byte> := [];
      StartsEmpty(this);
      PlusNothing(EncFrom(fs, m, 0));
      NoFieldsLeft(fs, m);
      var iter := new FieldIter(fs, 0);
      var more := iter.Begin();
      while more
        invariant iter.Valid() && iter.start == fs && (more ==> iter.pos < |fs|)
        invariant buf == old(buf) && Valid() && Emits(s, Ok(done), true, Snap())
        invariant Plus(Ok(done), EncFrom(fs, m, if more then iter.pos else |fs|)) == EncFrom(fs, m, 0)
        decreases if more then |fs| - iter.pos else 0
      {
        ok, done := EncodeAt(fs, m, iter.pos, s, done);
        if !ok {
          return false;
        }
        more := iter.Next();
      }
      PlusNothing(Ok(done));
      return true;
    }

    // PB_RETURN_ERROR as the whole outcome of an encoder.
    method Fail(e: Error) returns (ok: bool)
      requires Valid()
      modifies this`errmsg
      ensures Valid() && !ok && Emits(old(Snap()), Err(e), ok, Snap())
      ensures old(errmsg).None? ==> errmsg == Some(e)
    {
      SetError(e);
      ok := false;
    }
  }

  // pb_encode_fixed32: the bytes of the value, each shifted right by eight more bits.
  method Fixed32Bytes(v: nat) returns (bytes: seq<byte>)
    requires v < U32
    ensures bytes == LittleEndian(v, 4)
  {
    var v1 := v / 256;
    var v2 := v1 / 256;
    var v3 := v2 / 256;
    bytes := [v % 256, v1 % 256, v2 % 256, v3 % 256];
    FourBytes(v, 0);
    assert LittleEndian(v3 / 256, 0) == [];
  }

  // pb_encode_fixed64.
  method Fixed64Bytes(v: nat) returns (bytes: seq<byte>)
    requires v < U64
    ensures bytes == LittleEndian(v, 8)
  {
    var v1 := v / 256;
    var v2 := v1 / 256;
    var v3 := v2 / 256;
    var v4 := v3 / 256;
    var v5 := v4 / 256;
    var v6 := v5 / 256;
    var v7 := v6 / 256;
    bytes := [v % 256, v1 % 256, v2 % 256, v3 % 256, v4 % 256, v5 % 256, v6 % 256, v7 % 256];
    FourBytes(v, 4);
    FourBytes(v4, 0);
    assert LittleEndian(v7 / 256, 0) == [];
  }

  lemma FourBytes(v: nat, n: nat)
    ensures LittleEndian(v, n + 4)
         == [v % 256, v / 256 % 256, v / 256 / 256 % 256, v / 256 / 256 / 256 % 256]
            + LittleEndian(v / 256 / 256 / 256 / 256, n)
  {
    hide LittleEndian;
    LittleEndianStep(v, n + 4);
    LittleEndianStep(v / 256, n + 3);
    LittleEndianStep(v / 256 / 256, n + 2);
    LittleEndianStep(v / 256 / 256 / 256, n + 1);
  }

  lemma LittleEndianStep(v: nat, n: nat)
    requires n > 0
    ensures LittleEndian(v, n) == [v % 256] + LittleEndian(v / 256, n - 1)
  {
  }

  // The strnlen loop of pb_enc_string over the characters of the field.
  method StringLength(chars: seq<byte>, maxSize: nat) returns (size: nat)
    requires 0 !in chars && |chars| <= maxSize
    ensures size == |chars|
  {
    var mem := chars + Zeros(maxSize - |chars|);
    size := 0;
    while size < maxSize && mem[size] != 0
      invariant size <= |chars|
    {
      size := size + 1;
    }
  }

  lemma PrefixedPlus(data: seq<byte>)
    ensures Plus(Ok(EncVarint(|data|)), Ok(data)) == Ok(Prefixed(data))
  {
  }

  // pb_check_proto3_default_value.
  method CheckDefault(f: Field, s: Slot) returns (zero: bool)
    requires Holds(f, s)
    ensures zero == FieldIsZero(f, s)
    decreases s
  {
    match f.htype {
      case Required => return false;
      case Repeated => return s.items == [];
      case Oneof => return s.which == 0;
      case Optional =>
        if f.sizeOffset != 0 {
          return !s.has;
        }
        match f.ltype {
          case Bytes => return |s.v.b| == 0;
          case Str => return |s.v.b| == 0;
          case FixedLengthBytes => return f.dataSize == 0;
          case Submessage =>
            var v := s.v;
            zero := CheckDefaults(f.ptr.fields, v.slots);
          case _ => return s.v.i == 0;
        }
    }
  }

  // The fields before position n are zero.
  predicate ZeroBefore(fs: seq<Field>, m: Msg, n: nat)
    requires MsgOk(fs, m) && n <= |fs|
  {
    forall k: nat | k < n :: OwnerHolds(fs, k, m); FieldIsZero(fs[k], m[Owner(fs, k)])
  }

  lemma ZeroStep(fs: seq<Field>, m: Msg, n: nat)
    requires MsgOk(fs, m) && n < |fs|
    ensures |m| == |fs| && Holds(fs[n], m[Owner(fs, n)])
    ensures ZeroBefore(fs, m, n + 1) <==> ZeroBefore(fs, m, n) && FieldIsZero(fs[n], m[Owner(fs, n)])
    ensures MsgIsZero(fs, m) ==> FieldIsZero(fs[n], m[Owner(fs, n)])
  {
    hide FieldIsZero, SlotOk, Holds;
    OwnerHolds(fs, n, m);
  }

  lemma ZeroEnds(fs: seq<Field>, m: Msg)
    requires MsgOk(fs, m)
    ensures ZeroBefore(fs, m, 0) && (ZeroBefore(fs, m, |fs|) <==> MsgIsZero(fs, m))
  {
    hide FieldIsZero, SlotOk, Holds, Owner;
  }

  // Its loop over the fields of a submessage.
  method CheckDefaults(fs: seq<Field>, m: Msg) returns (zero: bool)
    requires MsgOk(fs, m)
    ensures zero == MsgIsZero(fs, m)
    decreases m
  {
    hide *;
    ZeroEnds(fs, m);
    var iter := new FieldIter(fs, 0);
    var more := iter.Begin();
    while more
      invariant iter.Valid() && iter.start == fs && (more ==> iter.pos < |fs|)
      invariant ZeroBefore(fs, m, if more then iter.pos else |fs|)
      decreases if more then |fs| - iter.pos else 0
    {
      var k := iter.pos;
      ZeroStep(fs, m, k);
      var slot := m[Owner(fs, k)];
      var ok := CheckDefault(fs[k], slot);
      if !ok {
        return false;
      }
      more := iter.Next();
    }
    return true;
  }

  lemma {:induction false} FixedPacked(f: Field, items: seq<Value>, n: nat)
    requires (f.ltype.Fixed32? && n == 4) || (f.ltype.Fixed64? && n == 8)
    requires forall x | x in items :: ValueOk(f, x)
    ensures EncPacked(f, items).Ok? && |EncPacked(f, items).value| == n * |items|
  {
    if items != [] {
      FixedPacked(f, items[1..], n);
    }
  }

  lemma StartsEmpty(stream: OStream)
    requires stream.Valid()
    ensures OutOk(stream.Snap()) && Emits(stream.Snap(), Ok([]), true, stream.Snap())
  {
    EmitsNothing(stream.Snap());
  }

  lemma SizingSnap(stream: OStream)
    ensures stream.Snap().written == stream.bytesWritten
  {
  }

  lemma FirstGroup(v: nat)
    requires v > 0
    ensures 0 <= v % 128 < 128 && 0 <= v / 128 < v
    ensures EncVarint(v) == if v / 128 == 0 then [v % 128] else [128 + v % 128] + EncVarint(v / 128)
  {
  }

  // The loop of pb_encode_varint. Its buffer of ten bytes is never overrun.
  method VarintGroups(v: nat) returns (buffer: array<byte>, i: nat)
    requires 0x7F < v < U64
    ensures fresh(buffer) && buffer.Length == 10 && i <= 10 && buffer[..i] == EncVarint(v)
  {
    buffer := new byte[10];
    i := 0;
    VarintMinimal(v, []);
    var value := v;
    ghost var last: byte := 0;
    while value != 0
      invariant 0 <= i <= 10
      invariant value != 0 ==> i + |EncVarint(value)| <= 10 && buffer[..i] + EncVarint(value) == EncVarint(v)
      invariant value == 0 ==> i > 0 && buffer[i - 1] == 128 + last && buffer[..i - 1] + [last] == EncVarint(v)
    {
      hide *;
      ghost var head := buffer[..i];
      FirstGroup(value);
      last := value % 128;
      buffer[i] := 128 + value % 128;
      value := value / 128;
      i := i + 1;
      assert buffer[..i - 1] == head;
      assert buffer[..i] == head + [buffer[i - 1]];
      if value != 0 {
        assert head + ([buffer[i - 1]] + EncVarint(value)) == buffer[..i] + EncVarint(value);
      }
    }
    hide *;
    ClearTop(buffer, i - 1, last);
  }

  // The last group without the continuation bit.
  method ClearTop(buffer: array<byte>, k: nat, ghost last: byte)
    requires k < buffer.Length && buffer[k] == 128 + last
    modifies buffer
    ensures buffer[..k + 1] == old(buffer[..k]) + [last]
  {
    ClearTopBit(last);
    buffer[k] := buffer[k] % 128;
    assert buffer[..k] == old(buffer[..k]);
  }

  lemma ClearTopBit(b: byte)
    ensures b < 128 ==> (128 + b) % 128 == b
  {
  }

  // ---------- the whole message ----------

  lemma {:induction false} ValueSized(f: Field, v: Value)
    requires ValueOk(f, v) && EncValue(f, v).Ok? && |EncValue(f, v).value| < U64
    ensures SizedVal(f, v)
    decreases v, 0
  {
    if f.ltype.Submessage? {
      FieldsSized(f.ptr.fields, v.slots, 0);
    }
  }

  lemma {:induction false} PackedSized(f: Field, items: seq<Value>)
    requires forall x | x in items :: ValueOk(f, x)
    requires EncPacked(f, items).Ok? && |EncPacked(f, items).value| < U64
    ensures forall i: nat | i < |items| :: SizedVal(f, items[i])
    decreases items, 1
  {
    hide SizedVal, ValueOk, EncValue;
    if items != [] {
      ValueSized(f, items[0]);
      PackedSized(f, items[1..]);
      assert forall i: nat | 0 < i < |items| :: items[i] == items[1..][i - 1];
    }
  }

  lemma {:induction false} UnpackedSized(f: Field, items: seq<Value>)
    requires forall x | x in items :: ValueOk(f, x)
    requires EncUnpacked(f, items).Ok? && |EncUnpacked(f, items).value| < U64
    ensures forall i: nat | i < |items| :: SizedVal(f, items[i])
    decreases items, 1
  {
    hide SizedVal, ValueOk, EncValue;
    if items != [] {
      assert EncUnpacked(f, items) == Plus(EncTagged(f, items[0]), EncUnpacked(f, items[1..]));
      ValueSized(f, items[0]);
      UnpackedSized(f, items[1..]);
      assert forall i: nat | 0 < i < |items| :: items[i] == items[1..][i - 1];
    }
  }

  lemma {:induction false} FieldSized(f: Field, s: Slot)
    requires Holds(f, s) && EncField(f, s).Ok? && |EncField(f, s).value| < U64
    ensures SizedField(f, s)
    decreases s, 2
  {
    hide SizedVal, ValueOk, EncValue, EncTag, ValueIsZero;
    if f.htype.Repeated? {
      if s.items != [] {
        if Packable(f.ltype) {
          hide EncVarint;
          PackedSized(f, s.items);
        } else {
          UnpackedSized(f, s.items);
        }
      }
    } else if !f.htype.Oneof? || s.which == f.tag {
      if EncField(f, s) == EncTagged(f, s.v) {
        ValueSized(f, s.v);
      }
    }
  }

  lemma {:induction false} FieldsSized(fs: seq<Field>, m: Msg, k: nat)
    requires MsgOk(fs, m) && k <= |fs| && EncFrom(fs, m, k).Ok? && |EncFrom(fs, m, k).value| < U64
    ensures |m| == |fs| && forall j: nat | k <= j < |fs| :: (OwnerHolds(fs, j, m); SizedField(fs[j], m[Owner(fs, j)]))
    decreases m, 3, |fs| - k
  {
    hide SizedField, SlotOk, Holds, EncField, Owner;
    if k < |fs| {
      OwnerHolds(fs, k, m);
      FieldSized(fs[k], m[Owner(fs, k)]);
      FieldsSized(fs, m, k + 1);
    }
  }

  // A message whose encoding fits 64 bits meets the size precondition of the encoder.
  lemma MsgSized(fs: seq<Field>, m: Msg)
    requires MsgOk(fs, m) && EncMsg(fs, m).Ok? && |EncMsg(fs, m).value| < U64
    ensures SizedMsg(fs, m)
  {
    hide SizedField, SlotOk, Holds, EncField, Owner;
    FieldsSized(fs, m, 0);
  }

  // pb_get_encoded_size.
  method GetEncodedSize(fs: seq<Field>, m: Msg) returns (ok: bool, size: nat)
    requires DescriptorSizes(fs) && MsgOk(fs, m) && SizedMsg(fs, m)
    ensures ok <==> EncMsg(fs, m).Ok?
    ensures ok ==> size == |EncMsg(fs, m).value|
  {
    hide Emits, EncFrom, MsgOk, SizedMsg, DescriptorSizes;
    var stream := new OStream.Sizing();
    ok := stream.Encode(fs, m);
    SizingOutcome(EncFrom(fs, m, 0), ok, stream.Snap());
    size := stream.bytesWritten;
  }

  // Sizing and writing the same thing: the writing pass succeeds exactly when the measured size
  // fits, writes exactly that many bytes, touches no memory outside its limit and never reports
  // that the size of a submessage changed.
  lemma SizingMatchesWriting(enc: Result<seq<byte>>, okz: bool, z: Out, s: Out, ok: bool, t: Out)
    requires MessageError(enc)
    requires Emits(SIZING, enc, okz, z)
    requires OutOk(s) && !s.sizing && s.err == None && Emits(s, enc, ok, t)
    ensures ok <==> okz && s.written + z.written <= s.maxSize
    ensures ok ==> t.written - s.written == z.written == |enc.value|
                   && t.mem[s.state..t.state] == enc.value && t.mem[t.state..] == s.mem[t.state..]
    ensures t.written <= s.maxSize
    ensures t.mem[..s.state] == s.mem[..s.state]
         && t.mem[s.state + (s.maxSize - s.written)..] == s.mem[s.state + (s.maxSize - s.written)..]
    ensures t.err != Some(SubmsgSizeChanged)
  {
    SizingOutcome(enc, okz, z);
  }
}
