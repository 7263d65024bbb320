// The recursive decoder of pb_decode.c over a stream and a destination struct.
module PbDecode {
  import opened Bits
  import opened Results
  import opened PbWire
  import opened PbDescriptor
  import opened PbEncodeSpec
  import opened PbDecodeSpec
  import opened PbIterator
  import opened PbInput
  import opened PbRequired

  // Tags are distinct and differ from the terminator's, arrays are counted and unions have one tag, at
  // every level.
  predicate FieldSearchable(f: Field)
    decreases f, 0
  {
    f.tag != 0 && Counted(f) && (f.ptr.Fields? ==> Searchable(f.ptr.fields))
  }

  predicate Searchable(fs: seq<Field>)
    decreases fs, 1
  {
    DistinctTags(fs) && OneTag(fs) && forall k: nat | k < |fs| :: FieldSearchable(fs[k])
  }

  // The descriptors of the round-trip theorem meet the requirement of the decoder.
  lemma DescriptorOkSearchable(fs: seq<Field>)
    requires DescriptorOk(fs)
    ensures Searchable(fs)
    decreases fs, 1
  {
    forall k: nat | k < |fs|
      ensures FieldSearchable(fs[k])
    {
      FieldOkSearchable(fs[k]);
    }
  }

  lemma FieldOkSearchable(f: Field)
    requires FieldOk(f)
    ensures FieldSearchable(f)
    decreases f, 0
  {
    if f.ptr.Fields? {
      DescriptorOkSearchable(f.ptr.fields);
    }
  }

  // pb_message_set_to_defaults.
  method SetToDefaults(fs: seq<Field>, dest: array<Slot>)
    requires dest.Length == |fs|
    modifies dest
    ensures dest[..] == DefaultMsg(fs)
  {
    hide FieldIter.Valid, DefaultSlot;
    var iter := new FieldIter(fs, 0);
    var more := iter.Begin();
    while more
      invariant iter.Valid() && iter.start == fs && (more ==> iter.pos < |fs|)
      invariant forall k | 0 <= k < if more then iter.pos else |fs| :: dest[k] == DefaultSlot(fs, k)
      decreases if more then |fs| - iter.pos else 0
    {
      dest[iter.pos] := DefaultSlot(fs, iter.pos);
      more := iter.Next();
    }
  }

  // The stream after a substream over the window w of s was decoded and closed.
  predicate Closed(s: In, w: (seq<byte>, seq<byte>), sub: In, t: In)
    requires InOk(s)
  {
    && InOk(sub) && InOk(t) && sub.mem == s.mem == t.mem && t.err == sub.err
    && t.left == |w.1| && t.state == sub.state + sub.left && t.state + t.left <= s.state + s.left
  }

  lemma SubmessageResult(s: In, f: Field, cur: Value, sub0: In, ok: bool, m: Msg, sub: In, t: In)
    requires InOk(s) && InOk(sub0) && f.ltype.Submessage? && f.ptr.Fields? && Window(Left(s)).Ok?
    requires Left(sub0) == Window(Left(s)).value.0 && sub0.err == s.err
    requires sub0.state + sub0.left + |Window(Left(s)).value.1| == s.state + s.left
    requires Reads(sub0, DecNoinit(f.ptr.fields, Left(sub0), InitialSub(f, cur)), ok, m, sub)
    requires Closed(s, Window(Left(s)).value, sub, t)
    ensures Reads(s, DecValue(f, Left(s), cur), ok, MsgV(m), t)
  {
    hide Window, DecNoinit, InitialSub;
    var w := Window(Left(s)).value;
    if ok {
      AdvanceTo(s, t);
      assert Left(t) == w.1;
    }
  }

  lemma WindowFails(s: In, f: Field, cur: Value, v: Value, t: In)
    requires InOk(s) && InOk(t) && f.ltype.Submessage? && t.mem == s.mem && t.state + t.left <= s.state + s.left
    requires Window(Left(s)).Err? || !f.ptr.Fields?
    requires s.err == None ==> t.err == Some(if Window(Left(s)).Err? then Window(Left(s)).error else InvalidDescriptor)
    ensures Reads(s, DecValue(f, Left(s), cur), false, v, t)
  {
    hide Window, DecStruct, InitialSub;
  }

  // The struct of the submessage, decoded from its window.
  method DecodeWindow(substream: IStream, f: Field, cur: Value) returns (ok: bool, m: Msg)
    requires substream.Valid() && f.ptr.Fields? && Searchable(f.ptr.fields)
    modifies substream
    ensures substream.Valid()
    ensures Reads(old(substream.Snap()), DecNoinit(f.ptr.fields, Left(old(substream.Snap())), InitialSub(f, cur)),
                  ok, m, substream.Snap())
    decreases substream.bytesLeft, 8
  {
    hide Left, DecNoinit, DefaultMsg, Reads;
    var fields := f.ptr.fields;
    var init := InitialSub(f, cur);
    var dest := new Slot[|fields|](i requires 0 <= i < |fields| => init[i]);
    assert dest[..] == init;
    if f.htype.Repeated? {
      ok := Decode(substream, fields, dest);
    } else {
      ok := DecodeNoinit(substream, fields, dest);
    }
    m := dest[..];
  }

  // pb_dec_submessage.
  method DecodeSubmessage(stream: IStream, f: Field, cur: Value) returns (ok: bool, v: Value)
    requires stream.Valid() && f.ltype.Submessage? && FieldSearchable(f)
    modifies stream
    ensures stream.Valid() && Reads(old(stream.Snap()), DecValue(f, Left(old(stream.Snap())), cur), ok, v, stream.Snap())
    decreases stream.bytesLeft, 0
  {
    ghost var s := stream.Snap();
    v := IntV(0);
    var substream;
    ok, substream := stream.MakeSubstream();
    hide Window, Left, DecNoinit, DefaultMsg, Reads, DecValue, InitialSub;
    if !ok {
      WindowFails(s, f, cur, v, stream.Snap());
      return;
    }
    if !f.ptr.Fields? {
      stream.SetError(InvalidDescriptor);
      WindowFails(s, f, cur, v, stream.Snap());
      return false, v;
    }
    ghost var sub0 := substream.Snap();
    SmallerWindow(s, sub0);
    var m;
    ok, m := DecodeWindow(substream, f, cur);
    ghost var sub := substream.Snap();
    ReadsEnd(sub0, DecNoinit(f.ptr.fields, Left(sub0), InitialSub(f, cur)), ok, m, sub);
    stream.CloseSubstream(substream);
    SubmessageResult(s, f, cur, sub0, ok, m, sub, stream.Snap());
    return ok, MsgV(m);
  }

  lemma ReadsEnd<T>(s: In, r: Result<(T, seq<byte>)>, ok: bool, v: T, t: In)
    requires InOk(s) && Reads(s, r, ok, v, t)
    ensures InOk(t) && t.state + t.left <= s.state + s.left
  {
  }

  lemma SmallerWindow(s: In, sub: In)
    requires InOk(s) && InOk(sub) && Window(Left(s)).Ok? && Left(sub) == Window(Left(s)).value.0
    ensures sub.left < s.left
  {
    assert |Left(sub)| == sub.left && |Left(s)| == s.left;
  }

  // pb_decode.
  method Decode(stream: IStream, fs: seq<Field>, dest: array<Slot>) returns (ok: bool)
    requires stream.Valid() && Searchable(fs) && dest.Length == |fs|
    modifies stream, dest
    ensures stream.Valid()
    ensures Reads(old(stream.Snap()), PbDecodeSpec.Decode(fs, Left(old(stream.Snap()))), ok, dest[..], stream.Snap())
    decreases stream.bytesLeft, 7
  {
    hide DecNoinit, DefaultMsg, Reads, Left;
    SetToDefaults(fs, dest);
    ok := DecodeNoinit(stream, fs, dest);
  }

  method DecodeValue(stream: IStream, f: Field, cur: Value) returns (ok: bool, v: Value)
    requires stream.Valid() && FieldSearchable(f)
    modifies stream
    ensures stream.Valid() && Reads(old(stream.Snap()), DecValue(f, Left(old(stream.Snap())), cur), ok, v, stream.Snap())
    decreases stream.bytesLeft, 1
  {
    hide Left, DecValue, Reads, InOk;
    if f.ltype.Submessage? {
      ok, v := DecodeSubmessage(stream, f, cur);
    } else {
      ok, v := stream.DecodeScalar(f, cur);
    }
  }

  lemma PackedStep(f: Field, s: seq<byte>, items: seq<Value>)
    ensures DecPacked(f, s, items)
         == if s == [] then Ok(items)
            else if |items| >= f.arraySize then Err(ArrayOverflow)
            else
              var d := DecValue(f, s, IntV(0));
              if d.Err? then if RestOnFailure(f, s) != [] then Err(ArrayOverflow) else Err(d.error)
              else DecPacked(f, d.value.1, items + [d.value.0])
  {
    hide DecValue, RestOnFailure;
  }

  // What the loop over a packed window leaves: all items decoded, bytes left over, or the error
  // of the last item.
  predicate Unpacked(s: In, r: Result<seq<Value>>, ok: bool, slot: Slot, t: In)
    requires InOk(s)
  {
    && InOk(t) && t.mem == s.mem && t.state + t.left <= s.state + s.left
    && (r.Ok? ==> ok && t.left == 0 && t.err == s.err && slot == Rep(r.value) && t.state == s.state + s.left)
    && (r.Err? && t.left == 0 ==> !ok && (s.err == None ==> t.err == Some(r.error)))
    && (r.Err? && t.left > 0 ==> r.error == ArrayOverflow)
  }

  lemma ItemFails(s: In, t: In, f: Field, items: seq<Value>, v: Value, slot: Slot, u: In)
    requires InOk(s) && Within(s, t) && t.left > 0 && |items| < f.arraySize
    requires Reads(t, DecValue(f, Left(t), IntV(0)), false, v, u) && Left(u) == RestOnFailure(f, Left(t))
    ensures Unpacked(s, DecPacked(f, Left(t), items), false, slot, u)
  {
    hide DecValue, RestOnFailure, DecPacked;
    PackedStep(f, Left(t), items);
    NoBytes(u);
    NoBytes(t);
  }

  lemma ItemRead(s: In, t: In, f: Field, items: seq<Value>, v: Value, u: In)
    requires InOk(s) && Within(s, t) && t.left > 0 && |items| < f.arraySize
    requires Reads(t, DecValue(f, Left(t), IntV(0)), true, v, u)
    ensures Within(s, u) && u.left < t.left
    ensures DecPacked(f, Left(t), items) == DecPacked(f, Left(u), items + [v])
  {
    hide DecValue, RestOnFailure, DecPacked;
    PackedStep(f, Left(t), items);
    NoBytes(u);
    NoBytes(t);
  }

  lemma ItemsEnd(s: In, t: In, f: Field, items: seq<Value>)
    requires InOk(s) && Within(s, t) && (t.left == 0 || |items| >= f.arraySize)
    ensures Unpacked(s, DecPacked(f, Left(t), items), true, Rep(items), t)
  {
    hide DecValue, RestOnFailure, DecPacked;
    PackedStep(f, Left(t), items);
    NoBytes(t);
  }

  // The loop of decode_static_field over a packed window. The count of the array grows in place.
  method DecodeItems(substream: IStream, f: Field, dest: array<Slot>, o: nat) returns (ok: bool)
    requires substream.Valid() && Packable(f.ltype) && o < dest.Length
    modifies substream, dest
    ensures substream.Valid()
    ensures Unpacked(old(substream.Snap()), DecPacked(f, Left(old(substream.Snap())), Items(old(dest[o]))),
                     ok, dest[o], substream.Snap())
    ensures dest[..] == old(dest[..])[o := dest[o]]
  {
    hide Left, DecValue, Reads, InOk, DecPacked, Within, RestOnFailure, Unpacked;
    ghost var s := substream.Snap();
    ghost var r := DecPacked(f, Left(s), Items(dest[o]));
    var items := Items(dest[o]);
    dest[o] := Rep(items);
    WithinSelf(s);
    while substream.bytesLeft > 0 && |items| < f.arraySize
      invariant substream.Valid() && Within(s, substream.Snap()) && dest[o] == Rep(items)
      invariant DecPacked(f, Left(substream.Snap()), items) == r
      invariant dest[..] == old(dest[..])[o := dest[o]]
    {
      ghost var t := substream.Snap();
      var v;
      ok, v := substream.DecodeScalar(f, IntV(0));
      if !ok {
        ItemFails(s, t, f, items, v, dest[o], substream.Snap());
        return false;
      }
      ItemRead(s, t, f, items, v, substream.Snap());
      items := items + [v];
      dest[o] := Rep(items);
    }
    ItemsEnd(s, substream.Snap(), f, items);
    return true;
  }

  lemma WithinSelf(s: In)
    requires InOk(s)
    ensures Within(s, s)
  {
  }

  lemma PackedResult(s: In, f: Field, slot: Slot, sub0: In, ok: bool, slot': Slot, sub: In, t: In)
    requires InOk(s) && InOk(sub0) && f.htype.Repeated? && Packable(f.ltype) && Window(Left(s)).Ok?
    requires Left(sub0) == Window(Left(s)).value.0 && sub0.err == s.err
    requires sub0.state + sub0.left + |Window(Left(s)).value.1| == s.state + s.left
    requires Unpacked(sub0, DecPacked(f, Left(sub0), Items(slot)), ok, slot', sub)
    requires sub.left == 0 && Closed(s, Window(Left(s)).value, sub, t)
    ensures Reads(s, DecField(f, WT_STRING, Left(s), slot), ok, slot', t)
  {
    hide Window, DecPacked;
    var w := Window(Left(s)).value;
    if ok {
      AdvanceTo(s, t);
      assert Left(t) == w.1;
    }
  }

  // The packed branch of decode_static_field.
  method DecodePackedField(stream: IStream, f: Field, dest: array<Slot>, o: nat) returns (ok: bool)
    requires stream.Valid() && o < dest.Length && f.htype.Repeated? && Packable(f.ltype)
    modifies stream, dest
    ensures stream.Valid()
    ensures Reads(old(stream.Snap()), DecField(f, WT_STRING, Left(old(stream.Snap())), old(dest[o])), ok, dest[o], stream.Snap())
    ensures ok ==> dest[..] == old(dest[..])[o := dest[o]]
  {
    hide Window, Left, DecPacked, Items, Packable;
    ghost var s := stream.Snap();
    var substream;
    ok, substream := stream.MakeSubstream();
    if !ok {
      return;
    }
    ghost var sub0 := substream.Snap();
    var status := DecodeItems(substream, f, dest, o);
    if substream.bytesLeft != 0 {
      stream.SetError(ArrayOverflow);
      return false;
    }
    ghost var sub := substream.Snap();
    stream.CloseSubstream(substream);
    PackedResult(s, f, old(dest[o]), sub0, status, dest[o], sub, stream.Snap());
    return status;
  }

  // decode_static_field.
  method DecodeField(stream: IStream, f: Field, wt: nat, dest: array<Slot>, o: nat) returns (ok: bool)
    requires stream.Valid() && FieldSearchable(f) && o < dest.Length
    modifies stream, dest
    ensures stream.Valid()
    ensures Reads(old(stream.Snap()), DecField(f, wt, Left(old(stream.Snap())), old(dest[o])), ok, dest[o], stream.Snap())
    ensures ok ==> dest[..] == old(dest[..])[o := dest[o]]
    decreases stream.bytesLeft, 2
  {
    hide Left, DecValue, InOk, DecPacked, Window;
    var slot := dest[o];
    var v;
    match f.htype {
      case Required =>
        ok, v := DecodeValue(stream, f, Content(slot));
        dest[o] := Single(v);
      case Optional =>
        ok, v := DecodeValue(stream, f, Content(slot));
        dest[o] := if f.sizeOffset != 0 then Flagged(true, v) else Single(v);
      case Repeated =>
        if wt == WT_STRING && Packable(f.ltype) {
          ok := DecodePackedField(stream, f, dest, o);
        } else {
          var items := Items(slot);
          if |items| >= f.arraySize {
            stream.SetError(ArrayOverflow);
            return false;
          }
          ok, v := DecodeValue(stream, f, IntV(0));
          dest[o] := Rep(items + [v]);
        }
      case Oneof =>
        var cur := Content(slot);
        if f.ltype.Submessage? && f.ptr.Fields? {
          cur := MsgV(DefaultMsg(f.ptr.fields));
        }
        ok, v := DecodeValue(stream, f, cur);
        dest[o] := OneofSlot(f.tag, v);
    }
  }

  // ---------- the loop of pb_decode_noinit ----------

  lemma TagTurn(fs: seq<Field>, s: seq<byte>, m: Msg, seen: set<nat>)
    requires |m| == |fs|
    ensures var t := DecTag(s);
            && (t.TagErr? ==> DecLoop(fs, s, m, seen) == Err(t.error))
            && (t.TagEof? ==> DecLoop(fs, s, m, seen) == Ok(Loop(m, seen, t.rest)))
            && (t.TagOk? ==> DecLoop(fs, s, m, seen) == FieldTurn(fs, t.wt, t.tag, t.rest, m, seen))
  {
    hide DecField, Skip, DecTag, FindField, Owner;
  }

  // The rest of a turn, after the tag.
  function FieldTurn(fs: seq<Field>, wt: nat, tag: nat, s: seq<byte>, m: Msg, seen: set<nat>): Result<Loop>
    requires |m| == |fs|
  {
    match FindField(fs, tag)
    case None =>
      if fs == [] && tag == 0 then
        var _ :- DecVarint64(s);
        Err(InvalidDataSize)
      else
        var rest :- Skip(wt, s);
        DecLoop(fs, rest, m, seen)
    case Some(k) =>
      var o := Owner(fs, k);
      var (slot, rest) :- DecField(fs[k], wt, s, m[o]);
      DecLoop(fs, rest, m[o := slot], seen + {k})
  }

  // The loop failed with the error of r.
  predicate Failed(s: In, r: Result<Loop>, t: In)
    requires InOk(s)
  {
    InOk(t) && t.mem == s.mem && t.state + t.left <= s.state + s.left && r.Err? && (s.err == None ==> t.err == Some(r.error))
  }

  lemma ReadsProgress<T>(s: In, r: Result<(T, seq<byte>)>, ok: bool, v: T, t: In)
    requires InOk(s) && Reads(s, r, ok, v, t)
    requires r.Ok? ==> |r.value.1| <= s.left
    ensures ok ==> Within(s, t) && r == Ok((v, Left(t)))
    ensures !ok ==> InOk(t) && t.mem == s.mem && t.state + t.left <= s.state + s.left && r.Err?
                    && (s.err == None ==> t.err == Some(r.error))
  {
  }

  // The known field at k: its bit, its value and its place.
  method DecodeKnown(stream: IStream, fs: seq<Field>, dest: array<Slot>, iter: FieldIter, wt: nat, words: array<nat>,
                     ghost seen: set<nat>)
    returns (ok: bool)
    requires stream.Valid() && Searchable(fs) && dest.Length == |fs| && iter.Valid() && iter.start == fs && fs != []
    requires words.Length == 2 && Marks(fs, seen, words[..])
    modifies stream, dest, words
    ensures stream.Valid() && Marks(fs, seen + {iter.pos}, words[..])
    ensures var o := Owner(fs, iter.pos);
            && Reads(old(stream.Snap()), DecField(fs[iter.pos], wt, Left(old(stream.Snap())), old(dest[o])), ok, dest[o], stream.Snap())
            && (ok ==> dest[..] == old(dest[..])[o := dest[o]])
    decreases stream.bytesLeft, 3
  {
    hide Left, InOk, DecField, Reads, RequiredBefore, FieldSearchable;
    var k := iter.pos;
    var index := iter.requiredIndex;
    assert index == RequiredBefore(fs, k);
    if fs[k].htype.Required? && index < PB_MAX_REQUIRED_FIELDS {
      SetMark(fs, seen, words[..], k);
      words[index / 32] := Or(words[index / 32], Shl(1, index % 32));
      assert words[..] == Marked(old(words[..]), index);
    } else {
      SkipMark(fs, seen, words[..], k);
    }
    hide *;
    ok := DecodeField(stream, fs[k], wt, dest, Owner(fs, k));
  }

  // The turn failed, or the loop goes on from t with the rest of the outcome r.
  predicate Turned(fs: seq<Field>, s: In, r: Result<Loop>, ok: bool, m: Msg, seen: set<nat>, t: In)
    requires InOk(s) && |m| == |fs|
  {
    if ok then Within(s, t) && DecLoop(fs, Left(t), m, seen) == r else Failed(s, r, t)
  }

  lemma SkipTurns(fs: seq<Field>, s: In, wt: nat, tag: nat, ok: bool, m: Msg, seen: set<nat>, t: In)
    requires InOk(s) && |m| == |fs| && FindField(fs, tag).None? && !(fs == [] && tag == 0)
    requires Reads(s, Unit(Skip(wt, Left(s))), ok, (), t)
    ensures Turned(fs, s, FieldTurn(fs, wt, tag, Left(s), m, seen), ok, m, seen, t)
  {
    hide DecLoop, Skip, FindField;
    ReadsProgress(s, Unit(Skip(wt, Left(s))), ok, (), t);
  }

  lemma TerminatorTurns(fs: seq<Field>, s: In, wt: nat, m: Msg, seen: set<nat>, ok: bool, v: nat, t: In, u: In)
    requires InOk(s) && fs == [] && m == []
    requires Reads(s, DecVarint64(Left(s)), ok, v, t) && u == if ok then PbInput.Reported(t, InvalidDataSize) else t
    ensures Turned(fs, s, FieldTurn(fs, wt, 0, Left(s), m, seen), false, m, seen, u)
  {
    hide DecLoop, DecVarint64;
  }

  lemma KnownTurns(fs: seq<Field>, s: In, wt: nat, k: nat, m: Msg, seen: set<nat>, ok: bool, m': Msg, slot: Slot, t: In)
    requires InOk(s) && |m| == |m'| == |fs| && k < |fs| && FindField(fs, fs[k].tag) == Some(k)
    requires Reads(s, DecField(fs[k], wt, Left(s), m[Owner(fs, k)]), ok, slot, t)
    requires ok ==> m' == m[Owner(fs, k) := slot]
    ensures Turned(fs, s, FieldTurn(fs, wt, fs[k].tag, Left(s), m, seen), ok, m', seen + {k}, t)
  {
    hide DecLoop, DecField, FindField, Owner;
    ReadsProgress(s, DecField(fs[k], wt, Left(s), m[Owner(fs, k)]), ok, slot, t);
  }

  // The part of a turn after the tag.
  method DecodeRecord(stream: IStream, fs: seq<Field>, dest: array<Slot>, iter: FieldIter, wt: nat, tag: nat,
                      words: array<nat>, ghost seen: set<nat>)
    returns (ok: bool, ghost seen': set<nat>)
    requires stream.Valid() && Searchable(fs) && dest.Length == |fs| && iter.Valid() && iter.start == fs
    requires words.Length == 2 && Marks(fs, seen, words[..])
    modifies stream, dest, iter, words
    ensures stream.Valid() && iter.Valid() && Marks(fs, seen', words[..])
    ensures Turned(fs, old(stream.Snap()), FieldTurn(fs, wt, tag, Left(old(stream.Snap())), old(dest[..]), seen),
                   ok, dest[..], seen', stream.Snap())
    decreases stream.bytesLeft, 4
  {
    ghost var s := stream.Snap();
    ghost var m := dest[..];
    assert InOk(s) && DistinctTags(fs);
    hide *;
    seen' := seen;
    var found := iter.Find(tag);
    if !found {
      ok := stream.SkipField(wt);
      SkipTurns(fs, s, wt, tag, ok, m, seen, stream.Snap());
      return;
    }
    if fs == [] {
      // The terminator is a required varint of size 0: reading it always fails.
      var v;
      ok, v := stream.DecodeVarint();
      ghost var t := stream.Snap();
      if ok {
        stream.SetError(InvalidDataSize);
      }
      TerminatorTurns(fs, s, wt, m, seen, ok, v, t, stream.Snap());
      return false, seen';
    }
    var k := iter.pos;
    InRange(iter);
    FirstMatchIs(fs, old(iter.pos), tag, k);
    ok := DecodeKnown(stream, fs, dest, iter, wt, words, seen);
    seen' := seen + {k};
    KnownTurns(fs, s, wt, k, m, seen, ok, dest[..], dest[Owner(fs, k)], stream.Snap());
  }

  lemma InRange(iter: FieldIter)
    requires iter.Valid() && iter.start != []
    ensures iter.pos < |iter.start|
  {
  }

  lemma FirstMatchIs(fs: seq<Field>, pos: nat, tag: nat, k: nat)
    requires DistinctTags(fs) && FirstMatch(fs, pos, tag, k)
    ensures k < |fs| && fs[k].tag == tag && FindField(fs, tag) == Some(k)
  {
    MatchUnique(fs, pos, tag, k);
  }

  lemma LoopEnds(fs: seq<Field>, t: In, m: Msg, seen: set<nat>)
    requires InOk(t) && |m| == |fs| && t.left == 0
    ensures DecLoop(fs, Left(t), m, seen) == Ok(Loop(m, seen, Left(t)))
  {
    assert Left(t) == [];
    TagTurn(fs, [], m, seen);
  }

  lemma NoinitResult(fs: seq<Field>, s: In, m0: Msg, t: In, m: Msg, seen: set<nat>, missing: bool)
    requires InOk(s) && |m| == |m0| == |fs| && Within(s, t)
    requires DecLoop(fs, Left(s), m0, {}) == Ok(Loop(m, seen, Left(t))) && (missing <==> MissesRequired(fs, seen))
    ensures Reads(s, DecNoinit(fs, Left(s), m0), !missing, m, if missing then PbInput.Reported(t, MissingRequired) else t)
  {
    hide DecLoop, MissesRequired;
  }

  lemma NoinitFails(fs: seq<Field>, s: In, m0: Msg, m: Msg, t: In)
    requires InOk(s) && |m0| == |fs| && Failed(s, DecLoop(fs, Left(s), m0, {}), t)
    ensures Reads(s, DecNoinit(fs, Left(s), m0), false, m, t)
  {
    hide DecLoop;
  }

  // One turn of the loop.
  method DecodeTurn(stream: IStream, fs: seq<Field>, dest: array<Slot>, iter: FieldIter, words: array<nat>, ghost seen: set<nat>)
    returns (ok: bool, eof: bool, ghost seen': set<nat>)
    requires stream.Valid() && stream.bytesLeft > 0 && Searchable(fs) && dest.Length == |fs|
    requires iter.Valid() && iter.start == fs && words.Length == 2 && Marks(fs, seen, words[..])
    modifies stream, dest, iter, words
    ensures stream.Valid() && iter.Valid() && Marks(fs, seen', words[..])
    ensures var s, t, r := old(stream.Snap()), stream.Snap(), DecLoop(fs, Left(old(stream.Snap())), old(dest[..]), seen);
            && (ok ==> !eof && stream.bytesLeft < old(stream.bytesLeft) && Turned(fs, s, r, true, dest[..], seen', t))
            && (eof ==> !ok && Within(s, t) && r == Ok(Loop(dest[..], seen', Left(t))))
            && (!ok && !eof ==> Failed(s, r, t))
    decreases stream.bytesLeft, 5
  {
    ghost var s := stream.Snap();
    ghost var m := dest[..];
    TagTurn(fs, Left(s), m, seen);
    seen' := seen;
    var wt, tag;
    ok, wt, tag, eof := stream.DecodeTag();
    ghost var t := stream.Snap();
    assert ok ==> |Left(t)| < |Left(s)| && t.left < s.left && Within(s, t);
    assert eof ==> Within(s, t);
    assert !ok && !eof ==> Failed(s, DecLoop(fs, Left(s), m, seen), t);
    hide *;
    if !ok {
      return;
    }
    ok, seen' := DecodeRecord(stream, fs, dest, iter, wt, tag, words, seen);
    TurnFrom(fs, s, t, DecLoop(fs, Left(s), m, seen), ok, dest[..], seen', stream.Snap());
  }

  lemma TurnFrom(fs: seq<Field>, s: In, t: In, r: Result<Loop>, ok: bool, m: Msg, seen: set<nat>, u: In)
    requires InOk(s) && Within(s, t) && t.left < s.left && |m| == |fs| && Turned(fs, t, r, ok, m, seen, u)
    ensures Turned(fs, s, r, ok, m, seen, u) && (ok ==> u.left < s.left)
  {
    hide DecLoop;
  }

  // A turn from t, in a run of the loop that started at s.
  lemma TurnOutcome(fs: seq<Field>, s: In, t: In, r: Result<Loop>, ok: bool, m: Msg, seen: set<nat>, u: In)
    requires InOk(s) && Within(s, t) && |m| == |fs|
    ensures ok && Turned(fs, t, r, true, m, seen, u) ==> Within(s, u) && DecLoop(fs, Left(u), m, seen) == r
    ensures Failed(t, r, u) ==> Failed(s, r, u)
    ensures Within(t, u) ==> Within(s, u)
  {
    hide DecLoop;
  }

  lemma TagsNonzero(fs: seq<Field>)
    requires Searchable(fs)
    ensures forall k: nat | k < |fs| :: fs[k].tag != 0
  {
  }

  lemma StreamOk(stream: IStream)
    requires stream.Valid()
    ensures InOk(stream.Snap()) && stream.Snap().left == stream.bytesLeft
  {
  }

  // pb_decode_noinit.
  method DecodeNoinit(stream: IStream, fs: seq<Field>, dest: array<Slot>) returns (ok: bool)
    requires stream.Valid() && Searchable(fs) && dest.Length == |fs|
    modifies stream, dest
    ensures stream.Valid()
    ensures Reads(old(stream.Snap()), DecNoinit(fs, Left(old(stream.Snap())), old(dest[..])), ok, dest[..], stream.Snap())
    decreases stream.bytesLeft, 6
  {
    hide *;
    StreamOk(stream);
    ghost var s := stream.Snap();
    ghost var m := dest[..];
    ghost var r := DecLoop(fs, Left(s), m, {});
    ghost var seen: set<nat> := {};
    var iter := new FieldIter(fs, 0);
    var words := new nat[2];
    words[0], words[1] := 0, 0;
    assert words[..] == [0, 0];
    NothingSeen(fs);
    WithinSelf(s);
    var eof := false;
    while stream.bytesLeft > 0 && !eof
      invariant stream.Valid() && InOk(stream.Snap()) && iter.Valid() && iter.start == fs && Marks(fs, seen, words[..])
      invariant Within(s, stream.Snap())
      invariant !eof ==> DecLoop(fs, Left(stream.Snap()), dest[..], seen) == r
      invariant eof ==> r == Ok(Loop(dest[..], seen, Left(stream.Snap())))
      decreases !eof, stream.bytesLeft
    {
      ghost var t := stream.Snap();
      ok, eof, seen := DecodeTurn(stream, fs, dest, iter, words, seen);
      StreamOk(stream);
      TurnOutcome(fs, s, t, r, ok, dest[..], seen, stream.Snap());
      if !ok && !eof {
        NoinitFails(fs, s, m, dest[..], stream.Snap());
        return false;
      }
    }
    StreamOk(stream);
    if !eof {
      LoopEnds(fs, stream.Snap(), dest[..], seen);
    }
    TagsNonzero(fs);
    var total := CountRequired(iter);
    var missing := CheckWords(fs, words, seen, total);
    NoinitResult(fs, s, m, stream.Snap(), dest[..], seen, missing);
    if missing {
      stream.SetError(MissingRequired);
    }
    return !missing;
  }
}
