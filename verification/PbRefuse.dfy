// What the decoder does with each value on the wire that may not fit its field.
module PbRefuse {
  import opened Bits
  import opened Results
  import opened PbWire
  import opened PbDescriptor
  import opened PbEncodeSpec
  import opened PbDecodeSpec
  import opened PbScalars
  import opened PbRoundTrip
  import opened PbSound

  // Unsigned integers are taken as they are, or refused: nothing is cut off.
  lemma UnsignedExact(f: Field, w: nat, tail: seq<byte>, cur: Value)
    requires FieldOk(f) && f.ltype.Uvarint? && w < U64
    ensures DecValue(f, EncVarint(w) + tail, cur)
         == if FitsUnsigned(f.dataSize, w) then Ok((IntV(w), tail)) else Err(IntegerTooLarge)
  {
    hide EncVarint, DecVarint64, Pow2;
    Varint64RoundTrip(w, tail);
    RangesExact(f.dataSize, w);
  }

  // Zigzag: even words are the nonnegative integers, odd ones the negative integers.
  lemma ZigZagExact(f: Field, w: nat, tail: seq<byte>, cur: Value)
    requires FieldOk(f) && f.ltype.Svarint? && w < U64
    ensures var i := if w % 2 == 0 then w / 2 else -(w / 2) - 1;
            DecValue(f, EncVarint(w) + tail, cur) == if FitsSigned(f.dataSize, i) then Ok((IntV(i), tail)) else Err(IntegerTooLarge)
  {
    hide EncVarint, DecVarint64, Pow2;
    Varint64RoundTrip(w, tail);
    var i := if w % 2 == 0 then w / 2 else -(w / 2) - 1;
    assert UnZigZag(w) == i;
    RangesExact(f.dataSize, i);
  }

  // Plain signed integers: a 64-bit field takes the word as two's complement; a smaller field
  // takes its low 32 bits as two's complement, and refuses what its own size cannot hold.
  lemma SignedExact(f: Field, w: nat, tail: seq<byte>, cur: Value)
    requires FieldOk(f) && f.ltype.Varint? && w < U64
    ensures var low := if f.dataSize == 8 then w else w % 0x1_0000_0000;
            var half := if f.dataSize == 8 then 0x8000_0000_0000_0000 else 0x8000_0000;
            var i := if low < half then low else low - 2 * half;
            DecValue(f, EncVarint(w) + tail, cur) == if FitsSigned(f.dataSize, i) then Ok((IntV(i), tail)) else Err(IntegerTooLarge)
  {
    hide EncVarint, DecVarint64, Pow2;
    Varint64RoundTrip(w, tail);
    var low := if f.dataSize == 8 then w else w % 0x1_0000_0000;
    var half := if f.dataSize == 8 then 0x8000_0000_0000_0000 else 0x8000_0000;
    var i := if low < half then low else low - 2 * half;
    RangesExact(f.dataSize, i);
  }

  // Byte arrays and strings are stored whole, or refused when the member is too small.
  lemma BytesExact(f: Field, b: seq<byte>, tail: seq<byte>, cur: Value)
    requires FieldOk(f) && |b| < U32 - 1
    ensures f.ltype.Bytes? ==>
              DecValue(f, Prefixed(b) + tail, cur) == if |b| + 4 <= f.dataSize then Ok((BytesV(b), tail)) else Err(BytesOverflow)
    ensures f.ltype.Str? ==>
              DecValue(f, Prefixed(b) + tail, cur)
                == if |b| + 1 <= f.dataSize then Ok((BytesV(CString(b)), tail)) else Err(StringOverflow)
    ensures f.ltype.FixedLengthBytes? && b != [] ==>
              DecValue(f, Prefixed(b) + tail, cur)
                == if |b| == f.dataSize then Ok((BytesV(b), tail)) else Err(IncorrectFixedLength)
  {
    hide DecVarint32, CString, Prefixed, FieldOk;
    PrefixedRoundTrip(b, tail);
    AppendSlices(b, tail);
  }

  // The text of a string ends before its first zero byte.
  lemma {:induction false} CStringExact(b: seq<byte>, n: nat)
    requires n <= |b| && 0 !in b[..n] && (n < |b| ==> b[n] == 0)
    ensures CString(b) == b[..n]
    decreases |b|
  {
    if n > 0 {
      assert b[1..][..n - 1] == b[..n][1..];
      CStringExact(b[1..], n - 1);
      assert b[..n] == [b[0]] + b[1..][..n - 1];
    }
  }

  // A length that promises more bytes than there are is refused.
  lemma TruncatedRefused(f: Field, n: nat, rest: seq<byte>, cur: Value)
    requires FieldOk(f) && n < U32 && |rest| < n
    requires f.ltype.Bytes? || f.ltype.Str? || f.ltype.FixedLengthBytes? || f.ltype.Submessage?
    ensures DecValue(f, EncVarint(n) + rest, cur).Err?
  {
    hide DecVarint32, CString, EncVarint, DecNoinit;
    Varint32RoundTrip(n, rest);
  }

  // A fixed field cut short is refused too.
  lemma ShortFixedRefused(f: Field, s: seq<byte>, cur: Value)
    requires (f.ltype.Fixed32? && |s| < 4) || (f.ltype.Fixed64? && |s| < 8)
    ensures DecValue(f, s, cur) == Err(EndOfStream)
  {
  }

  // A zero byte where a key is expected ends the message, and what follows is left.
  lemma ZeroEnds(fs: seq<Field>, rest: seq<byte>, m: Msg, seen: set<nat>)
    requires |m| == |fs|
    ensures DecLoop(fs, [0] + rest, m, seen) == Ok(Loop(m, seen, rest))
  {
    assert ([0] + rest)[1..] == rest;
    assert DecVarint32([0] + rest) == Ok((0, rest));
  }

  // What a field decoder refuses ends the decoding of the message with its error.
  lemma RefusalEnds(fs: seq<Field>, k: nat, wt: nat, body: seq<byte>, m: Msg, seen: set<nat>, e: Error)
    requires DescriptorOk(fs) && k < |fs| && |m| == |fs| && wt < 8 && !fs[k].htype.Repeated?
    requires DecValue(fs[k], body, Start(fs[k], m[Owner(fs, k)])) == Err(e)
    ensures DecLoop(fs, EncTag(wt, fs[k].tag) + body, m, seen) == Err(e)
  {
    hide EncTag, DecValue, DecField, DecLoop, Owner, FieldOk, Start;
    RecordStep(fs, k, wt, body, m, seen);
    DecFieldStores(fs[k], wt, body, m[Owner(fs, k)]);
  }

  // An unknown field with the wire type of a group, or none, ends decoding with an error.
  lemma GroupRefused(fs: seq<Field>, wt: nat, tag: nat, rest: seq<byte>, m: Msg, seen: set<nat>)
    requires |m| == |fs| && 0 < tag < 0x2000_0000 && FindField(fs, tag).None?
    requires wt == 3 || wt == 4 || wt == 6 || wt == 7
    ensures DecLoop(fs, EncTag(wt, tag) + rest, m, seen) == Err(InvalidWireType)
  {
    hide EncTag, DecTag, FindField;
    TagRoundTrip(wt, tag, rest);
  }
}
