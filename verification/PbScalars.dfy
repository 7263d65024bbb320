// Every scalar decoder inverts its encoder.
module PbScalars {
  import opened Bits
  import opened Results
  import opened PbWire
  import opened PbDescriptor
  import opened PbEncodeSpec
  import opened PbDecodeSpec

  lemma SignedRoundTrip(n: nat, i: int)
    requires IntSize(n) && InSigned(n, i)
    ensures (if n == 8 then ToS64(ToU64(i)) else ToS32(ToU64(i))) == i
  {
  }

  // pb_decode_svarint inverts pb_encode_svarint on all of int64_t.
  lemma ZigZagRoundTrip(i: int)
    requires -0x8000_0000_0000_0000 <= i < 0x8000_0000_0000_0000
    ensures ZigZag(i) == if i < 0 then -2 * i - 1 else 2 * i
    ensures UnZigZag(ZigZag(i)) == i
  {
    var z := ZigZag(i);
    if i < 0 {
      assert (ToU64(i) * 2) % U64 == 2 * i + U64;
    }
  }

  // Zig-zag reaches every unsigned value, so that it is a bijection.
  lemma UnZigZagRoundTrip(v: nat)
    requires v < U64
    ensures -0x8000_0000_0000_0000 <= UnZigZag(v) < 0x8000_0000_0000_0000
    ensures ZigZag(UnZigZag(v)) == v
  {
    var i := UnZigZag(v);
    if v % 2 == 1 {
      assert i == -(v / 2) - 1;
    } else {
      assert i == v / 2;
    }
    ZigZagRoundTrip(i);
  }

  function Pow256(n: nat): (r: nat)
    ensures r >= 1
  {
    if n == 0 then 1 else 256 * Pow256(n - 1)
  }

  lemma {:induction false} LittleEndianRoundTrip(v: nat, n: nat)
    requires v < Pow256(n)
    ensures FromLittleEndian(LittleEndian(v, n)) == v
  {
    if n > 0 {
      LittleEndianRoundTrip(v / 256, n - 1);
      assert LittleEndian(v, n)[1..] == LittleEndian(v / 256, n - 1);
    }
  }

  lemma FixedSizes()
    ensures Pow256(4) == U32 && Pow256(8) == U64
  {
  }

  lemma FixedRoundTrip(v: nat, n: nat, tail: seq<byte>)
    requires (n == 4 && v < U32) || (n == 8 && v < U64)
    ensures var s := LittleEndian(v, n) + tail;
            |s| >= n && FromLittleEndian(s[..n]) == v && s[n..] == tail
  {
    hide FromLittleEndian, LittleEndian, Pow256;
    FixedSizes();
    LittleEndianRoundTrip(v, n);
    var s := LittleEndian(v, n) + tail;
    assert s[..n] == LittleEndian(v, n);
    assert s[n..] == tail;
  }

  lemma AppendSlices(b: seq<byte>, tail: seq<byte>)
    ensures (b + tail)[..|b|] == b && (b + tail)[|b|..] == tail
  {
  }

  lemma PrefixedRoundTrip(b: seq<byte>, tail: seq<byte>)
    requires |b| < U32
    ensures DecVarint32(Prefixed(b) + tail) == Ok((|b|, b + tail))
    ensures Window(Prefixed(b) + tail) == Ok((b, tail))
  {
    hide EncVarint, DecVarint32;
    var e := EncVarint(|b|);
    assert (e + b) + tail == e + (b + tail);
    Varint32RoundTrip(|b|, b + tail);
    AppendSlices(b, tail);
  }

  lemma {:induction false} CStringOfString(b: seq<byte>)
    requires 0 !in b
    ensures CString(b) == b
  {
    if b != [] {
      CStringOfString(b[1..]);
    }
  }

  lemma TagRoundTrip(wt: nat, tag: nat, tail: seq<byte>)
    requires wt < 8 && 0 < tag < 0x2000_0000
    ensures DecTag(EncTag(wt, tag) + tail) == TagOk(wt, tag, tail)
  {
    hide EncVarint, DecVarint32;
    Varint32RoundTrip(tag * 8 + wt, tail);
  }
}
