// The wire primitives of nanopb: varints, zig-zag, fixed-width integers, tags and skipping.
// Functions here are the specification; PbOutput.dfy and PbInput.dfy hold the loops.
module PbWire {
  import opened Bits
  import opened Results

  // ---------- base-128 varints ----------

  function EncVarint(v: nat): (r: seq<byte>)
    ensures |r| >= 1
  {
    if v <= 0x7F then [v] else [128 + v % 128] + EncVarint(v / 128)
  }

  // pb_decode_varint from bit position bitpos with the bits below it collected in acc.
  function ReadVarint64(s: seq<byte>, bitpos: nat, acc: nat): (r: Result<(nat, seq<byte>)>)
    ensures r.Ok? ==> |r.value.1| < |s| && r.value.1 == s[|s| - |r.value.1|..]
    ensures r.Ok? && acc < U64 ==> r.value.0 < U64
    decreases |s|
  {
    if bitpos >= 64 then Err(VarintOverflow)
    else if s == [] then Err(EndOfStream)
    else
      var acc' := Or(acc, (Shl(s[0] % 128, bitpos)) % U64);
      OrBound64(acc, (Shl(s[0] % 128, bitpos)) % U64);
      if s[0] >= 128 then ReadVarint64(s[1..], bitpos + 7, acc') else Ok((acc', s[1..]))
  }

  lemma OrBound64(a: nat, b: nat)
    ensures a < U64 && b < U64 ==> Or(a, b) < U64
  {
    if a < U64 && b < U64 {
      Pow2Values();
      OrBound(a, b, 64);
    }
  }

  function DecVarint64(s: seq<byte>): (r: Result<(nat, seq<byte>)>)
    ensures r.Ok? ==> |r.value.1| < |s| && r.value.1 == s[|s| - |r.value.1|..]
    ensures r.Ok? ==> r.value.0 < U64
  {
    ReadVarint64(s, 0, 0)
  }

  // The do-while loop of pb_decode_varint32_eof, entered with at least one byte seen.
  // bitpos is a uint_fast8_t, eight bits wide, so that it wraps.
  function ReadVarint32(s: seq<byte>, bitpos: nat, acc: nat): (r: Result<(nat, seq<byte>)>)
    ensures r.Ok? ==> |r.value.1| < |s| && r.value.1 == s[|s| - |r.value.1|..]
    ensures r.Ok? && acc < U32 ==> r.value.0 < U32
    decreases |s|
  {
    if s == [] then Err(EndOfStream)
    else
      var b := s[0];
      var signExtension := if bitpos < 63 then 0xFF else 0x01;
      if bitpos >= 32 && b % 128 != 0 && (acc / 0x8000_0000 == 0 || b != signExtension)
      then Err(VarintOverflow)
      else
        var acc' := Step32(bitpos, acc, b);
        var bitpos' := (bitpos + 7) % 256;
        if b >= 128 then ReadVarint32(s[1..], bitpos', acc')
        else if bitpos' == 35 && (b / 16) % 8 != 0 then Err(VarintOverflow)
        else Ok((acc', s[1..]))
  }

  function Step32(bitpos: nat, acc: nat, b: byte): (r: nat)
    ensures acc < U32 ==> r < U32
  {
    if bitpos >= 32 then acc
    else
      var x := Shl(b % 128, bitpos) % U32;
      OrBound32(acc, x);
      Or(acc, x)
  }

  lemma OrBound32(a: nat, b: nat)
    ensures a < U32 && b < U32 ==> Or(a, b) < U32
  {
    if a < U32 && b < U32 {
      Pow2Values();
      OrBound(a, b, 32);
    }
  }

  function DecVarint32(s: seq<byte>): (r: Result<(nat, seq<byte>)>)
    ensures r.Ok? ==> |r.value.1| < |s| && r.value.1 == s[|s| - |r.value.1|..]
    ensures r.Ok? ==> r.value.0 < U32
  {
    if s == [] then Err(EndOfStream)
    else if s[0] < 128 then Ok((s[0], s[1..]))
    else ReadVarint32(s[1..], 7, s[0] % 128)
  }

  // ---------- varint inverses ----------

  // The low seven bits and the rest of a shifted value.
  lemma SplitSeven(v: nat, bitpos: nat)
    ensures Shl(v, bitpos) == Shl(v % 128, bitpos) + Shl(v / 128, bitpos + 7)
    ensures Shl(v % 128, bitpos) < Pow2(bitpos + 7)
  {
    assert v == v % 128 + 128 * (v / 128);
    ShlAdd(v % 128, 128 * (v / 128), bitpos);
    Shl7(v / 128, bitpos);
    Pow2Values();
    ShlBound(v % 128, 7, bitpos);
  }

  lemma ShiftStaysBelow(v: nat, bitpos: nat, n: nat)
    requires v > 0 && Shl(v, bitpos) < Pow2(n)
    ensures bitpos < n
  {
    if bitpos >= n {
      Pow2Monotone(n, bitpos);
      ShlIsAtLeast(v, bitpos);
    }
  }

  lemma {:induction false} ShlIsAtLeast(v: nat, k: nat)
    requires v > 0
    ensures Shl(v, k) >= Pow2(k)
  {
    if k > 0 {
      ShlIsAtLeast(v, k - 1);
    }
  }

  lemma ReadStep64(s: seq<byte>, bitpos: nat, acc: nat)
    requires s != [] && bitpos < 64
    requires acc < Pow2(bitpos) && acc + Shl(s[0] % 128, bitpos) < U64
    ensures var acc' := acc + Shl(s[0] % 128, bitpos);
            ReadVarint64(s, bitpos, acc)
              == if s[0] >= 128 then ReadVarint64(s[1..], bitpos + 7, acc') else Ok((acc', s[1..]))
  {
    OrDisjoint(acc, s[0] % 128, bitpos);
    assert Shl(s[0] % 128, bitpos) % U64 == Shl(s[0] % 128, bitpos);
  }

  lemma EncVarintFirst(v: nat)
    ensures EncVarint(v)[0] % 128 == v % 128
    ensures EncVarint(v)[0] >= 128 <==> v > 0x7F
    ensures EncVarint(v)[1..] == if v > 0x7F then EncVarint(v / 128) else []
  {
  }

  lemma EncVarintHead(v: nat, tail: seq<byte>)
    ensures var s := EncVarint(v) + tail;
            && s[0] % 128 == v % 128
            && (s[0] >= 128 <==> v > 0x7F)
            && s[1..] == if v > 0x7F then EncVarint(v / 128) + tail else tail
  {
    hide EncVarint;
    EncVarintFirst(v);
    assert (EncVarint(v) + tail)[1..] == EncVarint(v)[1..] + tail;
  }

  lemma {:induction false} Varint64Continues(v: nat, tail: seq<byte>, bitpos: nat, acc: nat)
    requires acc < Pow2(bitpos) && acc + Shl(v, bitpos) < U64
    requires v > 0 || bitpos == 0
    ensures ReadVarint64(EncVarint(v) + tail, bitpos, acc) == Ok((acc + Shl(v, bitpos), tail))
    decreases v
  {
    hide *;
    var s := EncVarint(v) + tail;
    if bitpos > 0 {
      Pow2Of64();
      ShiftStaysBelow(v, bitpos, 64);
    }
    EncVarintHead(v, tail);
    SplitSeven(v, bitpos);
    ReadStep64(s, bitpos, acc);
    if v > 0x7F {
      Carry(acc, v % 128, bitpos);
      Varint64Continues(v / 128, tail, bitpos + 7, acc + Shl(v % 128, bitpos));
    }
  }

  lemma Carry(acc: nat, d: nat, bitpos: nat)
    requires acc < Pow2(bitpos) && d < 128
    ensures acc + Shl(d, bitpos) < Pow2(bitpos + 7)
  {
    ShlMonotone(d, 127, bitpos);
    ShlAdd(127, 1, bitpos);
    Shl7(1, bitpos);
    ShlValue(1, bitpos);
  }

  // Encoding and decoding a 64-bit value are inverse, whatever follows.
  lemma Varint64RoundTrip(v: nat, tail: seq<byte>)
    requires v < U64
    ensures DecVarint64(EncVarint(v) + tail) == Ok((v, tail))
  {
    Varint64Continues(v, tail, 0, 0);
  }

  lemma {:induction false} VarintLength(v: nat, n: nat)
    requires n >= 1
    ensures |EncVarint(v)| <= n <==> v < Pow2(7 * n)
    decreases n
  {
    Pow2Values();
    if n > 1 {
      Pow2Add(7, 7 * (n - 1));
      Pow2Monotone(7, 7 * n);
      if v > 0x7F {
        VarintLength(v / 128, n - 1);
        assert v / 128 < Pow2(7 * (n - 1)) <==> v < 128 * Pow2(7 * (n - 1));
      }
    }
  }

  lemma {:induction false} ReadVarint64Bound(s: seq<byte>, bitpos: nat, acc: nat)
    requires acc < Pow2(bitpos)
    requires ReadVarint64(s, bitpos, acc).Ok?
    ensures var (v, rest) := ReadVarint64(s, bitpos, acc).value;
            v < Pow2(bitpos + 7 * (|s| - |rest|))
    decreases |s|
  {
    var (v, rest) := ReadVarint64(s, bitpos, acc).value;
    var d := s[0] % 128;
    var x := Shl(d, bitpos) % U64;
    Carry(acc, d, bitpos);
    Pow2Monotone(bitpos, bitpos + 7);
    assert x <= Shl(d, bitpos) by {
      ModUnder(Shl(d, bitpos), U64);
    }
    OrBound(acc, x, bitpos + 7);
    if s[0] >= 128 {
      ReadVarint64Bound(s[1..], bitpos + 7, Or(acc, x));
    }
  }

  lemma ModUnder(a: nat, m: nat)
    requires m > 0
    ensures a % m <= a
  {
  }

  // The encoder emits between one and ten bytes, and no shorter string of bytes reads as v.
  lemma VarintMinimal(v: nat, s: seq<byte>)
    requires v < U64
    ensures 1 <= |EncVarint(v)| <= 10
    ensures DecVarint64(s).Ok? && DecVarint64(s).value.0 == v
            ==> |EncVarint(v)| <= |s| - |DecVarint64(s).value.1|
  {
    Pow2Values();
    Pow2Monotone(64, 70);
    VarintLength(v, 10);
    if DecVarint64(s).Ok? && DecVarint64(s).value.0 == v {
      ReadVarint64Bound(s, 0, 0);
      VarintLength(v, |s| - |DecVarint64(s).value.1|);
    }
  }

  lemma Step32Adds(bitpos: nat, acc: nat, b: byte)
    requires bitpos < 29 && acc < Pow2(bitpos) && acc + Shl(b % 128, bitpos) < U32
    ensures Step32(bitpos, acc, b) == acc + Shl(b % 128, bitpos)
  {
    OrDisjoint(acc, b % 128, bitpos);
    assert Shl(b % 128, bitpos) % U32 == Shl(b % 128, bitpos);
  }

  lemma ReadStep32(s: seq<byte>, bitpos: nat, acc: nat)
    requires s != [] && bitpos < 29
    requires acc < Pow2(bitpos) && acc + Shl(s[0] % 128, bitpos) < U32
    ensures var acc' := acc + Shl(s[0] % 128, bitpos);
            ReadVarint32(s, bitpos, acc)
              == if s[0] >= 128 then ReadVarint32(s[1..], bitpos + 7, acc')
                 else if bitpos == 28 && (s[0] / 16) % 8 != 0 then Err(VarintOverflow)
                 else Ok((acc', s[1..]))
  {
    hide Step32, Shl, Pow2;
    Step32Adds(bitpos, acc, s[0]);
  }

  lemma {:induction false} Varint32Continues(v: nat, tail: seq<byte>, bitpos: nat, acc: nat)
    requires acc < Pow2(bitpos) && acc + Shl(v, bitpos) < U32 && v > 0 && bitpos % 7 == 0 && bitpos < 29
    ensures ReadVarint32(EncVarint(v) + tail, bitpos, acc) == Ok((acc + Shl(v, bitpos), tail))
    decreases v
  {
    hide *;
    var s := EncVarint(v) + tail;
    EncVarintHead(v, tail);
    SplitSeven(v, bitpos);
    ReadStep32(s, bitpos, acc);
    if v > 0x7F {
      Below29(v / 128, bitpos);
      Carry(acc, v % 128, bitpos);
      Varint32Continues(v / 128, tail, bitpos + 7, acc + Shl(v % 128, bitpos));
    } else {
      if bitpos == 28 {
        LastGroup(v);
      }
    }
  }

  lemma LastGroup(v: nat)
    requires Shl(v, 28) < U32
    ensures v < 16
  {
    ShlValue(v, 28);
    Pow2Values();
  }

  // A further group of a 32-bit varint starts at bit 28 at the latest.
  lemma Below29(v: nat, bitpos: nat)
    requires v > 0 && Shl(v, bitpos + 7) < U32 && bitpos < 29
    ensures bitpos + 7 < 32
  {
    Pow2Of64();
    ShiftStaysBelow(v, bitpos + 7, 32);
  }

  // The 32-bit decoder inverts the encoder on every 32-bit value.
  lemma Varint32RoundTrip(v: nat, tail: seq<byte>)
    requires v < U32
    ensures DecVarint32(EncVarint(v) + tail) == Ok((v, tail))
  {
    EncVarintHead(v, tail);
    if v > 0x7F {
      SplitSeven(v, 0);
      SevenBits();
      Varint32Continues(v / 128, tail, 7, v % 128);
    }
  }

  lemma SevenBits()
    ensures Pow2(7) == 128
  {
    Pow2Values();
  }

  // Two's complement in 64 bits.
  function ToU64(i: int): (r: nat)
    requires -0x8000_0000_0000_0000 <= i < U64
    ensures r < U64
  {
    if i < 0 then i + U64 else i
  }

  function ToS64(v: nat): (i: int)
    requires v < U64
  {
    if v < 0x8000_0000_0000_0000 then v else v - U64
  }

  lemma MoreGroups32(v: nat, tail: seq<byte>, bitpos: nat, acc: nat)
    requires v > 0x7F && bitpos <= 21
    requires acc < Pow2(bitpos) && acc + Shl(v % 128, bitpos) < U32
    ensures ReadVarint32(EncVarint(v) + tail, bitpos, acc)
         == ReadVarint32(EncVarint(v / 128) + tail, bitpos + 7, acc + Shl(v % 128, bitpos))
  {
    EncVarintHead(v, tail);
    ReadStep32(EncVarint(v) + tail, bitpos, acc);
  }

  // Past bit 31 the decoder skips 0xFF bytes and a final 0x01 when the sign bit is set.
  lemma SkipSignExtension(tail: seq<byte>, acc: nat)
    requires acc / 0x8000_0000 == 1
    ensures ReadVarint32([255, 255, 255, 255, 1] + tail, 35, acc) == Ok((acc, tail))
  {
    var t0 := [1] + tail;
    var t1 := [255] + t0;
    var t2 := [255] + t1;
    var t3 := [255] + t2;
    var t4 := [255] + t3;
    assert t4 == [255, 255, 255, 255, 1] + tail;
    assert t4[1..] == t3 && t3[1..] == t2 && t2[1..] == t1 && t1[1..] == t0 && t0[1..] == tail;
    assert ReadVarint32(t0, 63, acc) == Ok((acc, tail));
    assert ReadVarint32(t1, 56, acc) == ReadVarint32(t0, 63, acc);
    assert ReadVarint32(t2, 49, acc) == ReadVarint32(t1, 56, acc);
    assert ReadVarint32(t3, 42, acc) == ReadVarint32(t2, 49, acc);
    assert ReadVarint32(t4, 35, acc) == ReadVarint32(t3, 42, acc);
  }

  // Of a group at bit 28 only the four low bits are kept.
  lemma FifthStep(h: nat, acc: nat, b: byte)
    requires h < 16 && acc < 0x1000_0000 && b % 128 == 0x70 + h
    ensures Step32(28, acc, b) == acc + h * 0x1000_0000
  {
    hide Or, Shl, Pow2;
    ShlValue(0x70 + h, 28);
    ShlValue(h, 28);
    Pow2Values();
    OrDisjoint(acc, h, 28);
    assert (0x70 + h) * 0x1000_0000 % U32 == h * 0x1000_0000;
  }

  // The fifth group holds the four high bits of the value and three sign bits.
  lemma FifthGroup(h: nat, tail: seq<byte>, acc: nat)
    requires 8 <= h < 16 && acc < 0x1000_0000
    ensures ReadVarint32(EncVarint(0xF_FFFF_FFF0 + h) + tail, 28, acc) == Ok((acc + h * 0x1000_0000, tail))
  {
    var v := 0xF_FFFF_FFF0 + h;
    assert v / 128 == 0x1FFF_FFFF && v % 128 == 0x70 + h;
    OnesVarint();
    var s := EncVarint(v) + tail;
    EncVarintHead(v, tail);
    var acc' := acc + h * 0x1000_0000;
    FifthStep(h, acc, s[0]);
    hide Step32;
    assert ReadVarint32(s, 28, acc) == ReadVarint32(s[1..], 35, acc');
    SkipSignExtension(tail, acc');
  }

  // The 32-bit decoder also accepts a negative int32 that was sign-extended to 64 bits before
  // encoding, and returns its low 32 bits.
  lemma Varint32SignExtended(i: int, tail: seq<byte>)
    requires -0x8000_0000 <= i < 0
    ensures DecVarint32(EncVarint(ToU64(i)) + tail) == Ok((i + U32, tail))
  {
    hide Shl, Pow2, EncVarint, ReadVarint32, Or;
    var w := i + U32;
    var v0 := ToU64(i);
    var v1 := v0 / 128;
    var v2 := v1 / 128;
    var v3 := v2 / 128;
    SignExtendedQuotients(w);
    SmallShifts(v1 % 128, v2 % 128, v3 % 128);
    var a1 := v0 % 128 + (v1 % 128) * 128;
    var a2 := a1 + (v2 % 128) * 0x4000;
    var a3 := a2 + (v3 % 128) * 0x20_0000;
    EncVarintHead(v0, tail);
    assert DecVarint32(EncVarint(v0) + tail) == ReadVarint32(EncVarint(v1) + tail, 7, v0 % 128);
    MoreGroups32(v1, tail, 7, v0 % 128);
    MoreGroups32(v2, tail, 14, a1);
    MoreGroups32(v3, tail, 21, a2);
    FifthGroup(w / 0x1000_0000, tail, a3);
  }

  lemma SmallShifts(b1: nat, b2: nat, b3: nat)
    requires b1 < 128 && b2 < 128 && b3 < 128
    ensures Shl(b1, 7) == b1 * 128 && Shl(b2, 14) == b2 * 0x4000 && Shl(b3, 21) == b3 * 0x20_0000
    ensures Pow2(7) == 128 && Pow2(14) == 0x4000 && Pow2(21) == 0x20_0000
  {
    Pow2Values();
    ShlValue(b1, 7);
    ShlValue(b2, 14);
    ShlValue(b3, 21);
  }

  lemma SignExtendedQuotients(w: nat)
    requires 0x8000_0000 <= w < U32
    ensures var v0 := w + 0xFFFF_FFFF_0000_0000;
            var v1 := v0 / 128; var v2 := v1 / 128; var v3 := v2 / 128;
            && v1 > 0x7F && v2 > 0x7F && v3 > 0x7F
            && v3 / 128 == 0xF_FFFF_FFF0 + w / 0x1000_0000
            && v0 % 128 + (v1 % 128) * 128 + (v2 % 128) * 0x4000 + (v3 % 128) * 0x20_0000
               + (w / 0x1000_0000) * 0x1000_0000 == w
  {
    var w1 := w / 128;
    var w2 := w1 / 128;
    var w3 := w2 / 128;
    var w4 := w3 / 128;
    var v1 := (w + 0xFFFF_FFFF_0000_0000) / 128;
    assert v1 == w1 + 0x1FF_FFFF_FE00_0000;
    var v2 := v1 / 128;
    assert v2 == w2 + 0x3_FFFF_FFFC_0000;
    var v3 := v2 / 128;
    assert v3 == w3 + 0x7FF_FFFF_F800;
    assert w4 == w / 0x1000_0000;
  }

  lemma OnesVarint()
    ensures EncVarint(0x1FFF_FFFF) == [255, 255, 255, 255, 1]
  {
    assert EncVarint(1) == [1];
    assert EncVarint(0xFF) == [255] + EncVarint(1);
    assert EncVarint(0x7FFF) == [255] + EncVarint(0xFF);
    assert EncVarint(0x3F_FFFF) == [255] + EncVarint(0x7FFF);
    assert EncVarint(0x1FFF_FFFF) == [255] + EncVarint(0x3F_FFFF);
  }
}
