// The bytes of the protocol buffer format: varint groups, record keys and payloads.
module PbFormat {
  import opened Bits
  import opened Results
  import opened PbWire
  import opened PbDescriptor
  import opened PbEncodeSpec
  import opened PbScalars

  // The groups of a varint are the base-128 digits of the value, the lowest first, and every byte
  // but the last has its top bit set.
  lemma {:induction false} VarintDigits(v: nat, i: nat)
    requires i < |EncVarint(v)|
    ensures EncVarint(v)[i] % 128 == v / Pow2(7 * i) % 128
    ensures EncVarint(v)[i] >= 128 <==> i + 1 < |EncVarint(v)|
    ensures v < Pow2(7 * |EncVarint(v)|)
    decreases v
  {
    Pow2Values();
    hide Pow2;
    LowestDigit(v);
    if v > 0x7F {
      var rest := EncVarint(v / 128);
      var j := if i == 0 then 0 else i - 1;
      hide EncVarint;
      VarintDigits(v / 128, j);
      DigitShift(v, j);
      DigitShift(v, |rest|);
    }
  }

  lemma LowestDigit(v: nat)
    ensures Pow2(7 * 0) == 1 && v / 1 == v
    ensures EncVarint(v)[0] % 128 == v % 128 && (EncVarint(v)[0] >= 128 <==> v > 0x7F)
    ensures v <= 0x7F ==> |EncVarint(v)| == 1 && v < Pow2(7 * 1)
    ensures v > 0x7F ==> |EncVarint(v)| == 1 + |EncVarint(v / 128)| && EncVarint(v)[1..] == EncVarint(v / 128)
  {
    EncVarintFirst(v);
    Pow2Values();
    assert v > 0x7F ==> EncVarint(v) == [EncVarint(v)[0]] + EncVarint(v)[1..];
    hide EncVarint;
    if v <= 0x7F {
      OneGroup(v);
    }
  }

  lemma OneGroup(v: nat)
    requires v <= 0x7F
    ensures |EncVarint(v)| == 1
  {
  }

  // Dropping the lowest group moves the others down by one.
  lemma DigitShift(v: nat, j: nat)
    ensures (v / 128) / Pow2(7 * j) == v / Pow2(7 * (j + 1))
    ensures v / 128 < Pow2(7 * j) ==> v < Pow2(7 * (j + 1))
  {
    Pow2Add(7, 7 * j);
    Pow2Values();
    var p := Pow2(7 * j);
    DivTwice(v, 128, p);
    assert 7 + 7 * j == 7 * (j + 1);
    if v / 128 < p {
      assert v < 128 * (v / 128 + 1) <= 128 * p;
    }
  }

  lemma DivUnique(v: nat, d: nat, q: nat, r: nat)
    requires d > 0 && v == d * q + r && r < d
    ensures v / d == q
  {
    var q' := v / d;
    assert v == d * q' + v % d;
    if q' > q {
      TimesMonotone(d, q + 1, q');
    } else if q' < q {
      TimesMonotone(d, q' + 1, q);
    }
  }

  lemma TimesMonotone(d: nat, a: nat, b: nat)
    requires a <= b
    ensures d * a <= d * b
  {
  }

  lemma DivTwice(v: nat, a: nat, p: nat)
    requires a > 0 && p > 0
    ensures a * p > 0 && v / (a * p) == (v / a) / p
  {
    var w := v / a;
    var q, r := w / p, w % p;
    assert v == a * w + v % a && w == p * q + r;
    assert a * w == a * (p * q) + a * r == (a * p) * q + a * r;
    TimesMonotone(a, r + 1, p);
    assert a * (r + 1) == a * r + a;
    DivUnique(v, a * p, q, a * r + v % a);
  }

  // The bytes of a fixed-width value, the lowest first.
  lemma {:induction false} FixedDigits(v: nat, n: nat, i: nat)
    requires i < n
    ensures LittleEndian(v, n)[i] == v / Pow256(i) % 256
  {
    if i > 0 {
      FixedDigits(v / 256, n - 1, i - 1);
      assert LittleEndian(v, n)[1..] == LittleEndian(v / 256, n - 1);
      DivTwice(v, 256, Pow256(i - 1));
    }
  }

  // The number that the format gives to each kind of payload.
  function KeyType(t: LType): nat {
    match t
    case Varint => 0
    case Uvarint => 0
    case Svarint => 0
    case Fixed64 => 1
    case Bytes => 2
    case Str => 2
    case FixedLengthBytes => 2
    case Submessage => 2
    case Fixed32 => 5
  }

  // A record is a key, which holds the field number and the kind of payload, and the payload. A
  // negative integer is written as its two's complement in 64 bits, or in zigzag form.
  lemma RecordFormat(f: Field, v: Value)
    requires FieldOk(f) && ValueOk(f, v) && EncTagged(f, v).Ok?
    ensures f.ltype.Submessage? ==> EncMsg(f.ptr.fields, v.slots).Ok?
    ensures EncTagged(f, v).value
         == EncVarint(8 * f.tag + KeyType(f.ltype))
            + match f.ltype
              case Varint => EncVarint(if v.i < 0 then v.i + 0x1_0000_0000_0000_0000 else v.i)
              case Uvarint => EncVarint(v.i)
              case Svarint => EncVarint(if v.i < 0 then -2 * v.i - 1 else 2 * v.i)
              case Fixed32 => LittleEndian(v.i, 4)
              case Fixed64 => LittleEndian(v.i, 8)
              case Submessage =>
                var sub := EncMsg(f.ptr.fields, v.slots).value;
                EncVarint(|sub|) + sub
              case _ => EncVarint(|v.b|) + v.b
  {
    hide EncVarint, EncFrom, FieldOk;
    if f.ltype.Svarint? {
      ZigZagRoundTrip(v.i);
    }
  }

  // An array of scalars is one record, and an array of anything else has a record for each entry.
  lemma ArrayFormat(f: Field, items: seq<Value>)
    requires forall x | x in items :: ValueOk(f, x)
    requires items != [] && |items| <= f.arraySize && EncArray(f, items).Ok?
    ensures Packable(f.ltype) ==>
              EncPacked(f, items).Ok?
              && var data := EncPacked(f, items).value;
                 EncArray(f, items).value == EncVarint(8 * f.tag + 2) + (EncVarint(|data|) + data)
    ensures !Packable(f.ltype) ==> EncArray(f, items) == EncUnpacked(f, items)
  {
    hide EncVarint, EncPacked, EncUnpacked;
  }
}
