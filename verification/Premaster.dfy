// Branch-free arithmetic on machine words of any width, and the selection of the RSA premaster
// secret with it.
module Premaster {
  import opened Bits
  import opened Results

  const SECRET_LENGTH: nat := 48
  const OVERHEAD: nat := 11

  // The bitwise exclusive OR of two words.
  function Xor(a: nat, b: nat): nat {
    if a == 0 then b
    else if b == 0 then a
    else (if a % 2 != b % 2 then 1 else 0) + 2 * Xor(a / 2, b / 2)
  }

  lemma {:induction false} XorBit(a: nat, b: nat, i: nat)
    ensures Bit(Xor(a, b), i) <==> Bit(a, i) != Bit(b, i)
  {
    BitZero(i);
    if a != 0 && b != 0 {
      if i > 0 {
        XorBit(a / 2, b / 2, i - 1);
        assert Xor(a, b) / 2 == Xor(a / 2, b / 2);
      }
    }
  }

  lemma {:induction false} XorBound(a: nat, b: nat, n: nat)
    requires a < Pow2(n) && b < Pow2(n)
    ensures Xor(a, b) < Pow2(n)
  {
    if n > 0 && a != 0 && b != 0 {
      XorBound(a / 2, b / 2, n - 1);
    }
  }

  lemma {:induction false} XorZero(a: nat, b: nat)
    ensures Xor(a, b) == 0 <==> a == b
  {
    if a != 0 && b != 0 {
      XorZero(a / 2, b / 2);
    }
  }

  // The top bit of a word of n bits.
  lemma {:induction false} TopBit(a: nat, n: nat)
    requires n > 0 && a < Pow2(n)
    ensures Bit(a, n - 1) <==> a >= Pow2(n - 1)
  {
    if n > 1 {
      TopBit(a / 2, n - 1);
    }
  }

  // Subtraction of words of n bits.
  function SubW(a: nat, b: nat, n: nat): (r: nat)
    requires a < Pow2(n) && b < Pow2(n)
    ensures r < Pow2(n)
  {
    if a >= b then a - b else Pow2(n) + a - b
  }

  // All ones for true, zero for false.
  function Mask(b: bool, n: nat): (r: nat)
    ensures r < Pow2(n)
  {
    if b then Pow2(n) - 1 else 0
  }

  function MsbW(a: nat, n: nat): (r: nat)
    requires n > 0 && a < Pow2(n)
    ensures r == Mask(Bit(a, n - 1), n)
  {
    TopBit(a, n);
    TopQuotient(a, Pow2(n - 1));
    SubW(0, a / Pow2(n - 1), n)
  }

  lemma TopQuotient(a: nat, h: nat)
    requires h > 0 && a < 2 * h
    ensures a / h == if a >= h then 1 else 0
  {
    ModUnique(a, h, if a >= h then 1 else 0, if a >= h then a - h else a);
  }

  function LtW(a: nat, b: nat, n: nat): (r: nat)
    requires n > 0 && a < Pow2(n) && b < Pow2(n)
    ensures r == Mask(a < b, n)
  {
    LtBits(a, b, n);
    MsbW(Xor(a, Or(Xor(a, b), Xor(SubW(a, b, n), a))), n)
  }

  // The top bit is that of the difference if the top bits of a and b agree, or else that of b.
  lemma LtBits(a: nat, b: nat, n: nat)
    requires n > 0 && a < Pow2(n) && b < Pow2(n)
    ensures var w := Xor(a, Or(Xor(a, b), Xor(SubW(a, b, n), a)));
            w < Pow2(n) && (Bit(w, n - 1) <==> a < b)
  {
    var d, k := SubW(a, b, n), n - 1;
    TopBit(a, n);
    TopBit(b, n);
    TopBit(d, n);
    assert if Bit(a, k) == Bit(b, k) then Bit(d, k) <==> a < b else Bit(b, k) <==> a < b;
    var x, y := Xor(a, b), Xor(d, a);
    XorBound(a, b, n);
    XorBound(d, a, n);
    OrBound(x, y, n);
    XorBound(a, Or(x, y), n);
    XorBit(a, b, k);
    XorBit(d, a, k);
    OrBit(x, y, k);
    XorBit(a, Or(x, y), k);
  }

  function GeW(a: nat, b: nat, n: nat): (r: nat)
    requires n > 0 && a < Pow2(n) && b < Pow2(n)
    ensures r == Mask(a >= b, n)
  {
    Not(LtW(a, b, n), n)
  }

  function IsZeroW(a: nat, n: nat): (r: nat)
    requires n > 0 && a < Pow2(n)
    ensures r == Mask(a == 0, n)
  {
    ZeroBits(a, n);
    MsbW(And(Not(a, n), SubW(a, 1, n)), n)
  }

  lemma ZeroBits(a: nat, n: nat)
    requires n > 0 && a < Pow2(n)
    ensures 1 < Pow2(n)
    ensures var w := And(Not(a, n), SubW(a, 1, n));
            w < Pow2(n) && (Bit(w, n - 1) <==> a == 0)
  {
    var d := SubW(a, 1, n);
    AndBound(Not(a, n), d);
    AndBit(Not(a, n), d, n - 1);
    NotBit(a, n, n - 1);
    TopBit(a, n);
    TopBit(d, n);
  }

  function EqW(a: nat, b: nat, n: nat): (r: nat)
    requires n > 0 && a < Pow2(n) && b < Pow2(n)
    ensures r == Mask(a == b, n)
  {
    XorBound(a, b, n);
    XorZero(a, b);
    IsZeroW(Xor(a, b), n)
  }

  // The conversion of a mask to uint8_t is the mask of 8 bits.
  lemma LowMask(b: bool, n: nat)
    requires n >= 8
    ensures Mask(b, n) % 256 == Mask(b, 8)
  {
    Pow2Values();
    Pow2Add(8, n - 8);
    if b {
      ModUnique(Pow2(n) - 1, 256, Pow2(n - 8) - 1, 255);
    }
  }

  function Lt8(a: nat, b: nat, n: nat): (r: byte)
    requires n >= 8 && a < Pow2(n) && b < Pow2(n)
    ensures r == Mask(a < b, 8)
  {
    LowMask(a < b, n);
    LtW(a, b, n) % 256
  }

  function Ge8(a: nat, b: nat, n: nat): (r: byte)
    requires n >= 8 && a < Pow2(n) && b < Pow2(n)
    ensures r == Mask(a >= b, 8)
  {
    LowMask(a >= b, n);
    GeW(a, b, n) % 256
  }

  function IsZero8(a: nat, n: nat): (r: byte)
    requires n >= 8 && a < Pow2(n)
    ensures r == Mask(a == 0, 8)
  {
    LowMask(a == 0, n);
    IsZeroW(a, n) % 256
  }

  function Eq8(a: nat, b: nat, n: nat): (r: byte)
    requires n >= 8 && a < Pow2(n) && b < Pow2(n)
    ensures r == Mask(a == b, 8)
  {
    LowMask(a == b, n);
    EqW(a, b, n) % 256
  }

  function SelectW(mask: nat, a: nat, b: nat, n: nat): (r: nat)
    requires mask < Pow2(n) && a < Pow2(n) && b < Pow2(n)
    ensures r < Pow2(n)
  {
    AndBound(mask, a);
    AndBound(Not(mask, n), b);
    OrBound(And(mask, a), And(Not(mask, n), b), n);
    Or(And(mask, a), And(Not(mask, n), b))
  }

  // Every bit is taken from a where the mask is set, and from b where it is not.
  lemma SelectBit(mask: nat, a: nat, b: nat, n: nat, i: nat)
    requires mask < Pow2(n) && a < Pow2(n) && b < Pow2(n)
    ensures Bit(SelectW(mask, a, b, n), i) <==> if Bit(mask, i) then Bit(a, i) else Bit(b, i)
  {
    OrBit(And(mask, a), And(Not(mask, n), b), i);
    AndBit(mask, a, i);
    AndBit(Not(mask, n), b, i);
    NotBit(mask, n, i);
    if i >= n {
      BitBound(b, n, i);
    }
  }

  lemma ByteIsWord(n: nat)
    requires n >= 8
    ensures Pow2(n) >= 256
  {
    Pow2Values();
    Pow2Monotone(8, n);
  }

  function Select8(mask: byte, a: byte, b: byte, n: nat): (r: byte)
    requires n >= 8
    ensures mask == 255 ==> r == a
    ensures mask == 0 ==> r == b
  {
    ByteIsWord(n);
    SelectByte(mask, a, b, n);
    SelectW(mask, a, b, n) % 256
  }

  lemma SelectByte(mask: byte, a: byte, b: byte, n: nat)
    requires n >= 8 && Pow2(n) >= 256
    ensures mask == 255 ==> SelectW(mask, a, b, n) % 256 == a
    ensures mask == 0 ==> SelectW(mask, a, b, n) % 256 == b
  {
    Pow2Values();
    var r := SelectW(mask, a, b, n);
    forall i: nat | i < 8
      ensures Bit(r % 256, i) <==> if Bit(mask, i) then Bit(a, i) else Bit(b, i)
      ensures mask == 255 ==> Bit(mask, i)
      ensures mask == 0 ==> !Bit(mask, i)
    {
      SelectBit(mask, a, b, n, i);
      BitTruncate(r, 8, i);
      BitsBelow(8, i);
      BitZero(i);
    }
    if mask == 255 {
      BitExtensionality(r % 256, a, 8);
    }
    if mask == 0 {
      BitExtensionality(r % 256, b, 8);
    }
  }

  // Masks of 8 bits meet like truth values.
  lemma MaskAnd(p: bool, q: bool)
    ensures And(Mask(p, 8), Mask(q, 8)) == Mask(p && q, 8)
  {
    assert And(1, 1) == 1 && And(3, 3) == 3 && And(7, 7) == 7 && And(15, 15) == 15;
    assert And(31, 31) == 31 && And(63, 63) == 63 && And(127, 127) == 127 && And(255, 255) == 255;
    Pow2Values();
  }

  lemma MaskNot(p: bool)
    ensures Not(Mask(p, 8), 8) == Mask(!p, 8)
  {
  }

  // Encryption block type 2 of PKCS #1: 00 02, at least eight bytes of padding without a zero,
  // a zero, and the message.
  function FirstZero(d: seq<byte>, from: nat): (k: nat)
    requires from <= |d|
    ensures from <= k <= |d|
    ensures forall i :: from <= i < k ==> d[i] != 0
    ensures k < |d| ==> d[k] == 0
    decreases |d| - from
  {
    if from == |d| || d[from] == 0 then from else FirstZero(d, from + 1)
  }

  function Pkcs1Message(d: seq<byte>): Option<seq<byte>> {
    if |d| < OVERHEAD || d[0] != 0 || d[1] != 2 then None
    else
      var sep := FirstZero(d, 2);
      if sep == |d| || sep < 10 then None else Some(d[sep + 1..])
  }

  // The branching form: the message of a well-formed block, if it is a premaster secret for the
  // version that the client offered, or else the random secret.
  function Premaster(d: seq<byte>, version: nat, random: seq<byte>): seq<byte> {
    match Pkcs1Message(d)
    case None => random
    case Some(m) => if |m| == SECRET_LENGTH && Offers(m, version) then m else random
  }

  predicate Offers(m: seq<byte>, version: nat)
    requires |m| == SECRET_LENGTH
  {
    m[0] == version / 256 && m[1] == version % 256
  }

  // The checks at fixed positions.
  predicate Padded(d: seq<byte>)
    requires |d| >= OVERHEAD + SECRET_LENGTH
  {
    var pad := |d| - SECRET_LENGTH;
    d[0] == 0 && d[1] == 2 && (forall i :: 2 <= i < pad - 1 ==> d[i] != 0) && d[pad - 1] == 0
  }

  // They accept exactly the blocks with a message of the right length.
  lemma PaddedIff(d: seq<byte>)
    requires |d| >= OVERHEAD + SECRET_LENGTH
    ensures Padded(d) <==> Pkcs1Message(d).Some? && |Pkcs1Message(d).value| == SECRET_LENGTH
    ensures Padded(d) ==> Pkcs1Message(d).value == d[|d| - SECRET_LENGTH..]
  {
    var pad := |d| - SECRET_LENGTH;
    var sep := FirstZero(d, 2);
    if Padded(d) {
      assert sep == pad - 1;
    }
  }

  // The message of a block of at least 59 bytes is taken exactly when the block begins with 00 02,
  // the first zero behind that stands before the last 48 bytes, and those begin with the version.
  lemma PremasterExact(d: seq<byte>, version: nat, random: seq<byte>)
    requires |d| >= 59 && version < 0x1_0000
    ensures Premaster(d, version, random)
         == if d[0] == 0 && d[1] == 2 && (forall i :: 2 <= i < |d| - 49 ==> d[i] != 0) && d[|d| - 49] == 0
               && 256 * (d[|d| - 48] as int) + d[|d| - 47] == version
            then d[|d| - 48..] else random
  {
    hide Pkcs1Message;
    PaddedIff(d);
  }

  // Selecting byte by byte with a mask that is all ones or all zeros.
  method SelectInto(secret: array<byte>, good: byte, d: seq<byte>, n: nat)
    requires n >= 8 && |d| == secret.Length && (good == 0 || good == 255)
    modifies secret
    ensures secret[..] == if good == 255 then d else old(secret[..])
  {
    for i := 0 to secret.Length
      invariant forall j :: 0 <= j < i ==> secret[j] == if good == 255 then d[j] else old(secret[j])
      invariant forall j :: i <= j < secret.Length ==> secret[j] == old(secret[j])
    {
      secret[i] := Select8(good, d[i], secret[i], n);
    }
  }

  // The mask of the padding checks.
  method CheckPadding(d: seq<byte>, n: nat) returns (good: byte)
    requires n >= 8 && |d| >= OVERHEAD + SECRET_LENGTH
    ensures good == Mask(Padded(d), 8)
  {
    hide And, Not, Mask;
    ByteIsWord(n);
    var pad := |d| - SECRET_LENGTH;
    MaskAnd(d[0] == 0, d[1] == 2);
    good := And(Eq8(d[0], 0, n), Eq8(d[1], 2, n));
    for i := 2 to pad - 1
      invariant good == Mask(d[0] == 0 && d[1] == 2 && forall j :: 2 <= j < i ==> d[j] != 0, 8)
    {
      MaskNot(d[i] == 0);
      MaskAnd(d[0] == 0 && d[1] == 2 && forall j :: 2 <= j < i ==> d[j] != 0, d[i] != 0);
      good := And(good, Not(IsZero8(d[i], n), 8));
      Extended(d, i);
    }
    MaskAnd(d[0] == 0 && d[1] == 2 && forall j :: 2 <= j < pad - 1 ==> d[j] != 0, d[pad - 1] == 0);
    good := And(good, IsZero8(d[pad - 1], n));
  }

  lemma Extended(d: seq<byte>, i: nat)
    requires 2 <= i < |d|
    ensures (forall j :: 2 <= j < i + 1 ==> d[j] != 0) <==> (forall j :: 2 <= j < i ==> d[j] != 0) && d[i] != 0
  {
  }

  // The RSA part of do_read_client_key_exchange after the decryption of a block, on a machine
  // with words of n bits.
  method SelectPremaster(d: seq<byte>, version: nat, secret: array<byte>, n: nat) returns (ok: bool)
    requires n >= 8 && secret.Length == SECRET_LENGTH && version < 0x1_0000
    modifies secret
    ensures ok <==> |d| >= OVERHEAD + SECRET_LENGTH
    ensures secret[..] == if ok then Premaster(d, version, old(secret[..])) else old(secret[..])
  {
    if |d| < OVERHEAD + secret.Length {
      return false;
    }
    hide And, Mask;
    ByteIsWord(n);
    var pad := |d| - secret.Length;
    var good := CheckPadding(d, n);
    MaskAnd(Padded(d), d[pad] == version / 256);
    good := And(good, Eq8(d[pad], version / 256, n));
    MaskAnd(Padded(d) && d[pad] == version / 256, d[pad + 1] == version % 256);
    good := And(good, Eq8(d[pad + 1], version % 256, n));
    PaddedIff(d);
    MaskIs(Padded(d) && d[pad] == version / 256 && d[pad + 1] == version % 256);
    SelectInto(secret, good, d[pad..], n);
    return true;
  }

  lemma MaskIs(p: bool)
    ensures Mask(p, 8) == if p then 255 else 0
  {
    Pow2Values();
  }
}
