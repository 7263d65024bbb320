// Fixed-width machine words as natural numbers, with their bits as the meaning.
module Bits {

  type byte = b: int | 0 <= b < 256

  function Pow2(n: nat): (r: nat)
    ensures r >= 1
  {
    if n == 0 then 1 else 2 * Pow2(n - 1)
  }

  const U32: nat := 0x1_0000_0000
  const U64: nat := 0x1_0000_0000_0000_0000

  lemma Pow2Values()
    ensures Pow2(1) == 2 && Pow2(2) == 4 && Pow2(3) == 8 && Pow2(4) == 16
    ensures Pow2(7) == 128 && Pow2(8) == 256
    ensures Pow2(14) == 0x4000 && Pow2(21) == 0x20_0000 && Pow2(28) == 0x1000_0000
    ensures Pow2(32) == U32 && Pow2(35) == 0x8_0000_0000
    ensures Pow2(63) == 0x8000_0000_0000_0000 && Pow2(64) == U64
  {
    assert Pow2(7) == 128;
    Pow2Add(7, 7);
    Pow2Add(14, 7);
    Pow2Add(21, 7);
    assert Pow2(4) == 16;
    Pow2Add(28, 4);
    Pow2Add(28, 7);
    Pow2Add(32, 32);
    assert Pow2(1) * Pow2(63) == 2 * Pow2(63);
    Pow2Add(1, 63);
  }

  lemma Pow2Of64()
    ensures Pow2(64) == U64 && Pow2(32) == U32
  {
    Pow2Values();
  }

  lemma {:induction false} Pow2Add(a: nat, b: nat)
    ensures Pow2(a + b) == Pow2(a) * Pow2(b)
  {
    if a > 0 {
      Pow2Add(a - 1, b);
      assert Pow2(a) * Pow2(b) == 2 * (Pow2(a - 1) * Pow2(b));
    }
  }

  lemma {:induction false} Pow2Monotone(a: nat, b: nat)
    requires a <= b
    ensures Pow2(a) <= Pow2(b)
  {
    if a < b {
      Pow2Monotone(a, b - 1);
    }
  }

  // Whether bit i of the word w is set.
  predicate Bit(w: nat, i: nat) {
    if i == 0 then w % 2 == 1 else Bit(w / 2, i - 1)
  }

  // The bitwise OR of two words.
  function Or(a: nat, b: nat): (r: nat) {
    if a == 0 then b
    else if b == 0 then a
    else (if a % 2 == 1 || b % 2 == 1 then 1 else 0) + 2 * Or(a / 2, b / 2)
  }

  lemma {:induction false} BitZero(i: nat)
    ensures !Bit(0, i)
  {
    if i > 0 {
      BitZero(i - 1);
    }
  }

  lemma {:induction false} OrBit(a: nat, b: nat, i: nat)
    ensures Bit(Or(a, b), i) <==> Bit(a, i) || Bit(b, i)
  {
    BitZero(i);
    if a != 0 && b != 0 {
      if i > 0 {
        OrBit(a / 2, b / 2, i - 1);
        assert Or(a, b) / 2 == Or(a / 2, b / 2);
      }
    }
  }

  // Words that differ in no bit are equal.
  lemma {:induction false} BitExtensionality(a: nat, b: nat, n: nat)
    requires a < Pow2(n) && b < Pow2(n)
    requires forall i: nat | i < n :: Bit(a, i) == Bit(b, i)
    ensures a == b
  {
    if n > 0 {
      assert Bit(a, 0) == Bit(b, 0);
      forall i: nat | i < n - 1
        ensures Bit(a / 2, i) == Bit(b / 2, i)
      {
        assert Bit(a, i + 1) == Bit(b, i + 1);
      }
      BitExtensionality(a / 2, b / 2, n - 1);
    }
  }

  lemma {:induction false} OrBound(a: nat, b: nat, n: nat)
    requires a < Pow2(n) && b < Pow2(n)
    ensures Or(a, b) < Pow2(n)
  {
    if n > 0 && a != 0 && b != 0 {
      OrBound(a / 2, b / 2, n - 1);
    }
  }

  // w << k without truncation.
  function Shl(w: nat, k: nat): (r: nat) {
    if k == 0 then w else 2 * Shl(w, k - 1)
  }

  lemma {:induction false} ShlAdd(a: nat, b: nat, k: nat)
    ensures Shl(a + b, k) == Shl(a, k) + Shl(b, k)
  {
    if k > 0 {
      ShlAdd(a, b, k - 1);
    }
  }

  lemma {:induction false} ShlBound(w: nat, n: nat, k: nat)
    requires w < Pow2(n)
    ensures Shl(w, k) < Pow2(n + k)
    ensures Shl(w, k) >= w
    ensures w > 0 ==> Shl(w, k) >= Pow2(k)
  {
    if k > 0 {
      ShlBound(w, n, k - 1);
    }
  }

  lemma {:induction false} ShlValue(w: nat, k: nat)
    ensures Shl(w, k) == w * Pow2(k)
  {
    if k > 0 {
      ShlValue(w, k - 1);
    }
  }

  lemma {:induction false} ShlMonotone(a: nat, b: nat, k: nat)
    requires a <= b
    ensures Shl(a, k) <= Shl(b, k)
  {
    if k > 0 {
      ShlMonotone(a, b, k - 1);
    }
  }

  // Seven more bits.
  lemma Shl7(w: nat, k: nat)
    ensures Shl(w, k + 7) == 128 * Shl(w, k) == Shl(128 * w, k)
    ensures Pow2(k + 7) == 128 * Pow2(k)
  {
    assert Shl(w, k + 7) == 2 * Shl(w, k + 6) == 4 * Shl(w, k + 5) == 8 * Shl(w, k + 4) == 16 * Shl(w, k + 3)
        == 32 * Shl(w, k + 2) == 64 * Shl(w, k + 1) == 128 * Shl(w, k);
    assert Pow2(k + 7) == 2 * Pow2(k + 6) == 4 * Pow2(k + 5) == 8 * Pow2(k + 4) == 16 * Pow2(k + 3)
        == 32 * Pow2(k + 2) == 64 * Pow2(k + 1) == 128 * Pow2(k);
    ShlScale(w, k);
  }

  lemma {:induction false} ShlScale(w: nat, k: nat)
    ensures Shl(128 * w, k) == 128 * Shl(w, k)
  {
    if k > 0 {
      ShlScale(w, k - 1);
    }
  }

  lemma {:induction false} BitShift(w: nat, k: nat, i: nat)
    ensures Bit(Shl(w, k), i) <==> i >= k && Bit(w, i - k)
  {
    if k > 0 && i > 0 {
      assert Shl(w, k) / 2 == Shl(w, k - 1);
      BitShift(w, k - 1, i - 1);
    }
  }

  // A word below 2^n has no bit at or above n.
  lemma {:induction false} BitBound(w: nat, n: nat, i: nat)
    requires w < Pow2(n) && i >= n
    ensures !Bit(w, i)
  {
    if n == 0 {
      BitZero(i);
    } else {
      BitBound(w / 2, n - 1, i - 1);
    }
  }

  // Truncation to n bits keeps the low n bits and clears the others.
  lemma {:induction false} BitTruncate(w: nat, n: nat, i: nat)
    ensures w % Pow2(n) < Pow2(n)
    ensures Bit(w % Pow2(n), i) <==> i < n && Bit(w, i)
  {
    if n == 0 {
      BitZero(i);
    } else {
      ModHalf(w, Pow2(n - 1));
      if i > 0 {
        BitTruncate(w / 2, n - 1, i - 1);
      }
    }
  }

  lemma ModHalf(w: nat, m: nat)
    requires m > 0
    ensures w % (2 * m) < 2 * m
    ensures (w % (2 * m)) % 2 == w % 2 && (w % (2 * m)) / 2 == (w / 2) % m
  {
    var q, r := (w / 2) / m, (w / 2) % m;
    assert w == (2 * m) * q + (w % 2 + 2 * r);
    ModUnique(w, 2 * m, q, w % 2 + 2 * r);
  }

  lemma ModUnique(w: nat, m: nat, q: nat, r: nat)
    requires m > 0 && w == m * q + r && r < m
    ensures w % m == r && w / m == q
  {
    var q', r' := w / m, w % m;
    assert w == m * q' + r';
    if q > q' {
      MultipleGap(m, q, q');
    } else if q < q' {
      MultipleGap(m, q', q);
    }
  }

  lemma MultipleGap(m: nat, x: int, y: int)
    requires x > y
    ensures m * x >= m * y + m
  {
    assert m * x == m * y + m * (x - y);
    assert m * (x - y - 1) >= 0;
  }

  // The word with exactly the low n bits set.
  lemma {:induction false} BitsBelow(n: nat, i: nat)
    ensures Bit(Pow2(n) - 1, i) <==> i < n
  {
    if n == 0 {
      BitZero(i);
    } else if i > 0 {
      assert (Pow2(n) - 1) / 2 == Pow2(n - 1) - 1;
      BitsBelow(n - 1, i - 1);
    }
  }

  // The word with only bit k set.
  lemma SingleBit(k: nat, i: nat)
    ensures Bit(Shl(1, k), i) <==> i == k
  {
    BitShift(1, k, i);
    if i > k {
      BitBound(1, 1, i - k);
    }
  }

  // Words without a common bit position: OR is addition.
  lemma {:induction false} OrDisjoint(a: nat, b: nat, k: nat)
    requires a < Pow2(k)
    ensures Or(a, Shl(b, k)) == a + Shl(b, k)
  {
    if k > 0 && a != 0 && Shl(b, k) != 0 {
      OrDisjoint(a / 2, b, k - 1);
      assert Shl(b, k) / 2 == Shl(b, k - 1);
    }
  }

  // The bitwise AND of two words.
  function And(a: nat, b: nat): (r: nat) {
    if a == 0 || b == 0 then 0
    else (if a % 2 == 1 && b % 2 == 1 then 1 else 0) + 2 * And(a / 2, b / 2)
  }

  lemma {:induction false} AndBit(a: nat, b: nat, i: nat)
    ensures Bit(And(a, b), i) <==> Bit(a, i) && Bit(b, i)
  {
    BitZero(i);
    if a != 0 && b != 0 {
      if i > 0 {
        AndBit(a / 2, b / 2, i - 1);
        assert And(a, b) / 2 == And(a / 2, b / 2);
      }
    }
  }

  lemma {:induction false} AndBound(a: nat, b: nat)
    ensures And(a, b) <= b
  {
    if a != 0 && b != 0 {
      AndBound(a / 2, b / 2);
    }
  }

  // The bitwise complement of a word of n bits.
  function Not(a: nat, n: nat): (r: nat)
    requires a < Pow2(n)
  {
    Pow2(n) - 1 - a
  }

  lemma {:induction false} NotBit(a: nat, n: nat, i: nat)
    requires a < Pow2(n)
    ensures Bit(Not(a, n), i) <==> i < n && !Bit(a, i)
  {
    if n == 0 {
      BitZero(i);
    } else {
      assert Not(a, n) / 2 == Not(a / 2, n - 1) && Not(a, n) % 2 == 1 - a % 2;
      if i > 0 {
        NotBit(a / 2, n - 1, i - 1);
      }
    }
  }

  // The word whose bits are exactly those below r.
  lemma {:induction false} LowOnes(w: nat, r: nat, n: nat)
    requires w < Pow2(n) && r <= n
    requires forall k: nat | k < n :: Bit(w, k) <==> k < r
    ensures w == Pow2(r) - 1
  {
    if n > 0 {
      assert Bit(w, 0) <==> 0 < r;
      forall k: nat | k < n - 1
        ensures Bit(w / 2, k) <==> k + 1 < r
      {
        assert Bit(w, k + 1) <==> k + 1 < r;
      }
      LowOnes(w / 2, if r == 0 then 0 else r - 1, n - 1);
    }
  }
}
