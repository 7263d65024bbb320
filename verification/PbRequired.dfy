// The fields_seen bitmap of pb_decode_noinit reports a missing field exactly.
module PbRequired {
  import opened Bits
  import opened PbDescriptor
  import opened PbDecodeSpec
  import opened PbIterator

  const ALL_BITS: nat := 0xFFFF_FFFF

  // The required field with index i is among the decoded positions.
  ghost predicate SeenIndex(fs: seq<Field>, seen: set<nat>, i: nat) {
    exists k: nat | k < |fs| && fs[k].htype.Required? && RequiredBefore(fs, k) == i :: k in seen
  }

  // The two words hold one bit for each of the first 64 required fields.
  ghost predicate Marks(fs: seq<Field>, seen: set<nat>, words: seq<nat>) {
    && |words| == 2 && words[0] <= ALL_BITS && words[1] <= ALL_BITS
    && forall i: nat | i < PB_MAX_REQUIRED_FIELDS :: Bit(words[i / 32], i % 32) <==> SeenIndex(fs, seen, i)
  }

  lemma {:induction false} RequiredGrows(fs: seq<Field>, j: nat, k: nat)
    requires j < k <= |fs|
    ensures RequiredBefore(fs, j) <= RequiredBefore(fs, k)
    ensures fs[j].htype.Required? ==> RequiredBefore(fs, j) < RequiredBefore(fs, k)
  {
    if k > j + 1 {
      RequiredGrows(fs, j, k - 1);
    }
  }

  lemma {:induction false} RequiredAt(fs: seq<Field>, n: nat, i: nat) returns (k: nat)
    requires n <= |fs| && i < RequiredBefore(fs, n)
    ensures k < n && fs[k].htype.Required? && RequiredBefore(fs, k) == i
  {
    k := n - 1;
    if i < RequiredBefore(fs, n - 1) {
      k := RequiredAt(fs, n - 1, i);
    }
  }

  // A field's index is its own.
  lemma IndexUnique(fs: seq<Field>, j: nat, k: nat)
    requires j < |fs| && k < |fs| && fs[j].htype.Required? && fs[k].htype.Required?
    requires RequiredBefore(fs, j) == RequiredBefore(fs, k)
    ensures j == k
  {
    if j < k {
      RequiredGrows(fs, j, k);
    } else if k < j {
      RequiredGrows(fs, k, j);
    }
  }

  lemma NothingSeen(fs: seq<Field>)
    ensures Marks(fs, {}, [0, 0])
  {
    forall i: nat | i < PB_MAX_REQUIRED_FIELDS
      ensures Bit([0, 0][i / 32], i % 32) <==> SeenIndex(fs, {}, i)
    {
      BitZero(i % 32);
    }
  }

  lemma SeenAlso(fs: seq<Field>, seen: set<nat>, k: nat, i: nat)
    requires k < |fs|
    ensures SeenIndex(fs, seen + {k}, i)
       <==> SeenIndex(fs, seen, i) || (fs[k].htype.Required? && i == RequiredBefore(fs, k))
  {
    hide RequiredBefore;
    if SeenIndex(fs, seen, i) {
      var j: nat :| j < |fs| && fs[j].htype.Required? && RequiredBefore(fs, j) == i && j in seen;
      assert j in seen + {k};
    }
    if fs[k].htype.Required? && i == RequiredBefore(fs, k) {
      assert k in seen + {k};
    }
  }

  // Decoding a field that has no bit leaves the words right.
  lemma SkipMark(fs: seq<Field>, seen: set<nat>, words: seq<nat>, k: nat)
    requires k < |fs| && Marks(fs, seen, words)
    requires fs[k].htype.Required? ==> RequiredBefore(fs, k) >= PB_MAX_REQUIRED_FIELDS
    ensures Marks(fs, seen + {k}, words)
  {
    hide SeenIndex, Bit, RequiredBefore;
    forall i: nat | i < PB_MAX_REQUIRED_FIELDS
      ensures Bit(words[i / 32], i % 32) <==> SeenIndex(fs, seen + {k}, i)
    {
      SeenAlso(fs, seen, k, i);
    }
  }

  // fields_seen[index >> 5] |= 1 << (index & 31).
  function Marked(words: seq<nat>, index: nat): seq<nat>
    requires |words| == 2 && index < PB_MAX_REQUIRED_FIELDS
  {
    words[index / 32 := Or(words[index / 32], Shl(1, index % 32))]
  }

  lemma MarkBit(words: seq<nat>, index: nat, i: nat)
    requires |words| == 2 && words[0] <= ALL_BITS && words[1] <= ALL_BITS
    requires index < PB_MAX_REQUIRED_FIELDS && i < PB_MAX_REQUIRED_FIELDS
    ensures Bit(Marked(words, index)[i / 32], i % 32) <==> Bit(words[i / 32], i % 32) || i == index
    ensures Marked(words, index)[i / 32] <= ALL_BITS
  {
    hide Bit, Or, Shl, Pow2;
    var r := index % 32;
    OrBit(words[index / 32], Shl(1, r), i % 32);
    SingleBit(r, i % 32);
    assert i == index <==> i / 32 == index / 32 && i % 32 == r;
    assert Shl(1, r) < Pow2(32) by {
      PowOne();
      ShlBound(1, 1, r);
      Pow2Monotone(1 + r, 32);
    }
    Pow2Of64();
    OrBound(words[index / 32], Shl(1, r), 32);
  }

  lemma PowOne()
    ensures Pow2(1) == 2
  {
  }

  lemma SetMark(fs: seq<Field>, seen: set<nat>, words: seq<nat>, k: nat)
    requires k < |fs| && Marks(fs, seen, words)
    requires fs[k].htype.Required? && RequiredBefore(fs, k) < PB_MAX_REQUIRED_FIELDS
    ensures Marks(fs, seen + {k}, Marked(words, RequiredBefore(fs, k)))
  {
    hide SeenIndex, Bit, RequiredBefore, Marked;
    var index := RequiredBefore(fs, k);
    MarkedLength(words, index);
    forall i: nat | i < PB_MAX_REQUIRED_FIELDS
      ensures Bit(Marked(words, index)[i / 32], i % 32) <==> SeenIndex(fs, seen + {k}, i)
    {
      SeenAlso(fs, seen, k, i);
      MarkBit(words, index, i);
    }
    MarkBit(words, index, 0);
    MarkBit(words, index, 32);
  }

  lemma MarkedLength(words: seq<nat>, index: nat)
    requires |words| == 2 && index < PB_MAX_REQUIRED_FIELDS
    ensures |Marked(words, index)| == 2
  {
  }

  // The words miss a field exactly when one of the first 64 indices has no bit.
  lemma MissesIndex(fs: seq<Field>, seen: set<nat>)
    ensures MissesRequired(fs, seen)
       <==> exists i: nat | i < RequiredBefore(fs, |fs|) && i < PB_MAX_REQUIRED_FIELDS :: !SeenIndex(fs, seen, i)
  {
    if MissesRequired(fs, seen) {
      var k: nat :| k < |fs| && fs[k].htype.Required? && RequiredBefore(fs, k) < PB_MAX_REQUIRED_FIELDS && k !in seen;
      var i := RequiredBefore(fs, k);
      RequiredGrows(fs, k, |fs|);
      if SeenIndex(fs, seen, i) {
        var j: nat :| j < |fs| && fs[j].htype.Required? && RequiredBefore(fs, j) == i && j in seen;
        IndexUnique(fs, j, k);
      }
    }
    if i: nat :| i < RequiredBefore(fs, |fs|) && i < PB_MAX_REQUIRED_FIELDS && !SeenIndex(fs, seen, i) {
      var k := RequiredAt(fs, |fs|, i);
      assert k !in seen;
    }
  }

  ghost predicate AllSet(w: nat, r: nat) {
    forall j: nat | j < r :: Bit(w, j)
  }

  // A word with no bit at or above r equals r ones exactly when all bits below r are set.
  lemma FullWord(w: nat, r: nat)
    requires w <= ALL_BITS && r <= 32 && forall j: nat | r <= j < 32 :: !Bit(w, j)
    ensures w == Pow2(r) - 1 <==> AllSet(w, r)
  {
    hide Bit, Pow2;
    Pow2Of64();
    Pow2Monotone(r, 32);
    var ones: nat := Pow2(r) - 1;
    forall j: nat | j < 32
      ensures Bit(ones, j) <==> j < r
    {
      BitsBelow(r, j);
    }
    if w == ones {
      forall j: nat | j < r
        ensures Bit(w, j)
      {
        assert Bit(ones, j);
      }
    } else if AllSet(w, r) {
      BitExtensionality(w, ones, 32);
      assert false;
    }
  }

  // allbits >> (32 - r).
  lemma ShiftedOnes(r: nat)
    requires r <= 32
    ensures ALL_BITS / Pow2(32 - r) == Pow2(r) - 1
  {
    hide Pow2;
    Pow2Of64();
    Pow2Add(32 - r, r);
    var m, q := Pow2(32 - r), Pow2(r) - 1;
    assert m * (q + 1) == m * q + m;
    ModUnique(ALL_BITS, m, q, m - 1);
  }

  lemma NoIndexBeyond(fs: seq<Field>, seen: set<nat>, i: nat)
    requires i >= RequiredBefore(fs, |fs|)
    ensures !SeenIndex(fs, seen, i)
  {
    if SeenIndex(fs, seen, i) {
      var k: nat :| k < |fs| && fs[k].htype.Required? && RequiredBefore(fs, k) == i && k in seen;
      RequiredGrows(fs, k, |fs|);
    }
  }

  // The indices from 32 * w to the end of word w that have a field have their bit.
  ghost predicate WordFull(fs: seq<Field>, seen: set<nat>, w: nat, n: nat) {
    forall i: nat | 32 * w <= i < n && i < 32 * w + 32 :: SeenIndex(fs, seen, i)
  }

  // The comparison of word w against its n - 32 * w low bits.
  lemma WordCheck(fs: seq<Field>, seen: set<nat>, words: seq<nat>, w: nat, r: nat, n: nat)
    requires Marks(fs, seen, words) && w < 2 && r <= 32
    requires n <= PB_MAX_REQUIRED_FIELDS && n <= RequiredBefore(fs, |fs|)
    requires 32 * w + r == n || (r == 32 && n >= 32 * w + 32)
    requires r < 32 ==> n == RequiredBefore(fs, |fs|)
    ensures words[w] == Pow2(r) - 1 <==> WordFull(fs, seen, w, n)
  {
    hide SeenIndex, RequiredBefore, Bit, Pow2;
    forall j: nat | j < 32
      ensures Bit(words[w], j) <==> SeenIndex(fs, seen, 32 * w + j)
    {
      assert (32 * w + j) / 32 == w && (32 * w + j) % 32 == j;
    }
    forall j: nat | r <= j < 32
      ensures !Bit(words[w], j)
    {
      NoIndexBeyond(fs, seen, 32 * w + j);
    }
    FullWord(words[w], r);
    if words[w] == Pow2(r) - 1 {
      forall i: nat | 32 * w <= i < n && i < 32 * w + 32
        ensures SeenIndex(fs, seen, i)
      {
        assert Bit(words[w], i - 32 * w);
      }
    }
    if WordFull(fs, seen, w, n) {
      forall j: nat | j < r
        ensures Bit(words[w], j)
      {
        assert SeenIndex(fs, seen, 32 * w + j);
      }
    }
  }

  lemma FullWords(fs: seq<Field>, seen: set<nat>, n: nat)
    requires n == if RequiredBefore(fs, |fs|) > PB_MAX_REQUIRED_FIELDS then PB_MAX_REQUIRED_FIELDS else RequiredBefore(fs, |fs|)
    ensures MissesRequired(fs, seen) <==> !(WordFull(fs, seen, 0, n) && WordFull(fs, seen, 1, n))
  {
    hide SeenIndex, RequiredBefore, MissesRequired;
    MissesIndex(fs, seen);
    if i: nat :| i < n && !SeenIndex(fs, seen, i) {
      assert !WordFull(fs, seen, i / 32, n);
    } else {
      assert WordFull(fs, seen, 0, n) && WordFull(fs, seen, 1, n);
    }
  }

  // The check at the end of pb_decode_noinit. It finds the number of required fields by running
  // the iterator to the end of the descriptor.
  method CountRequired(iter: FieldIter) returns (count: nat)
    requires iter.Valid() && forall k: nat | k < |iter.start| :: iter.start[k].tag != 0
    modifies iter
    ensures iter.Valid() && count == RequiredBefore(iter.start, |iter.start|)
  {
    count := 0;
    var lastRequired := true;
    var more := true;
    while more
      invariant iter.Valid()
      invariant iter.start == [] ==> count == 0
      invariant !more && iter.start != [] ==>
                  count == RequiredBefore(iter.start, |iter.start| - 1)
                  && lastRequired == iter.start[|iter.start| - 1].htype.Required?
      decreases if more then |iter.start| - iter.pos + 1 else 0
    {
      count := iter.requiredIndex;
      lastRequired := iter.start == [] || iter.start[iter.pos].htype.Required?;
      more := iter.Next();
    }
    if lastRequired && iter.Tag() != 0 {
      count := count + 1;
    }
  }

  // The comparison of the words with the expected bits.
  method CheckWords(fs: seq<Field>, words: array<nat>, ghost seen: set<nat>, total: nat) returns (missing: bool)
    requires words.Length == 2 && Marks(fs, seen, words[..]) && total == RequiredBefore(fs, |fs|)
    ensures missing <==> MissesRequired(fs, seen)
  {
    hide RequiredBefore, MissesRequired, WordFull, Marks;
    var count := if total > PB_MAX_REQUIRED_FIELDS then PB_MAX_REQUIRED_FIELDS else total;
    FullWords(fs, seen, count);
    if count > 0 {
      var i := 0;
      while i < count / 32
        invariant 0 <= i <= count / 32
        invariant forall w: nat | w < i :: WordFull(fs, seen, w, count)
      {
        WordCheck(fs, seen, words[..], i, 32, count);
        Pow2Of64();
        if words[i] != ALL_BITS {
          return true;
        }
        i := i + 1;
      }
      if count % 32 != 0 {
        WordCheck(fs, seen, words[..], count / 32, count % 32, count);
        ShiftedOnes(count % 32);
        if words[count / 32] != ALL_BITS / Pow2(32 - count % 32) {
          return true;
        }
      }
    }
    BeyondCount(fs, seen, count);
    return false;
  }

  lemma BeyondCount(fs: seq<Field>, seen: set<nat>, n: nat)
    ensures n <= 32 ==> WordFull(fs, seen, 1, n)
    ensures n == 0 ==> WordFull(fs, seen, 0, n)
  {
  }
}
