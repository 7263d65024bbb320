// Handshake fragments of DTLS: their headers (RFC 6347 section 4.2.2) and the reassembly bitmask.
module DtlsFragment {
  import opened Bits
  import opened Results

  // ---------- fragment headers ----------

  const HEADER_LENGTH: nat := 12
  const U16: nat := 0x1_0000
  const U24: nat := 0x100_0000

  datatype Header = Header(typ: byte, msgLen: nat, seqNo: nat, fragOff: nat, fragLen: nat)

  predicate HeaderOk(h: Header) {
    h.msgLen < U24 && h.seqNo < U16 && h.fragOff < U24 && h.fragLen < U24
  }

  function Put16(v: nat): seq<byte>
    requires v < U16
  {
    [v / 256, v % 256]
  }

  function Put24(v: nat): seq<byte>
    requires v < U24
  {
    [v / 0x1_0000, v / 256 % 256, v % 256]
  }

  function PutHeader(h: Header): (r: seq<byte>)
    requires HeaderOk(h)
    ensures |r| == HEADER_LENGTH
  {
    [h.typ] + Put24(h.msgLen) + Put16(h.seqNo) + Put24(h.fragOff) + Put24(h.fragLen)
  }

  function Get16(s: seq<byte>, k: nat): (v: nat)
    requires k + 2 <= |s|
    ensures v < U16
  {
    (s[k] as nat) * 256 + s[k + 1]
  }

  function Get24(s: seq<byte>, k: nat): (v: nat)
    requires k + 3 <= |s|
    ensures v < U24
  {
    (s[k] as nat) * 0x1_0000 + (s[k + 1] as nat) * 256 + s[k + 2]
  }

  datatype Fragment = Fragment(hdr: Header, body: seq<byte>)

  // dtls1_parse_fragment: a header, its body and what follows.
  function ParseFragment(s: seq<byte>): (r: Option<(Fragment, seq<byte>)>)
    ensures r.Some? ==> HeaderOk(r.value.0.hdr) && |r.value.0.body| == r.value.0.hdr.fragLen && |r.value.1| < |s|
  {
    if |s| < HEADER_LENGTH then None
    else
      var h := Header(s[0], Get24(s, 1), Get16(s, 4), Get24(s, 6), Get24(s, 9));
      if |s| - HEADER_LENGTH < h.fragLen then None
      else Some((Fragment(h, s[HEADER_LENGTH..HEADER_LENGTH + h.fragLen]), s[HEADER_LENGTH + h.fragLen..]))
  }

  // A whole message, as it is queued by the sender and presented to the handshake of the receiver.
  function Raw(typ: byte, seqNo: nat, body: seq<byte>): seq<byte>
    requires seqNo < U16 && |body| < U24
  {
    PutHeader(Header(typ, |body|, seqNo, 0, |body|)) + body
  }

  lemma Get16Put(v: nat, p: seq<byte>, t: seq<byte>)
    requires v < U16
    ensures Get16(p + Put16(v) + t, |p|) == v
  {
  }

  lemma Get24Put(v: nat, p: seq<byte>, t: seq<byte>)
    requires v < U24
    ensures Get24(p + Put24(v) + t, |p|) == v
  {
  }

  // Parsing a built fragment gives it back, whatever follows.
  lemma ParseBuilt(f: Fragment, tail: seq<byte>)
    requires HeaderOk(f.hdr) && |f.body| == f.hdr.fragLen
    ensures ParseFragment(PutHeader(f.hdr) + f.body + tail) == Some((f, tail))
  {
    var h := f.hdr;
    var s := PutHeader(h) + f.body + tail;
    hide Get16, Get24, Put16, Put24;
    Put24Length(h.msgLen);
    Put24Length(h.fragOff);
    Put24Length(h.fragLen);
    Put16Length(h.seqNo);
    var a, b, c, d := Put24(h.msgLen), Put16(h.seqNo), Put24(h.fragOff), Put24(h.fragLen);
    var t := f.body + tail;
    Get24Put(h.msgLen, [h.typ], b + c + d + t);
    Get16Put(h.seqNo, [h.typ] + a, c + d + t);
    Get24Put(h.fragOff, [h.typ] + a + b, d + t);
    Get24Put(h.fragLen, [h.typ] + a + b + c, t);
    assert s == [h.typ] + a + (b + c + d + t);
    assert s == [h.typ] + a + b + (c + d + t);
    assert s == [h.typ] + a + b + c + (d + t);
    assert s == [h.typ] + a + b + c + d + t;
    assert s[0] == h.typ;
    assert s[HEADER_LENGTH..HEADER_LENGTH + h.fragLen] == f.body;
    assert s[HEADER_LENGTH + h.fragLen..] == tail;
  }

  lemma Put24Length(v: nat)
    requires v < U24
    ensures |Put24(v)| == 3
  {
  }

  lemma Put16Length(v: nat)
    requires v < U16
    ensures |Put16(v)| == 2
  {
  }

  // ---------- the bitmask ----------

  // bit_range: a byte with the bits from start up to end, from two 32-bit masks.
  function BitRange(start: nat, end: nat): (r: nat)
    requires start <= 8 && end <= 8
    ensures r < 256
  {
    Pow2Monotone(start, 32);
    And(Not(Pow2(start) - 1, 32), Pow2(end) - 1) % 256
  }

  lemma BitRangeBits(start: nat, end: nat, i: nat)
    requires start <= 8 && end <= 8
    ensures Bit(BitRange(start, end), i) <==> start <= i < end
  {
    hide And, Not, Pow2, Bit;
    Pow2Monotone(start, 32);
    Pow2Monotone(end, 8);
    var a, b := Not(Pow2(start) - 1, 32), Pow2(end) - 1;
    AndBound(a, b);
    assert Pow2(8) == 256 by { Pow2Values(); }
    assert And(a, b) % 256 == And(a, b);
    AndBit(a, b, i);
    NotBit(Pow2(start) - 1, 32, i);
    BitsBelow(start, i);
    BitsBelow(end, i);
  }

  lemma OrRange(b: nat, start: nat, end: nat)
    requires b < 256 && start <= 8 && end <= 8
    ensures Or(b, BitRange(start, end)) < 256
    ensures forall k: nat :: Bit(Or(b, BitRange(start, end)), k) <==> Bit(b, k) || start <= k < end
  {
    hide Or, Bit, BitRange, Pow2;
    assert Pow2(8) == 256 by { Pow2Values(); }
    OrBound(b, BitRange(start, end), 8);
    forall k: nat
      ensures Bit(Or(b, BitRange(start, end)), k) <==> Bit(b, k) || start <= k < end
    {
      OrBit(b, BitRange(start, end), k);
      BitRangeBits(start, end, k);
    }
  }

  // A byte equals bit_range(0, r) exactly when its bits below r are set and no others.
  lemma FullByte(b: nat, r: nat)
    requires b < 256 && r <= 8 && forall k: nat | r <= k < 8 :: !Bit(b, k)
    ensures b == BitRange(0, r) <==> LowBitsSet(b, r)
    ensures BitRange(0, 8) == 255
  {
    hide Bit, BitRange, Pow2;
    assert Pow2(8) == 256 by { Pow2Values(); }
    LowRange(8);
    forall k: nat | k < 8
      ensures Bit(BitRange(0, r), k) <==> k < r
    {
      BitRangeBits(0, r, k);
    }
    if LowBitsSet(b, r) {
      BitExtensionality(b, BitRange(0, r), 8);
    }
    if b == BitRange(0, r) {
      assert LowBitsSet(b, r);
    }
  }

  lemma LowRange(r: nat)
    requires r <= 8
    ensures BitRange(0, r) == Pow2(r) - 1
  {
    hide Bit, BitRange, Pow2;
    assert Pow2(8) == 256 by { Pow2Values(); }
    Pow2Monotone(r, 8);
    forall k: nat | k < 8
      ensures Bit(BitRange(0, r), k) <==> k < r
    {
      BitRangeBits(0, r, k);
    }
    LowOnes(BitRange(0, r), r, 8);
  }

  ghost predicate LowBitsSet(b: nat, r: nat) {
    forall k: nat | k < r :: Bit(b, k)
  }

  predicate Between(start: nat, i: nat, end: nat) {
    start <= i < end
  }

  // The positions from start to end.
  function Span(start: nat, end: nat): set<nat> {
    set i: nat | start <= i < end && Between(start, i, end)
  }

  predicate Marked(mask: seq<byte>, i: nat)
    requires i < 8 * |mask|
  {
    Bit(mask[i / 8], i % 8)
  }

  // Bit i is set exactly when byte i is in got; no bit stands beyond the message.
  ghost predicate Covers(mask: seq<byte>, got: set<nat>, len: nat) {
    && |mask| == (len + 7) / 8 && got <= Span(0, len)
    && forall i: nat | i < 8 * |mask| :: Marked(mask, i) <==> i in got
  }

  lemma NothingCovered(mask: seq<byte>, len: nat)
    requires |mask| == (len + 7) / 8 && forall j | 0 <= j < |mask| :: mask[j] == 0
    ensures Covers(mask, {}, len)
  {
    forall i: nat | i < 8 * |mask|
      ensures !Marked(mask, i)
    {
      BitZero(i % 8);
    }
  }

  // What marking start..end does to byte j of the mask.
  function MarkedByte(b: byte, j: nat, start: nat, end: nat): nat {
    if start / 8 == end / 8 then
      if j == start / 8 then Or(b, BitRange(start % 8, end % 8)) else b
    else if j == start / 8 then Or(b, BitRange(start % 8, 8))
    else if start / 8 < j < end / 8 then 255
    else if j == end / 8 && end % 8 != 0 then Or(b, BitRange(0, end % 8))
    else b
  }

  lemma MarkedByteBits(b: byte, j: nat, start: nat, end: nat, k: nat)
    requires start < end && k < 8
    ensures MarkedByte(b, j, start, end) < 256
    ensures Bit(MarkedByte(b, j, start, end), k) <==> Bit(b, k) || start <= 8 * j + k < end
  {
    hide Bit, Or, BitRange;
    OrRange(b, start % 8, end % 8);
    OrRange(b, start % 8, 8);
    OrRange(b, 0, end % 8);
    AllOnes(k);
  }

  lemma AllOnes(k: nat)
    requires k < 8
    ensures Bit(255, k)
  {
    BitsBelow(8, k);
    Pow2Values();
  }

  lemma MarkCovers(mask: seq<byte>, mask': seq<byte>, got: set<nat>, len: nat, start: nat, end: nat)
    requires Covers(mask, got, len) && start < end <= len && |mask'| == |mask|
    requires forall j | 0 <= j < |mask| :: mask'[j] == MarkedByte(mask[j], j, start, end)
    ensures Covers(mask', got + Span(start, end), len)
  {
    hide Bit, MarkedByte;
    forall i: nat | i < 8 * |mask'|
      ensures Marked(mask', i) <==> i in got + Span(start, end)
    {
      MarkedByteBits(mask[i / 8], i / 8, start, end, i % 8);
      assert Marked(mask, i) <==> i in got;
    }
  }

  // The completeness test over the bytes of the mask.
  predicate AllMarked(mask: seq<byte>, len: nat)
    requires |mask| == (len + 7) / 8
  {
    && (forall j | 0 <= j < len / 8 :: mask[j] == 255)
    && (len % 8 != 0 ==> mask[len / 8] == BitRange(0, len % 8))
  }

  lemma ByteFull(mask: seq<byte>, got: set<nat>, len: nat, j: nat, r: nat)
    requires Covers(mask, got, len) && j < |mask| && r <= 8 && 8 * j + r <= len && (r < 8 ==> 8 * j + r == len)
    ensures mask[j] == BitRange(0, r) <==> Span(8 * j, 8 * j + r) <= got
    ensures BitRange(0, 8) == 255
  {
    hide Bit, BitRange;
    forall k: nat | k < 8
      ensures Bit(mask[j], k) <==> 8 * j + k in got
    {
      assert (8 * j + k) / 8 == j && (8 * j + k) % 8 == k;
      assert Marked(mask, 8 * j + k) <==> 8 * j + k in got;
    }
    FullByte(mask[j], r);
    if LowBitsSet(mask[j], r) {
      forall i | i in Span(8 * j, 8 * j + r)
        ensures i in got
      {
        assert Bit(mask[j], i - 8 * j);
      }
    }
    if Span(8 * j, 8 * j + r) <= got {
      forall k: nat | k < r
        ensures Bit(mask[j], k)
      {
        assert 8 * j + k in Span(8 * j, 8 * j + r);
      }
    }
  }

  // The test succeeds exactly when the marked ranges cover the message.
  lemma AllMarkedIffCovered(mask: seq<byte>, got: set<nat>, len: nat)
    requires Covers(mask, got, len)
    ensures AllMarked(mask, len) <==> got == Span(0, len)
  {
    hide BitRange;
    forall j: nat | j < len / 8
      ensures mask[j] == 255 <==> Span(8 * j, 8 * j + 8) <= got
    {
      ByteFull(mask, got, len, j, 8);
    }
    if len % 8 != 0 {
      ByteFull(mask, got, len, len / 8, len % 8);
    }
    if AllMarked(mask, len) {
      forall i | i in Span(0, len)
        ensures i in got
      {
        if i / 8 < len / 8 {
          assert i in Span(8 * (i / 8), 8 * (i / 8) + 8);
        } else {
          assert i in Span(8 * (len / 8), 8 * (len / 8) + len % 8);
        }
      }
    }
    if got == Span(0, len) {
      assert forall j: nat | j < len / 8 :: Span(8 * j, 8 * j + 8) <= got;
    }
  }

  // The marking of dtls1_hm_fragment_mark.
  method SetRange(mask: array<byte>, start: nat, end: nat)
    requires start < end <= 8 * mask.Length
    modifies mask
    ensures forall j | 0 <= j < mask.Length :: mask[j] == MarkedByte(old(mask[j]), j, start, end)
  {
    hide Or, BitRange;
    var first, last := start / 8, end / 8;
    if first == last {
      OrRange(mask[first], start % 8, end % 8);
      mask[first] := Or(mask[first], BitRange(start % 8, end % 8));
    } else {
      OrRange(mask[first], start % 8, 8);
      mask[first] := Or(mask[first], BitRange(start % 8, 8));
      var i := first + 1;
      while i < last
        invariant first < i <= last
        invariant forall j | 0 <= j < i :: mask[j] == MarkedByte(old(mask[j]), j, start, end)
        invariant forall j | i <= j < mask.Length :: mask[j] == old(mask[j])
      {
        mask[i] := 0xff;
        i := i + 1;
      }
      if end % 8 != 0 {
        OrRange(mask[last], 0, end % 8);
        mask[last] := Or(mask[last], BitRange(0, end % 8));
      }
    }
  }

  // Its completeness check.
  method IsFull(mask: array<byte>, len: nat) returns (full: bool)
    requires mask.Length == (len + 7) / 8
    ensures full <==> AllMarked(mask[..], len)
  {
    hide BitRange;
    var i := 0;
    while i < len / 8
      invariant 0 <= i <= len / 8 && forall j | 0 <= j < i :: mask[j] == 0xff
    {
      if mask[i] != 0xff {
        return false;
      }
      i := i + 1;
    }
    return len % 8 == 0 || mask[len / 8] == BitRange(0, len % 8);
  }

  // ---------- hm_fragment ----------

  // A message under reassembly: its bytes so far and the positions received.
  datatype Partial = Partial(typ: byte, seqNo: nat, data: seq<byte>, got: set<nat>)

  predicate Complete(p: Partial) {
    p.got == Span(0, |p.data|)
  }

  // The bytes of a fragment copied into a message under reassembly.
  function Receive(p: Partial, off: nat, body: seq<byte>): Partial
    requires off + |body| <= |p.data|
  {
    p.(data := p.data[..off] + body + p.data[off + |body|..], got := p.got + Span(off, off + |body|))
  }

  function NewPartial(h: Header): Partial {
    Partial(h.typ, h.seqNo, seq(h.msgLen, i => 0), {})
  }

  class HmFragment {
    const typ: byte
    const seqNo: nat
    const msgLen: nat
    const data: array<byte>          // the message with its header
    var reassembly: array?<byte>     // null once the message is complete
    ghost var got: set<nat>

    ghost predicate Valid()
      reads this, data, reassembly
    {
      && seqNo < U16 && msgLen < U24 && data.Length == HEADER_LENGTH + msgLen
      && data[..HEADER_LENGTH] == PutHeader(Header(typ, msgLen, seqNo, 0, msgLen))
      && got <= Span(0, msgLen)
      && (reassembly == null <==> got == Span(0, msgLen))
      && (reassembly != null ==> reassembly != data && Covers(reassembly[..], got, msgLen))
    }

    ghost function Abs(): Partial
      requires data.Length == HEADER_LENGTH + msgLen
      reads this, data
    {
      Partial(typ, seqNo, data[HEADER_LENGTH..], got)
    }

    // dtls1_hm_fragment_new.
    constructor (h: Header)
      requires HeaderOk(h)
      ensures Valid() && fresh(data) && (reassembly != null ==> fresh(reassembly))
      ensures typ == h.typ && seqNo == h.seqNo && msgLen == h.msgLen && Abs() == NewPartial(h)
    {
      typ, seqNo, msgLen, got := h.typ, h.seqNo, h.msgLen, {};
      var head := PutHeader(Header(h.typ, h.msgLen, h.seqNo, 0, h.msgLen));
      var memory := new byte[HEADER_LENGTH + h.msgLen](i => if 0 <= i < HEADER_LENGTH then head[i] else 0);
      data := memory;
      reassembly := null;
      new;
      assert data[..HEADER_LENGTH] == head;
      if h.msgLen > 0 {
        var mask := new byte[(h.msgLen + 7) / 8](i => 0);
        NothingCovered(mask[..], h.msgLen);
        reassembly := mask;
        assert 0 in Span(0, msgLen);
      } else {
        assert Span(0, 0) == {};
      }
    }

    // The OPENSSL_memcpy of dtls1_open_handshake, and the mark.
    method Add(off: nat, body: seq<byte>)
      requires Valid() && reassembly != null && off + |body| <= msgLen
      modifies this, data, reassembly
      ensures Valid() && Abs() == Receive(old(Abs()), off, body)
      ensures reassembly == null || reassembly == old(reassembly)
    {
      hide PutHeader, Covers;
      ghost var before := data[..];
      forall i | 0 <= i < |body| {
        data[HEADER_LENGTH + off + i] := body[i];
      }
      assert data[..HEADER_LENGTH] == before[..HEADER_LENGTH];
      assert reassembly[..] == old(reassembly[..]);
      assert data[HEADER_LENGTH..] == before[HEADER_LENGTH..][..off] + body + before[HEADER_LENGTH..][off + |body|..];
      ghost var copied := data[..];
      Mark(off, off + |body|);
      assert data[..] == copied;
    }

    // dtls1_hm_fragment_mark.
    method Mark(start: nat, end: nat)
      requires Valid() && reassembly != null && start <= end <= msgLen
      modifies this, reassembly
      ensures Valid() && got == old(got) + Span(start, end)
      ensures reassembly == null || reassembly == old(reassembly)
    {
      hide MarkedByte, Covers, AllMarked;
      if start == end {
        assert Span(start, end) == {};
        assert got + {} == got;
        return;
      }
      CoversLength(reassembly[..], got, msgLen);
      SetRange(reassembly, start, end);
      MarkCovers(old(reassembly[..]), reassembly[..], got, msgLen, start, end);
      got := got + Span(start, end);
      CoversLength(reassembly[..], got, msgLen);
      AllMarkedIffCovered(reassembly[..], got, msgLen);
      var full := IsFull(reassembly, msgLen);
      if full {
        reassembly := null;
      }
    }
  }

  lemma CoversLength(mask: seq<byte>, got: set<nat>, len: nat)
    requires Covers(mask, got, len)
    ensures |mask| == (len + 7) / 8 && len <= 8 * |mask| && got <= Span(0, len)
  {
  }
}
