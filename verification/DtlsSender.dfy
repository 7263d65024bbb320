// The sending side of the DTLS handshake transport: a flight cut into packets of at most the MTU.
module DtlsSender {
  import opened Bits
  import opened Results
  import opened DtlsFragment

  const RECORD_HEADER: nat := 13
  const MAX_FLIGHT: nat := 7
  const SEQUENCE_END: nat := 0xFFFF_FFFF_FFFF
  const CCS: seq<byte> := [1]

  // What is known of an AEAD: bounds and the length of its output.
  datatype Cipher = Cipher(maxOverhead: nat, nonceLen: nat, sealedLen: nat -> nat)

  ghost predicate CipherOk(c: Cipher) {
    forall n: nat :: c.sealedLen(n) <= n + c.maxOverhead
  }

  // DTLS_OUTGOING_MESSAGE.
  datatype Outgoing = Outgoing(data: seq<byte>, epoch: nat, isCcs: bool)

  // A sealed record: the message and the part of its body that it carries.
  datatype Piece = Piece(idx: nat, off: nat, len: nat, plain: seq<byte>, sealedLen: nat)

  // The write keys of the current and the previous epoch, with their sequence numbers.
  datatype Keys = Keys(epoch: nat, cur: Cipher, prev: Cipher, curSeq: nat, prevSeq: nat)

  // The position in the flight: outgoing_written and outgoing_offset.
  datatype Sender = Sender(flight: seq<Outgoing>, written: nat, offset: nat, keys: Keys)

  // The number of the next record under one of the two keys.
  function NextSeq(k: Keys, usePrev: bool): nat {
    if usePrev then k.prevSeq else k.curSeq
  }

  function WithSeq(k: Keys, usePrev: bool, seqNo: nat): Keys {
    if usePrev then k.(prevSeq := seqNo) else k.(curSeq := seqNo)
  }

  ghost predicate SameCiphers(k: Keys, k': Keys) {
    k.epoch == k'.epoch && k.cur == k'.cur && k.prev == k'.prev
  }

  // dtls_seal_record: the length of the record, and the keys afterwards. The number after the last
  // one wraps to zero, and sealing fails.
  function Seal(k: Keys, usePrev: bool, len: nat, maxOut: nat): (r: (Option<nat>, Keys))
    ensures SameCiphers(k, r.1)
  {
    var c := if usePrev then k.prev else k.cur;
    var seqNo := NextSeq(k, usePrev);
    var n := c.sealedLen(len);
    if maxOut < RECORD_HEADER || n > maxOut - RECORD_HEADER then (None, k)
    else if seqNo >= SEQUENCE_END then (None, WithSeq(k, usePrev, 0))
    else (if n >= 0x1_0000 then None else Some(RECORD_HEADER + n), WithSeq(k, usePrev, seqNo + 1))
  }

  // The message of an outgoing handshake message, which is stored as one fragment.
  function Whole(data: seq<byte>): (r: Option<Fragment>)
    ensures r.Some? ==> HeaderOk(r.value.hdr) && |r.value.body| == r.value.hdr.msgLen
  {
    match ParseFragment(data)
    case None => None
    case Some((f, rest)) =>
      if f.hdr.fragOff == 0 && f.hdr.msgLen == f.hdr.fragLen && rest == [] then Some(f) else None
  }

  lemma RawIsWhole(typ: byte, q: nat, body: seq<byte>)
    requires q < U16 && |body| < U24
    ensures Whole(Raw(typ, q, body)) == Some(Fragment(Header(typ, |body|, q, 0, |body|), body))
  {
    hide ParseFragment, PutHeader;
    var f := Fragment(Header(typ, |body|, q, 0, |body|), body);
    ParseBuilt(f, []);
    assert Raw(typ, q, body) == PutHeader(f.hdr) + f.body + [];
  }

  datatype Sealed = SealError(keys: Keys) | NoProgress | Written(piece: Piece, keys: Keys, last: bool)

  function Min(a: nat, b: nat): nat {
    if a <= b then a else b
  }

  // Whether a message belongs to the previous epoch.
  predicate UsesPrev(k: Keys, m: Outgoing) {
    k.epoch >= 1 && m.epoch == k.epoch - 1
  }

  // seal_next_message. On Written the offset moves by the length of the piece, or back to zero.
  function SealMessage(s: Sender, maxOut: nat): (r: Sealed)
    requires s.written < |s.flight|
    ensures r.SealError? || r.Written? ==> SameCiphers(s.keys, r.keys)
  {
    var msg := s.flight[s.written];
    var k := s.keys;
    var usePrev := UsesPrev(k, msg);
    if !usePrev && msg.epoch != k.epoch then SealError(k)
    else
      var c := if usePrev then k.prev else k.cur;
      var overhead, prefix := RECORD_HEADER + c.maxOverhead, RECORD_HEADER + c.nonceLen;
      if msg.isCcs then
        if maxOut < 1 + overhead then NoProgress
        else
          match Seal(k, usePrev, 1, maxOut)
          case (None, k') => SealError(k')
          case (Some(n), k') => Written(Piece(s.written, 0, 0, CCS, n), k', true)
      else
        match Whole(msg.data)
        case None => SealError(k)
        case Some(f) =>
          if s.offset > |f.body| then SealError(k)
          else if maxOut < HEADER_LENGTH + 1 + overhead || maxOut < prefix then NoProgress
          else
            var todo := Min(|f.body| - s.offset, maxOut - HEADER_LENGTH - overhead);
            if HEADER_LENGTH + todo > maxOut - prefix then SealError(k)
            else
              var plain := FragmentOf(f, s.offset, todo);
              match Seal(k, usePrev, |plain|, maxOut)
              case (None, k') => SealError(k')
              case (Some(n), k') => Written(Piece(s.written, s.offset, todo, plain, n), k', todo == |f.body| - s.offset)
  }

  // The fragment of todo bytes at offset off of the message f.
  function FragmentOf(f: Fragment, off: nat, todo: nat): (r: seq<byte>)
    requires HeaderOk(f.hdr) && |f.body| == f.hdr.msgLen && off + todo <= |f.body|
    ensures |r| == HEADER_LENGTH + todo
  {
    PutHeader(f.hdr.(fragOff := off, fragLen := todo)) + f.body[off..off + todo]
  }

  // The position after a piece.
  function Moved(s: Sender, p: Piece, k: Keys, last: bool): Sender {
    if last then s.(written := s.written + 1, offset := 0, keys := k)
    else s.(offset := s.offset + p.len, keys := k)
  }

  function Prepend(ps: seq<Piece>, r: (seq<Piece>, Sender, bool)): (seq<Piece>, Sender, bool) {
    (ps + r.0, r.1, r.2)
  }

  lemma PrependNothing(r: (seq<Piece>, Sender, bool))
    ensures Prepend([], r) == r
  {
    assert [] + r.0 == r.0;
  }

  lemma PrependEmpty(ps: seq<Piece>, s: Sender)
    ensures Prepend(ps, ([], s, false)) == (ps, s, false) && Prepend(ps, ([], s, true)) == (ps, s, true)
  {
    assert ps + [] == ps;
  }

  lemma PrependOne(ps: seq<Piece>, p: Piece, s: Sender)
    ensures Prepend(ps, ([p], s, false)) == (ps + [p], s, false)
  {
  }

  lemma PrependTwice(a: seq<Piece>, b: seq<Piece>, r: (seq<Piece>, Sender, bool))
    ensures Prepend(a, Prepend(b, r)) == Prepend(a + b, r)
  {
    assert a + (b + r.0) == (a + b) + r.0;
  }

  // The loop of seal_next_packet: the pieces of a packet, the position after them, and whether
  // sealing failed.
  function SealPacket(s: Sender, maxOut: nat): (r: (seq<Piece>, Sender, bool))
    requires s.written <= |s.flight|
    ensures r.1.flight == s.flight && r.1.written <= |s.flight| && SameCiphers(s.keys, r.1.keys)
    decreases |s.flight| - s.written
  {
    if s.written == |s.flight| then ([], s, false)
    else
      match SealMessage(s, maxOut)
      case SealError(k) => ([], s.(keys := k), true)
      case NoProgress => ([], s, false)
      case Written(p, k, last) =>
        var s' := Moved(s, p, k, last);
        if !last then ([p], s', false)
        else
          Prepend([p], SealPacket(s', if p.sealedLen <= maxOut then maxOut - p.sealedLen else 0))
  }

  // ---------- size and progress ----------

  function PacketLen(ps: seq<Piece>): nat {
    if ps == [] then 0 else ps[0].sealedLen + PacketLen(ps[1..])
  }

  lemma PieceFits(s: Sender, maxOut: nat)
    requires s.written < |s.flight| && SealMessage(s, maxOut).Written?
    ensures SealMessage(s, maxOut).piece.sealedLen <= maxOut
  {
    hide ParseFragment, PutHeader;
  }

  lemma PacketLenHead(p: Piece, ps: seq<Piece>)
    ensures PacketLen([p] + ps) == p.sealedLen + PacketLen(ps)
  {
    assert ([p] + ps)[1..] == ps;
  }

  // A packet is never longer than its limit.
  lemma {:induction false} PacketFits(s: Sender, maxOut: nat)
    requires s.written <= |s.flight|
    ensures PacketLen(SealPacket(s, maxOut).0) <= maxOut
    decreases |s.flight| - s.written
  {
    if s.written < |s.flight| && SealMessage(s, maxOut).Written? {
      PieceFits(s, maxOut);
      hide SealMessage, PacketLen;
      var w := SealMessage(s, maxOut);
      if w.last {
        var t, room := Moved(s, w.piece, w.keys, true), maxOut - w.piece.sealedLen;
        var rest := SealPacket(t, room).0;
        PacketFits(t, room);
        PacketLenHead(w.piece, rest);
      } else {
        PacketLenHead(w.piece, []);
        NothingFits();
        assert [w.piece] + [] == [w.piece];
      }
    } else {
      NothingFits();
    }
  }

  lemma NothingFits()
    ensures PacketLen([]) == 0
  {
  }

  // (written, offset) in lexicographic order.
  predicate Before(s: Sender, t: Sender) {
    s.written < t.written || (s.written == t.written && s.offset < t.offset)
  }

  lemma PieceProgress(s: Sender, maxOut: nat)
    requires s.written < |s.flight| && SealMessage(s, maxOut).Written?
    ensures var w := SealMessage(s, maxOut);
            Before(s, Moved(s, w.piece, w.keys, w.last))
  {
    hide ParseFragment, PutHeader, Seal;
  }

  // A packet with a piece strictly advances the position; without one the position stands still.
  lemma {:induction false} PacketProgress(s: Sender, maxOut: nat)
    requires s.written <= |s.flight|
    ensures var (ps, t, failed) := SealPacket(s, maxOut);
            && (ps != [] ==> Before(s, t))
            && (ps == [] ==> t == s.(keys := t.keys))
            && (ps == [] && !failed ==> t == s)
            && (ps == [] && !failed && s.written < |s.flight| ==> SealMessage(s, maxOut).NoProgress?)
    decreases |s.flight| - s.written
  {
    if s.written < |s.flight| && SealMessage(s, maxOut).Written? {
      PieceProgress(s, maxOut);
      PieceFits(s, maxOut);
      hide SealMessage;
      var w := SealMessage(s, maxOut);
      if w.last {
        PacketProgress(Moved(s, w.piece, w.keys, true), maxOut - w.piece.sealedLen);
      }
    }
  }

  // When nothing fits, the limit is below one byte of message with its headers.
  lemma TooSmall(s: Sender, maxOut: nat)
    requires s.written < |s.flight| && SealMessage(s, maxOut).NoProgress?
    ensures var k := s.keys;
            var c := if k.epoch >= 1 && s.flight[s.written].epoch == k.epoch - 1 then k.prev else k.cur;
            maxOut < RECORD_HEADER + HEADER_LENGTH + 1 + c.maxOverhead || maxOut < RECORD_HEADER + c.nonceLen
  {
    hide ParseFragment, Seal, PutHeader;
  }

  // ---------- tiling ----------

  function BodyLen(m: Outgoing): nat {
    if m.isCcs || Whole(m.data).None? then 0 else |Whole(m.data).value.body|
  }

  // Pieces that begin at (written, offset) and follow each other without gap or overlap end at
  // the returned position.
  function Walk(flight: seq<Outgoing>, ps: seq<Piece>, written: nat, offset: nat): Option<(nat, nat)> {
    if ps == [] then Some((written, offset))
    else
      var p := ps[0];
      if written >= |flight| || p.idx != written then None
      else if flight[written].isCcs then
        if p.plain == CCS && offset == 0 then Walk(flight, ps[1..], written + 1, 0) else None
      else if Whole(flight[written].data).None? || p.off != offset || p.off + p.len > BodyLen(flight[written]) then None
      else if p.plain != FragmentOf(Whole(flight[written].data).value, p.off, p.len) then None
      else if p.off + p.len == BodyLen(flight[written]) then Walk(flight, ps[1..], written + 1, 0)
      else if p.len == 0 then None
      else Walk(flight, ps[1..], written, offset + p.len)
  }

  lemma {:induction false} WalkAppend(flight: seq<Outgoing>, a: seq<Piece>, b: seq<Piece>, written: nat, offset: nat)
    requires Walk(flight, a, written, offset).Some?
    ensures var (w, o) := Walk(flight, a, written, offset).value;
            Walk(flight, a + b, written, offset) == Walk(flight, b, w, o)
    decreases |a|
  {
    hide Whole, PutHeader;
    if a == [] {
      assert a + b == b;
    } else {
      assert (a + b)[1..] == a[1..] + b;
      var p := a[0];
      if flight[written].isCcs || p.off + p.len == BodyLen(flight[written]) {
        WalkAppend(flight, a[1..], b, written + 1, 0);
      } else {
        WalkAppend(flight, a[1..], b, written, offset + p.len);
      }
    }
  }

  // A ChangeCipherSpec has no offset.
  predicate PositionOk(s: Sender) {
    s.written <= |s.flight| && (s.written == |s.flight| || s.flight[s.written].isCcs ==> s.offset == 0)
  }

  lemma PieceWalks(s: Sender, maxOut: nat)
    requires PositionOk(s) && s.written < |s.flight| && SealMessage(s, maxOut).Written?
    ensures var w := SealMessage(s, maxOut);
            var t := Moved(s, w.piece, w.keys, w.last);
            Walk(s.flight, [w.piece], s.written, s.offset) == Some((t.written, t.offset)) && PositionOk(t)
  {
    hide ParseFragment, PutHeader, Seal;
    var w := SealMessage(s, maxOut);
    assert [w.piece][1..] == [];
  }

  // The pieces of a packet continue the tiling where it stood.
  lemma {:induction false} PacketWalks(s: Sender, maxOut: nat)
    requires PositionOk(s)
    ensures var (ps, t, failed) := SealPacket(s, maxOut);
            Walk(s.flight, ps, s.written, s.offset) == Some((t.written, t.offset)) && PositionOk(t)
    decreases |s.flight| - s.written
  {
    if s.written < |s.flight| && SealMessage(s, maxOut).Written? {
      PieceWalks(s, maxOut);
      PieceFits(s, maxOut);
      hide SealMessage, Walk, PositionOk;
      var w := SealMessage(s, maxOut);
      if w.last {
        var t := Moved(s, w.piece, w.keys, true);
        PacketWalks(t, maxOut - w.piece.sealedLen);
        WalkAppend(s.flight, [w.piece], SealPacket(t, maxOut - w.piece.sealedLen).0, s.written, s.offset);
      }
    } else {
      assert Walk(s.flight, [], s.written, s.offset) == Some((s.written, s.offset));
      PositionKeys(s, SealPacket(s, maxOut).1);
    }
  }

  // The bytes of message j in the pieces, in order.
  function Gathered(flight: seq<Outgoing>, ps: seq<Piece>, j: nat): seq<byte> {
    if ps == [] then [] else Share(ps[0], j) + Gathered(flight, ps[1..], j)
  }

  function Body(m: Outgoing): seq<byte> {
    if m.isCcs || Whole(m.data).None? then [] else Whole(m.data).value.body
  }

  lemma FragmentBody(f: Fragment, off: nat, todo: nat)
    requires HeaderOk(f.hdr) && |f.body| == f.hdr.msgLen && off + todo <= |f.body|
    ensures FragmentOf(f, off, todo)[HEADER_LENGTH..] == f.body[off..off + todo]
  {
  }

  // What a piece adds to message j.
  function Share(p: Piece, j: nat): seq<byte> {
    if p.idx == j && |p.plain| >= HEADER_LENGTH then p.plain[HEADER_LENGTH..] else []
  }

  // The first piece of a tiling carries the body on from offset, to its end or to the new offset.
  lemma WalkHead(flight: seq<Outgoing>, ps: seq<Piece>, written: nat, offset: nat) returns (w: nat, o: nat)
    requires ps != [] && Walk(flight, ps, written, offset).Some?
    ensures written < |flight| && ps[0].idx == written && offset <= |Body(flight[written])|
    ensures Walk(flight, ps[1..], w, o) == Walk(flight, ps, written, offset)
    ensures if w == written then offset < o <= |Body(flight[w])| && Share(ps[0], written) == Body(flight[w])[offset..o]
            else w == written + 1 && o == 0 && Share(ps[0], written) == Body(flight[written])[offset..]
  {
    hide Whole, FragmentOf;
    var p, m := ps[0], flight[written];
    if m.isCcs {
      w, o := written + 1, 0;
    } else {
      FragmentBody(Whole(m.data).value, p.off, p.len);
      if p.off + p.len == BodyLen(m) {
        w, o := written + 1, 0;
      } else {
        w, o := written, offset + p.len;
      }
    }
  }

  // The part of message j between two positions.
  function Between(flight: seq<Outgoing>, written: nat, offset: nat, w: nat, o: nat, j: nat): seq<byte>
    requires j < |flight|
  {
    if j < written || j > w then []
    else
      var from := if j == written then offset else 0;
      var to := if j < w then |Body(flight[j])| else o;
      if from <= to <= |Body(flight[j])| then Body(flight[j])[from..to] else []
  }

  lemma Join(b: seq<byte>, x: nat, y: nat, z: nat)
    requires x <= y <= z <= |b|
    ensures b[x..y] + b[y..z] == b[x..z]
  {
  }

  lemma {:induction false} WalkGathers(flight: seq<Outgoing>, ps: seq<Piece>, written: nat, offset: nat, j: nat)
    requires j < |flight| && Walk(flight, ps, written, offset).Some?
    requires written < |flight| ==> offset <= |Body(flight[written])|
    ensures var (w, o) := Walk(flight, ps, written, offset).value;
            && Gathered(flight, ps, j) == Between(flight, written, offset, w, o, j)
            && (w > written || (w == written && o >= offset)) && (w < |flight| ==> o <= |Body(flight[w])|)
    decreases |ps|
  {
    hide Walk, Body, Share;
    if ps == [] {
      assert Walk(flight, ps, written, offset) == Some((written, offset)) by { WalkNothing(flight, written, offset); }
    } else {
      var w1, o1 := WalkHead(flight, ps, written, offset);
      WalkGathers(flight, ps[1..], w1, o1, j);
      GatherHead(flight, ps, j);
      var (w, o) := Walk(flight, ps, written, offset).value;
      if j == written && w1 == written {
        Join(Body(flight[j]), offset, o1, if j < w then |Body(flight[j])| else o);
      } else if j == written {
        assert Between(flight, w1, o1, w, o, j) == [];
      } else {
        assert Share(ps[0], j) == [] by { ShareOther(ps[0], j); }
      }
    }
  }

  lemma WalkNothing(flight: seq<Outgoing>, written: nat, offset: nat)
    ensures Walk(flight, [], written, offset) == Some((written, offset))
  {
  }

  lemma ShareOther(p: Piece, j: nat)
    requires p.idx != j
    ensures Share(p, j) == []
  {
  }

  lemma GatherHead(flight: seq<Outgoing>, ps: seq<Piece>, j: nat)
    requires ps != []
    ensures Gathered(flight, ps, j) == Share(ps[0], j) + Gathered(flight, ps[1..], j)
  {
  }

  lemma KeysKept(k: Keys, k': Keys)
    requires SameCiphers(k, k')
    ensures KeysSound(k) <==> KeysSound(k')
  {
  }

  // With an MTU that has room for one byte, a message is sealed or cannot be.
  lemma RoomForOne(s: Sender, maxOut: nat)
    ensures (s.written < |s.flight| && KeysSound(s.keys)
             && maxOut >= 26 + s.keys.cur.maxOverhead && maxOut >= 26 + s.keys.prev.maxOverhead) ==>
              !SealMessage(s, maxOut).NoProgress?
  {
    hide ParseFragment, PutHeader;
  }

  // A packet ends at the end of the flight, behind a message that it holds a part of, or where the
  // next message finds no room.
  lemma {:induction false} PacketFull(s: Sender, maxOut: nat)
    requires s.written <= |s.flight|
    ensures var (ps, t, failed) := SealPacket(s, maxOut);
            !failed && t.written < |t.flight| ==>
              || (ps != [] && ps[|ps| - 1].idx == t.written)
              || SealMessage(t, if PacketLen(ps) <= maxOut then maxOut - PacketLen(ps) else 0).NoProgress?
    decreases |s.flight| - s.written
  {
    hide SealMessage;
    if s.written < |s.flight| && SealMessage(s, maxOut).Written? {
      var w := SealMessage(s, maxOut);
      PieceFits(s, maxOut);
      PieceOf(s, maxOut);
      if w.last {
        PacketFull(Moved(s, w.piece, w.keys, true), maxOut - w.piece.sealedLen);
      }
    }
  }

  lemma PieceOf(s: Sender, maxOut: nat)
    requires s.written < |s.flight| && SealMessage(s, maxOut).Written?
    ensures SealMessage(s, maxOut).piece.idx == s.written
  {
    hide ParseFragment, PutHeader;
  }

  // Every message that the position has passed was sent whole, byte for byte in order.
  lemma TilesWhole(flight: seq<Outgoing>, ps: seq<Piece>, j: nat)
    requires Walk(flight, ps, 0, 0).Some? && j < Walk(flight, ps, 0, 0).value.0 && j < |flight|
    ensures Gathered(flight, ps, j) == Body(flight[j])
  {
    WalkGathers(flight, ps, 0, 0, j);
  }

  // ---------- when sealing fails ----------

  // An AEAD whose output has at most the stated overhead, of which the explicit nonce is a part.
  ghost predicate CipherSound(c: Cipher) {
    CipherOk(c) && c.nonceLen <= c.maxOverhead
  }

  // A message of the current or the previous epoch, stored as one whole fragment.
  predicate MessageReady(m: Outgoing, k: Keys) {
    (m.epoch == k.epoch || UsesPrev(k, m)) && (m.isCcs || Whole(m.data).Some?)
  }

  // What is left of the flight is sealable, but for the record numbers.
  predicate FlightReady(s: Sender) {
    && s.written <= |s.flight|
    && (forall j | s.written <= j < |s.flight| :: MessageReady(s.flight[j], s.keys))
    && (s.written < |s.flight| ==> s.offset <= BodyLen(s.flight[s.written]))
  }

  // Numbers have 48 bits.
  predicate NumbersOk(k: Keys) {
    k.curSeq <= SEQUENCE_END && k.prevSeq <= SEQUENCE_END
  }

  ghost predicate Sound(s: Sender, maxOut: nat) {
    && CipherSound(s.keys.cur) && CipherSound(s.keys.prev) && maxOut < 0x1_0000
    && NumbersOk(s.keys) && FlightReady(s)
  }

  // The same position with the first numbers under both keys.
  function Renumbered(s: Sender): Sender {
    s.(keys := s.keys.(curSeq := 0, prevSeq := 0))
  }

  function NextKey(s: Sender): bool
    requires s.written < |s.flight|
  {
    UsesPrev(s.keys, s.flight[s.written])
  }

  // Sealing one message fails exactly when there is no number left and the record has room. What
  // is sealed does not depend on the number.
  lemma SealsUnlessSpent(s: Sender, s0: Sender, maxOut: nat)
    requires Sound(s, maxOut) && s.written < |s.flight| && s0 == s.(keys := s0.keys) && SameCiphers(s.keys, s0.keys)
    requires NextSeq(s0.keys, NextKey(s)) < SEQUENCE_END
    ensures var w0, w, n := SealMessage(s0, maxOut), SealMessage(s, maxOut), NextSeq(s.keys, NextKey(s));
            && (w0.NoProgress? ==> w == w0) && !w0.SealError?
            && (w0.Written? && n >= SEQUENCE_END ==> w.SealError?)
            && (w0.Written? && n < SEQUENCE_END ==>
                  w == Written(w0.piece, WithSeq(s.keys, NextKey(s), n + 1), w0.last))
            && (w0.Written? ==> w0.keys == WithSeq(s0.keys, NextKey(s), NextSeq(s0.keys, NextKey(s)) + 1))
            && (w0.Written? ==> w0.piece.idx == s.written && (w0.last || (!s.flight[s.written].isCcs && w0.piece.len > 0)))
            && (w0.Written? && !w0.last ==> s.offset + w0.piece.len < BodyLen(s.flight[s.written]))
  {
    hide ParseFragment, PutHeader, Whole, FragmentOf;
    assert MessageReady(s.flight[s.written], s.keys);
  }

  // A message that is not ready, or an offset beyond it, fails whatever the room and the numbers.
  lemma UnreadyFails(s: Sender, maxOut: nat)
    requires s.written < |s.flight|
    requires var m := s.flight[s.written]; !MessageReady(m, s.keys) || (!m.isCcs && s.offset > BodyLen(m))
    ensures SealMessage(s, maxOut) == SealError(s.keys) && SealPacket(s, maxOut) == ([], s, true)
  {
    hide ParseFragment, PutHeader, Whole, Seal;
  }

  // The records of a packet under the previous key, or under the current one.
  function Used(s: Sender, ps: seq<Piece>, usePrev: bool): nat {
    if ps == [] then 0
    else (if ps[0].idx < |s.flight| && UsesPrev(s.keys, s.flight[ps[0].idx]) == usePrev then 1 else 0) + Used(s, ps[1..], usePrev)
  }

  // There is a number for each of them.
  predicate Enough(s: Sender, ps: seq<Piece>) {
    && s.keys.curSeq + Used(s, ps, false) <= SEQUENCE_END
    && s.keys.prevSeq + Used(s, ps, true) <= SEQUENCE_END
  }

  lemma UsedHead(s: Sender, p: Piece, ps: seq<Piece>, usePrev: bool)
    requires p.idx < |s.flight|
    ensures Used(s, [p] + ps, usePrev)
         == (if UsesPrev(s.keys, s.flight[p.idx]) == usePrev then 1 else 0) + Used(s, ps, usePrev)
  {
    assert ([p] + ps)[1..] == ps;
  }

  lemma {:induction false} UsedSame(s: Sender, t: Sender, ps: seq<Piece>, usePrev: bool)
    requires s.flight == t.flight && SameCiphers(s.keys, t.keys)
    ensures Used(s, ps, usePrev) == Used(t, ps, usePrev)
    decreases |ps|
  {
    if ps != [] {
      UsedSame(s, t, ps[1..], usePrev);
    }
  }

  // One record more.
  lemma EnoughHead(s: Sender, t: Sender, p: Piece, ps: seq<Piece>)
    requires s.written < |s.flight| && p.idx == s.written && t.flight == s.flight
    requires NextSeq(s.keys, NextKey(s)) < SEQUENCE_END
    requires t.keys == WithSeq(s.keys, NextKey(s), NextSeq(s.keys, NextKey(s)) + 1)
    ensures Enough(s, [p] + ps) <==> Enough(t, ps)
  {
    UsedHead(s, p, ps, false);
    UsedHead(s, p, ps, true);
    UsedSame(s, t, ps, false);
    UsedSame(s, t, ps, true);
  }

  lemma EnoughNeeds(s: Sender, p: Piece, ps: seq<Piece>)
    requires s.written < |s.flight| && p.idx == s.written && NextSeq(s.keys, NextKey(s)) >= SEQUENCE_END
    ensures !Enough(s, [p] + ps)
  {
    UsedHead(s, p, ps, NextKey(s));
  }

  lemma ReadyMoves(s: Sender, t: Sender, maxOut: nat, room: nat)
    requires Sound(s, maxOut) && s.written < |s.flight| && t.flight == s.flight && SameCiphers(s.keys, t.keys) && room <= maxOut
    requires t.written == s.written + 1 && t.offset == 0 && NumbersOk(t.keys)
    ensures Sound(t, room)
  {
    hide Whole, CipherSound;
    forall j | t.written <= j < |t.flight|
      ensures MessageReady(t.flight[j], t.keys)
    {
      assert MessageReady(s.flight[j], s.keys);
    }
  }

  lemma SoundPosition(s: Sender, maxOut: nat)
    requires Sound(s, maxOut)
    ensures s.written <= |s.flight| && NumbersOk(s.keys)
  {
  }

  lemma NoneUsed(s: Sender)
    ensures Used(s, [], false) == 0 && Used(s, [], true) == 0
  {
  }

  // A packet is sealed exactly when both keys have a number for each of the records that it has
  // under fresh numbers, and then has these records. Unless it is empty, some of it is sealed
  // exactly when there is a number for the first record.
  lemma {:induction false} PlanSeals(s: Sender, s0: Sender, maxOut: nat)
    requires Sound(s, maxOut) && Sound(s0, maxOut) && s0 == s.(keys := s0.keys) && SameCiphers(s.keys, s0.keys)
    requires s0.keys.curSeq + |s.flight| - s.written <= SEQUENCE_END && s0.keys.prevSeq + |s.flight| - s.written <= SEQUENCE_END
    ensures var plan, (ps, t, failed) := SealPacket(s0, maxOut).0, SealPacket(s, maxOut);
            && (failed <==> !Enough(s, plan))
            && (!failed ==> ps == plan)
            && (ps != [] <==> plan != [] && NextSeq(s.keys, NextKey(s)) < SEQUENCE_END)
    decreases |s.flight| - s.written
  {
    hide Sound, SealMessage, Enough, UsesPrev;
    SoundPosition(s, maxOut);
    EnoughNothing(s);
    if s.written < |s.flight| {
      SealsUnlessSpent(s, s0, maxOut);
      SealsUnlessSpent(s0, s0, maxOut);
      var w0, w, n := SealMessage(s0, maxOut), SealMessage(s, maxOut), NextSeq(s.keys, NextKey(s));
      if w0.Written? {
        PieceFits(s0, maxOut);
        var p := w0.piece;
        var t0, room := Moved(s0, p, w0.keys, w0.last), maxOut - p.sealedLen;
        var rest := if w0.last then SealPacket(t0, room).0 else [];
        assert SealPacket(s0, maxOut).0 == [p] + rest;
        if n >= SEQUENCE_END {
          EnoughNeeds(s, p, rest);
        } else {
          var t := Moved(s, p, w.keys, w0.last);
          EnoughHead(s, t, p, rest);
          EnoughNothing(t);
          if w0.last {
            ReadyMoves(s, t, maxOut, room);
            ReadyMoves(s0, t0, maxOut, room);
            PlanSeals(t, t0, room);
          }
        }
      }
    }
  }

  lemma EnoughNothing(s: Sender)
    requires NumbersOk(s.keys)
    ensures Enough(s, [])
  {
    NoneUsed(s);
  }

  // The packet as it is under fresh numbers.
  function Plan(s: Sender, maxOut: nat): seq<Piece>
    requires s.written <= |s.flight|
  {
    SealPacket(Renumbered(s), maxOut).0
  }

  // Sealing a packet fails exactly when its records outnumber the numbers left under one of the
  // keys, and then loses records unless the first of them already has no number.
  lemma SealsIffEnough(s: Sender, maxOut: nat)
    requires Sound(s, maxOut) && |s.flight| <= MAX_FLIGHT
    ensures var (ps, t, failed) := SealPacket(s, maxOut);
            && (failed <==> !Enough(s, Plan(s, maxOut)))
            && (failed && ps != [] <==>
                  !Enough(s, Plan(s, maxOut)) && NextSeq(s.keys, NextKey(s)) < SEQUENCE_END)
  {
    var s0 := Renumbered(s);
    forall j | s.written <= j < |s.flight|
      ensures MessageReady(s0.flight[j], s0.keys)
    {
      assert MessageReady(s.flight[j], s.keys);
    }
    PlanSeals(s, s0, maxOut);
    EnoughNothing(s);
  }

  // ---------- a guard for a whole flight ----------

  // At least as many as the records that a message can still need.
  function Units(m: Outgoing, offset: nat): (u: nat)
    ensures u > 0
  {
    if BodyLen(m) > offset then BodyLen(m) - offset else 1
  }

  function UnitsFrom(flight: seq<Outgoing>, j: nat): nat
    decreases |flight| - j
  {
    if j >= |flight| then 0 else Units(flight[j], 0) + UnitsFrom(flight, j + 1)
  }

  function Budget(s: Sender): nat {
    if s.written >= |s.flight| then 0
    else Units(s.flight[s.written], s.offset) + UnitsFrom(s.flight, s.written + 1)
  }

  lemma {:induction false} UnitsCover(flight: seq<Outgoing>, j: nat)
    requires j <= |flight|
    ensures UnitsFrom(flight, j) >= |flight| - j
    decreases |flight| - j
  {
    if j < |flight| {
      UnitsCover(flight, j + 1);
    }
  }

  // What is left of the flight can be sealed in any packets: every message is ready, and under
  // both keys the numbers left cover the bytes left.
  predicate Sendable(s: Sender, maxOut: nat) {
    && maxOut < 0x1_0000 && FlightReady(s)
    && s.keys.curSeq + Budget(s) <= SEQUENCE_END && s.keys.prevSeq + Budget(s) <= SEQUENCE_END
  }

  ghost predicate KeysSound(k: Keys) {
    CipherSound(k.cur) && CipherSound(k.prev)
  }

  lemma SendableSound(s: Sender, maxOut: nat)
    requires Sendable(s, maxOut) && KeysSound(s.keys)
    ensures Sound(s, maxOut) && Budget(s) >= |s.flight| - s.written
    ensures s.written < |s.flight| ==> NextSeq(s.keys, NextKey(s)) < SEQUENCE_END
  {
    if s.written < |s.flight| {
      UnitsCover(s.flight, s.written + 1);
    }
  }

  lemma BudgetMoves(s: Sender, p: Piece, k: Keys, last: bool)
    requires s.written < |s.flight| && (last || (p.len > 0 && s.offset + p.len < BodyLen(s.flight[s.written])))
    ensures Budget(Moved(s, p, k, last)) < Budget(s)
  {
  }

  // Sealing a packet spends no more numbers than it takes from the budget.
  lemma {:induction false} PacketSpends(s: Sender, maxOut: nat, limit: nat)
    requires Sendable(s, maxOut) && KeysSound(s.keys) && maxOut <= limit < 0x1_0000
    ensures !SealPacket(s, maxOut).2 && Sendable(SealPacket(s, maxOut).1, limit)
    decreases |s.flight| - s.written
  {
    hide Sound, SealMessage, UsesPrev, Budget, CipherSound, Whole;
    SendableSound(s, maxOut);
    if s.written < |s.flight| {
      SealsUnlessSpent(s, s, maxOut);
      var w := SealMessage(s, maxOut);
      if w.Written? {
        PieceFits(s, maxOut);
        var t := Moved(s, w.piece, w.keys, w.last);
        BudgetMoves(s, w.piece, w.keys, w.last);
        MovedReady(s, w.piece, w.keys, w.last);
        if w.last {
          PacketSpends(t, maxOut - w.piece.sealedLen, limit);
        }
      }
    }
  }

  lemma MovedReady(s: Sender, p: Piece, k: Keys, last: bool)
    requires FlightReady(s) && s.written < |s.flight| && SameCiphers(s.keys, k)
    requires last || s.offset + p.len <= BodyLen(s.flight[s.written])
    ensures FlightReady(Moved(s, p, k, last))
  {
    hide Whole, BodyLen;
    var t := Moved(s, p, k, last);
    forall j | t.written <= j < |t.flight|
      ensures MessageReady(t.flight[j], k)
    {
      assert MessageReady(s.flight[j], s.keys);
    }
  }

  // ---------- after a failure ----------

  // A tiling with more pieces ends later, so that pieces which are lost leave a gap.
  lemma WalkAdvances(flight: seq<Outgoing>, ps: seq<Piece>, written: nat, offset: nat)
    requires ps != [] && Walk(flight, ps, written, offset).Some?
    ensures Walk(flight, ps, written, offset) != Some((written, offset))
  {
    hide Walk, Body, Share;
    var w, o := WalkHead(flight, ps, written, offset);
    WalkGathers(flight, ps[1..], w, o, written);
  }

  // Pieces that the position has passed and that were not sent leave a gap.
  lemma LostIsGap(flight: seq<Outgoing>, sent: seq<Piece>, lost: seq<Piece>)
    requires lost != [] && Walk(flight, sent + lost, 0, 0).Some? && Walk(flight, sent, 0, 0).Some?
    ensures Walk(flight, sent, 0, 0) != Walk(flight, sent + lost, 0, 0)
  {
    hide Walk;
    var (w, o) := Walk(flight, sent, 0, 0).value;
    WalkAppend(flight, sent, lost, 0, 0);
    WalkAdvances(flight, lost, w, o);
  }

  // ---------- the code ----------

  // dtls1_state_st, the outgoing half. passed holds the pieces that the position has passed since
  // the flight was last begun, sent those of the packets that the transport took.
  class FlightSender {
    var outgoing: seq<Outgoing>
    var written: nat
    var offset: nat
    var complete: bool
    var keys: Keys
    var writeSeq: nat
    const mtu: nat
    ghost var passed: seq<Piece>
    ghost var sent: seq<Piece>

    function State(): Sender
      reads this
    {
      Sender(outgoing, written, offset, keys)
    }

    ghost predicate Valid()
      reads this
    {
      && PositionOk(State()) && Walk(outgoing, passed, 0, 0) == Some((written, offset)) && |outgoing| <= MAX_FLIGHT
    }

    // What was sent tiles the flight up to the position.
    ghost predicate Tiled()
      reads this
    {
      passed == sent
    }

    constructor (k: Keys, maxPacket: nat)
      ensures Valid() && Tiled() && outgoing == [] && sent == [] && keys == k && mtu == maxPacket && writeSeq == 0 && !complete
    {
      outgoing, written, offset, complete, keys, writeSeq, mtu := [], 0, 0, false, k, 0, maxPacket;
      passed, sent := [], [];
    }

    // dtls1_set_write_state.
    method SetWriteState(c: Cipher)
      modifies this`keys
      ensures keys == Keys((old(keys).epoch + 1) % 0x1_0000, c, old(keys).cur, 0, old(keys).curSeq)
      ensures old(Valid()) ==> Valid()
    {
      hide Walk;
      ghost var s := State();
      keys := Keys((keys.epoch + 1) % 0x1_0000, c, keys.cur, 0, keys.curSeq);
    }

    // add_outgoing. A new flight replaces one that was flushed.
    method AddOutgoing(isCcs: bool, data: seq<byte>) returns (ok: bool)
      requires Valid()
      modifies this
      ensures Valid() && keys == old(keys) && (old(complete || Tiled()) ==> Tiled())
      ensures var before := if old(complete) then [] else old(outgoing);
              && (ok <==> |before| < MAX_FLIGHT && |data| <= 0xFFFF_FFFF)
              && outgoing == (if ok then before + [Outgoing(data, old(keys).epoch, isCcs)] else before)
              && (old(complete) ==> sent == [] && written == offset == 0 && !complete)
              && (!old(complete) ==> sent == old(sent) && written == old(written) && offset == old(offset) && !complete)
      ensures writeSeq == old(writeSeq) + if ok && !isCcs then 1 else 0
    {
      if complete {
        outgoing, written, offset, complete := [], 0, 0, false;
        passed, sent := [], [];
      }
      if |outgoing| >= MAX_FLIGHT || |data| > 0xFFFF_FFFF {
        return false;
      }
      if !isCcs {
        writeSeq := writeSeq + 1;
      }
      var msg := Outgoing(data, keys.epoch, isCcs);
      WalkGrows(outgoing, [msg], passed, 0, 0);
      outgoing := outgoing + [msg];
      return true;
    }

    // seal_next_message.
    method SealNextMessage(maxOut: nat) returns (r: Sealed)
      requires PositionOk(State()) && written < |outgoing|
      modifies this`offset, this`keys
      ensures r == SealMessage(old(State()), maxOut)
      ensures if r.Written? then offset == (if r.last then 0 else old(offset) + r.piece.len) && keys == r.keys
              else offset == old(offset) && keys == if r.SealError? then r.keys else old(keys)
    {
      hide ParseFragment, PutHeader, Seal, Walk;
      var msg := outgoing[written];
      var usePrev := UsesPrev(keys, msg);
      if !usePrev && msg.epoch != keys.epoch {
        return SealError(keys);
      }
      var c := if usePrev then keys.prev else keys.cur;
      var overhead, prefix := RECORD_HEADER + c.maxOverhead, RECORD_HEADER + c.nonceLen;
      if msg.isCcs {
        if maxOut < 1 + overhead {
          return NoProgress;
        }
        var (record, k) := Seal(keys, usePrev, 1, maxOut);
        keys := k;
        if record.None? {
          return SealError(keys);
        }
        return Written(Piece(written, 0, 0, CCS, record.value), keys, true);
      }
      var whole := Whole(msg.data);
      if whole.None? || offset > |whole.value.body| {
        return SealError(keys);
      }
      if maxOut < HEADER_LENGTH + 1 + overhead || maxOut < prefix {
        return NoProgress;
      }
      var rest := |whole.value.body| - offset;
      var todo := rest;
      if todo > maxOut - HEADER_LENGTH - overhead {
        todo := maxOut - HEADER_LENGTH - overhead;
      }
      if HEADER_LENGTH + todo > maxOut - prefix {
        return SealError(keys);
      }
      var plain := FragmentOf(whole.value, offset, todo);
      var (record, k) := Seal(keys, usePrev, |plain|, maxOut);
      keys := k;
      if record.None? {
        return SealError(keys);
      }
      r := Written(Piece(written, offset, todo, plain, record.value), keys, todo == rest);
      offset := if todo == rest then 0 else offset + todo;
    }

    // seal_next_packet. It fails when sealing fails or when the limit is too small for any piece.
    method SealNextPacket(maxOut: nat) returns (ok: bool, pieces: seq<Piece>, ghost sealFailed: bool)
      requires PositionOk(State()) && written < |outgoing|
      modifies this`offset, this`keys, this`written
      ensures (pieces, State(), sealFailed) == SealPacket(old(State()), maxOut)
      ensures ok <==> !sealFailed && pieces != []
    {
      hide SealMessage, Walk, PositionOk;
      pieces := [];
      var room := maxOut;
      ghost var s0 := State();
      var more := true;
      sealFailed := false;
      PrependNothing(SealPacket(s0, maxOut));
      while more && written < |outgoing|
        invariant PositionOk(State()) && written <= |outgoing| && outgoing == s0.flight && !sealFailed
        invariant SealPacket(s0, maxOut)
               == if more then Prepend(pieces, SealPacket(State(), room)) else (pieces, State(), false)
        decreases more, |outgoing| - written
      {
        ghost var s := State();
        PrependEmpty(pieces, s);
        if SealMessage(s, room).Written? {
          PieceWalks(s, room);
          PieceFits(s, room);
        }
        var r := SealNextMessage(room);
        match r {
          case SealError(_) =>
            sealFailed := true;
            return false, pieces, true;
          case NoProgress =>
            more := false;
          case Written(p, _, last) =>
            PrependTwice(pieces, [p], SealPacket(Moved(s, p, r.keys, true), room - p.sealedLen));
            PrependOne(pieces, p, Moved(s, p, r.keys, last));
            pieces := pieces + [p];
            room := room - p.sealedLen;
            if last {
              written := written + 1;
            } else {
              more := false;
            }
        }
      }
      PrependEmpty(pieces, State());
      return pieces != [], pieces, false;
    }

    // The guard of a transmission.
    ghost predicate MaySend()
      reads this
    {
      Sendable(State(), mtu) && KeysSound(keys)
    }

    lemma MaySendSound()
      ensures MaySend() ==> KeysSound(keys)
    {
    }

    // One turn of send_flight, in which the BIO_write returns taken. The packet has been sent if
    // ok; it is lost if sealing failed after the position had passed some of it.
    method SendPacket(taken: int) returns (ok: bool, ret: int, ghost packet: seq<Piece>, ghost sealFailed: bool)
      requires Valid() && written < |outgoing|
      modifies this`offset, this`keys, this`written, this`passed, this`sent
      ensures Valid() && SameCiphers(old(keys), keys)
      ensures packet == SealPacket(old(State()), mtu).0 && sealFailed == SealPacket(old(State()), mtu).2 && PacketLen(packet) <= mtu
      ensures old(MaySend()) ==> !sealFailed && (ok ==> MaySend())
      ensures ok <==> !sealFailed && packet != [] && taken > 0
      ensures sent == old(sent) + (if ok then packet else []) && passed == old(passed) + (if ok || sealFailed then packet else [])
      ensures ok ==> Before(old(State()), State())
      ensures !ok ==> ret == if sealFailed || packet == [] then -1 else taken
      ensures !ok && !sealFailed ==> written == old(written) && offset == old(offset)
      ensures !ok && !sealFailed && packet == [] ==> SealMessage(State(), mtu).NoProgress?
    {
      hide SealMessage, Walk, SealPacket, PacketLen, Sendable, CipherSound;
      ghost var s := State();
      PacketFits(s, mtu);
      PacketProgress(s, mtu);
      PacketWalks(s, mtu);
      if Sendable(s, mtu) && KeysSound(s.keys) {
        GuardHolds(s, mtu);
      }
      var oldWritten, oldOffset := written, offset;
      var packet';
      ok, packet', sealFailed := SealNextPacket(mtu);
      packet := packet';
      WalkAppend(outgoing, passed, packet, 0, 0);
      assert sent + [] == sent && passed + [] == passed;
      if !ok {
        ret := -1;
        passed := passed + packet;
      } else if taken <= 0 {
        // The position goes back, the record numbers do not.
        written, offset := oldWritten, oldOffset;
        ok, ret := false, taken;
      } else {
        ret := taken;
        passed, sent := passed + packet, sent + packet;
      }
    }

    // The MTU has room for a byte of any message under either key.
    predicate MtuOk()
      reads this`keys
    {
      mtu >= 26 + keys.cur.maxOverhead && mtu >= 26 + keys.prev.maxOverhead
    }

    // send_flight. The i-th BIO_write of the call returns bio(i), the BIO_flush returns flush.
    // packets lists the packets that the transport took, lost the pieces of a packet whose sealing
    // failed after they were sealed.
    method SendFlight(bio: nat -> int, flush: int)
      returns (ret: int, ghost packets: seq<seq<Piece>>, ghost lost: seq<Piece>, ghost sealFailed: bool)
      requires Valid()
      modifies this`offset, this`keys, this`written, this`passed, this`sent
      ensures Valid() && SameCiphers(old(keys), keys)
      ensures sent == old(sent) + Flat(packets) && passed == old(passed) + Flat(packets) + lost
      ensures forall p | p in packets :: PacketLen(p) <= mtu
      ensures !sealFailed ==> lost == []
      ensures old(MaySend()) ==> !sealFailed
      ensures old(Tiled()) ==> (Tiled() <==> lost == []) && (Tiled() <==> Walk(outgoing, sent, 0, 0) == Some((written, offset)))
      ensures ret == 1 <==> !sealFailed && written == |outgoing| && flush > 0
      ensures !sealFailed && written < |outgoing| ==>
                bio(|packets|) <= 0 || SealMessage(State(), mtu).NoProgress?
      ensures old(MaySend() && MtuOk()) && flush > 0 && (forall i: nat :: bio(i) > 0) ==> ret == 1
    {
      hide SealMessage, Walk, PositionOk, SealPacket, PacketLen, Flat, MaySend, Body, KeysSound;
      ghost var sent0, passed0 := sent, passed;
      MaySendSound();
      packets, lost, sealFailed := [], [], false;
      FlatNothing(sent0);
      FlatNothing(passed0);
      InFlight(State());
      var i := 0;
      while written < |outgoing|
        invariant Valid() && SameCiphers(old(keys), keys) && i == |packets| && !sealFailed && lost == [] && written <= |outgoing|
        invariant sent == sent0 + Flat(packets) && passed == passed0 + Flat(packets)
        invariant forall p | p in packets :: PacketLen(p) <= mtu
        invariant old(MaySend()) ==> MaySend()
        decreases |outgoing| - written, Left(State())
      {
        OffsetBound(outgoing, passed, State());
        ghost var packet;
        var ok;
        ok, ret, packet, sealFailed := SendPacket(bio(i));
        if !ok {
          if sealFailed {
            lost := packet;
          }
          NoneLost(passed0 + Flat(packets));
          WhenTiled(passed0, sent0, Flat(packets), lost);
          KeysKept(old(keys), keys);
          RoomForOne(State(), mtu);
          return;
        }
        FlatAppend(packets, packet);
        assert (sent0 + Flat(packets)) + packet == sent0 + (Flat(packets) + packet);
        assert (passed0 + Flat(packets)) + packet == passed0 + (Flat(packets) + packet);
        packets := packets + [packet];
        OffsetBound(outgoing, passed, State());
        InFlight(State());
        i := i + 1;
      }
      NoneLost(passed);
      WhenTiled(passed0, sent0, Flat(packets), lost);
      ret := if flush <= 0 then -1 else 1;
    }

    // What was sent before and now, and what was lost now, in a flight that was tiled before.
    lemma WhenTiled(passed0: seq<Piece>, sent0: seq<Piece>, now: seq<Piece>, lost: seq<Piece>)
      requires Valid() && sent == sent0 + now && passed == passed0 + now + lost
      ensures passed0 == sent0 ==> (Tiled() <==> lost == []) && (Tiled() <==> Walk(outgoing, sent, 0, 0) == Some((written, offset)))
    {
      hide Walk;
      NoneLost(sent);
      if passed0 == sent0 && lost != [] {
        WalkPrefix(outgoing, sent, lost, 0, 0);
        LostIsGap(outgoing, sent, lost);
      }
    }

    // dtls1_flush_flight.
    method FlushFlight(bio: nat -> int, flush: int)
      returns (ret: int, ghost packets: seq<seq<Piece>>, ghost lost: seq<Piece>, ghost sealFailed: bool)
      requires Valid()
      modifies this`offset, this`keys, this`written, this`passed, this`sent, this`complete
      ensures Valid() && complete && SameCiphers(old(keys), keys) && sent == old(sent) + Flat(packets)
      ensures forall p | p in packets :: PacketLen(p) <= mtu
      ensures old(MaySend()) ==> !sealFailed
      ensures !sealFailed ==> lost == []
      ensures old(Tiled()) ==> (Tiled() <==> lost == []) && (Tiled() <==> Walk(outgoing, sent, 0, 0) == Some((written, offset)))
      ensures ret == 1 <==> !sealFailed && written == |outgoing| && flush > 0
      ensures old(MaySend() && MtuOk()) && flush > 0 && (forall i: nat :: bio(i) > 0) ==> ret == 1
    {
      hide Walk, Sendable, PacketLen, Flat, CipherSound;
      complete := true;
      ret, packets, lost, sealFailed := SendFlight(bio, flush);
    }

    // dtls1_retransmit_outgoing_messages: the flight begins anew.
    method Retransmit(bio: nat -> int, flush: int)
      returns (ret: int, ghost packets: seq<seq<Piece>>, ghost lost: seq<Piece>, ghost sealFailed: bool)
      requires Valid()
      modifies this`offset, this`keys, this`written, this`passed, this`sent
      ensures Valid() && SameCiphers(old(keys), keys) && sent == Flat(packets)
      ensures forall p | p in packets :: PacketLen(p) <= mtu
      ensures old(Sendable(Sender(outgoing, 0, 0, keys), mtu) && KeysSound(keys)) ==> !sealFailed
      ensures !sealFailed ==> lost == []
      ensures (Tiled() <==> lost == []) && (Tiled() <==> Walk(outgoing, sent, 0, 0) == Some((written, offset)))
      ensures ret == 1 <==> !sealFailed && written == |outgoing| && flush > 0
      ensures old(Sendable(Sender(outgoing, 0, 0, keys), mtu) && KeysSound(keys) && MtuOk()) && flush > 0 && (forall i: nat :: bio(i) > 0) ==> ret == 1
    {
      hide Walk, Sendable, PacketLen, Flat, CipherSound;
      written, offset := 0, 0;
      passed, sent := [], [];
      WalkNothing(outgoing, 0, 0);
      ret, packets, lost, sealFailed := SendFlight(bio, flush);
      assert [] + Flat(packets) == Flat(packets);
    }

    // Any run of events, up to the first transmission without the guard. Then all the packets sent
    // since the flight was last begun tile it up to the position, and every message that the
    // position has passed was sent whole.
    method Run(events: seq<Event>) returns (n: nat)
      requires Valid() && Tiled() && KeysSound(keys) && forall e <- events :: e.NewKeys? ==> CipherSound(e.c)
      modifies this
      ensures Valid() && Tiled() && n <= |events|
      ensures forall j: nat | j < written && j < |outgoing| :: Gathered(outgoing, sent, j) == Body(outgoing[j])
      ensures n < |events| ==> !Guarded(events[n])
    {
      hide Walk, Sendable, CipherSound, Flat, PacketLen, Gathered, Body, PositionOk;
      n := 0;
      while n < |events|
        invariant Valid() && Tiled() && KeysSound(keys) && n <= |events|
      {
        if !Guarded(events[n]) {
          break;
        }
        Perform(events[n]);
        n := n + 1;
      }
      forall j: nat | j < written && j < |outgoing|
        ensures Gathered(outgoing, sent, j) == Body(outgoing[j])
      {
        TilesWhole(outgoing, sent, j);
      }
    }

    // The guard of a transmission; adding a message and new keys need none.
    predicate Guarded(e: Event)
      reads this
    {
      match e
      case Flush(_, _) => Sendable(State(), mtu)
      case Resend(_, _) => Sendable(Sender(outgoing, 0, 0, keys), mtu)
      case _ => true
    }

    method Perform(e: Event)
      requires Valid() && Tiled() && KeysSound(keys) && Guarded(e) && (e.NewKeys? ==> CipherSound(e.c))
      modifies this
      ensures Valid() && Tiled() && KeysSound(keys)
    {
      hide Walk, Sendable, CipherSound, Flat, PacketLen, PositionOk;
      match e {
        case Add(isCcs, data) =>
          var ok := AddOutgoing(isCcs, data);
        case NewKeys(c) =>
          SetWriteState(c);
        case Flush(bio, flush) =>
          var ret;
          ghost var packets, lost, sealFailed;
          ret, packets, lost, sealFailed := FlushFlight(bio, flush);
        case Resend(bio, flush) =>
          var ret;
          ghost var packets, lost, sealFailed;
          ret, packets, lost, sealFailed := Retransmit(bio, flush);
      }
    }
  }

  // What may happen to the sender, in any order.
  datatype Event =
    | Add(isCcs: bool, data: seq<byte>)
    | NewKeys(c: Cipher)
    | Flush(bio: nat -> int, flush: int)
    | Resend(bio: nat -> int, flush: int)

  lemma GuardHolds(s: Sender, mtu: nat)
    requires Sendable(s, mtu) && KeysSound(s.keys)
    ensures !SealPacket(s, mtu).2 && Sendable(SealPacket(s, mtu).1, mtu)
  {
    PacketSpends(s, mtu, mtu);
  }

  lemma {:induction false} WalkPrefix(flight: seq<Outgoing>, a: seq<Piece>, b: seq<Piece>, written: nat, offset: nat)
    requires Walk(flight, a + b, written, offset).Some?
    ensures Walk(flight, a, written, offset).Some?
    decreases |a|
  {
    hide Whole, FragmentOf;
    if a != [] {
      var p := a[0];
      assert (a + b)[1..] == a[1..] + b;
      if flight[written].isCcs || p.off + p.len == BodyLen(flight[written]) {
        WalkPrefix(flight, a[1..], b, written + 1, 0);
      } else {
        WalkPrefix(flight, a[1..], b, written, offset + p.len);
      }
    }
  }

  // A failure to seal in the middle of a packet loses what the packet already held: of a flight
  // with a handshake message and a ChangeCipherSpec of the epoch before, whose numbers end with the
  // first record, the whole message is passed over although nothing was written.
  lemma SealFailureSkips(typ: byte, seqNo: nat, body: seq<byte>, rest: seq<Outgoing>, maxOut: nat)
    requires seqNo < U16 && |body| < 0x1_0000 - HEADER_LENGTH
    requires |body| + HEADER_LENGTH + RECORD_HEADER <= maxOut - RECORD_HEADER - 1
    ensures var c := Cipher(0, 0, n => n);
            var flight := [Outgoing(Raw(typ, seqNo, body), 0, false), Outgoing([], 0, true)] + rest;
            var (ps, t, failed) := SealPacket(Sender(flight, 0, 0, Keys(1, c, c, 0, SEQUENCE_END - 1)), maxOut);
            failed && |ps| == 1 && ps[0].off == 0 && ps[0].len == |body| && t.written == 1
  {
    var c := Cipher(0, 0, n => n);
    var flight := [Outgoing(Raw(typ, seqNo, body), 0, false), Outgoing([], 0, true)] + rest;
    var s := Sender(flight, 0, 0, Keys(1, c, c, 0, SEQUENCE_END - 1));
    RawIsWhole(typ, seqNo, body);
    var w := SealMessage(s, maxOut);
    assert w.Written? && w.last && w.piece.sealedLen == |body| + HEADER_LENGTH + RECORD_HEADER;
    var s1 := Moved(s, w.piece, w.keys, true);
    var left := maxOut - w.piece.sealedLen;
    assert SealMessage(s1, left).SealError?;
    assert SealPacket(s1, left).0 == [] && SealPacket(s1, left).1.written == 1 && SealPacket(s1, left).2;
    assert SealPacket(s, maxOut) == Prepend([w.piece], SealPacket(s1, left));
  }

  lemma NoneLost(ps: seq<Piece>)
    ensures ps + [] == ps
  {
  }

  lemma InFlight(s: Sender)
    requires PositionOk(s)
    ensures s.written <= |s.flight|
  {
  }

  // The pieces of some packets, one after another.
  function Flat(packets: seq<seq<Piece>>): seq<Piece> {
    if packets == [] then [] else Flat(packets[..|packets| - 1]) + packets[|packets| - 1]
  }

  lemma FlatNothing(ps: seq<Piece>)
    ensures ps + Flat([]) == ps
  {
  }

  lemma FlatAppend(packets: seq<seq<Piece>>, p: seq<Piece>)
    ensures Flat(packets + [p]) == Flat(packets) + p
  {
    assert (packets + [p])[..|packets|] == packets;
  }

  // The bytes left of the message at the position.
  function Left(s: Sender): int {
    if s.written < |s.flight| then |Body(s.flight[s.written])| - s.offset else 0
  }

  lemma OffsetBound(flight: seq<Outgoing>, ps: seq<Piece>, s: Sender)
    requires s.flight == flight && Walk(flight, ps, 0, 0) == Some((s.written, s.offset))
    ensures Left(s) >= 0
  {
    if s.written < |flight| {
      WalkGathers(flight, ps, 0, 0, s.written);
    }
  }

  // Keys do not matter for the position.
  lemma PositionKeys(s: Sender, t: Sender)
    requires PositionOk(s) && t.flight == s.flight && t.written == s.written && t.offset == s.offset
    ensures PositionOk(t)
  {
  }

  lemma {:induction false} WalkGrows(flight: seq<Outgoing>, more: seq<Outgoing>, ps: seq<Piece>, written: nat, offset: nat)
    requires Walk(flight, ps, written, offset).Some?
    ensures Walk(flight + more, ps, written, offset) == Walk(flight, ps, written, offset)
    decreases |ps|
  {
    hide Whole, FragmentOf;
    if ps != [] {
      var p := ps[0];
      assert (flight + more)[written] == flight[written];
      if flight[written].isCcs || p.off + p.len == BodyLen(flight[written]) {
        WalkGrows(flight, more, ps[1..], written + 1, 0);
      } else {
        WalkGrows(flight, more, ps[1..], written, offset + p.len);
      }
    }
  }
}
