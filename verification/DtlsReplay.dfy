// The replay window of DTLS records: dtls1_bitmap_*, dtls_open_record and dtls1_set_read_state.
module DtlsReplay {
  import opened Bits

  const WINDOW: nat := 64

  // DTLS1_BITMAP: bit i of bits stands for the sequence number max - i.
  datatype Window = Window(bits: nat, max: nat)

  const FRESH: Window := Window(0, 0)

  predicate Discards(w: Window, s: nat) {
    s <= w.max && (w.max - s >= WINDOW || Bit(w.bits, w.max - s))
  }

  function Record(w: Window, s: nat): Window {
    var w' :=
      if s > w.max then
        Window(if s - w.max >= WINDOW then 0 else Shl(w.bits, s - w.max) % U64, s)
      else w;
    if w'.max - s < WINDOW then w'.(bits := Or(w'.bits, Shl(1, w'.max - s))) else w'
  }

  // The window remembers the sequence numbers of h that it still covers.
  ghost predicate Tracks(w: Window, h: set<nat>) {
    && w.bits < U64
    && (forall s | s in h :: s <= w.max)
    && (w.max in h || (h == {} && w.max == 0))
    && forall i: nat | i < WINDOW && i <= w.max :: Bit(w.bits, i) <==> w.max - i in h
  }

  lemma FreshTracks()
    ensures Tracks(FRESH, {})
  {
    forall i: nat
      ensures !Bit(0, i)
    {
      BitZero(i);
    }
  }

  // A number is discarded exactly when it was recorded or lies 64 or more below the maximum.
  lemma DiscardExact(w: Window, h: set<nat>, s: nat)
    requires Tracks(w, h)
    ensures Discards(w, s) <==> s in h || s + WINDOW <= w.max
  {
    hide Bit;
    if s <= w.max && w.max - s < WINDOW {
      assert Bit(w.bits, w.max - s) <==> w.max - (w.max - s) in h;
    }
  }

  lemma SetBit(bits: nat, k: nat, i: nat)
    requires bits < U64 && k < WINDOW
    ensures Or(bits, Shl(1, k)) < U64
    ensures Bit(Or(bits, Shl(1, k)), i) <==> Bit(bits, i) || i == k
  {
    hide Bit, Or, Shl, Pow2;
    Pow2Of64();
    Pow2One();
    ShlBound(1, 1, k);
    Pow2Monotone(1 + k, 64);
    OrBound(bits, Shl(1, k), 64);
    OrBit(bits, Shl(1, k), i);
    SingleBit(k, i);
  }

  lemma Pow2One()
    ensures Pow2(1) == 2
  {
  }

  lemma ShiftedBit(bits: nat, k: nat, i: nat)
    requires i < WINDOW
    ensures Shl(bits, k) % U64 < U64
    ensures Bit(Shl(bits, k) % U64, i) <==> i >= k && Bit(bits, i - k)
  {
    hide Bit, Shl, Pow2;
    Pow2Of64();
    BitTruncate(Shl(bits, k), 64, i);
    BitShift(bits, k, i);
  }

  // Sliding the window to a larger maximum keeps it right for the old numbers.
  lemma SlideTracks(w: Window, h: set<nat>, s: nat, bits: nat, i: nat)
    requires Tracks(w, h) && s > w.max && i < WINDOW && i <= s
    requires bits == if s - w.max >= WINDOW then 0 else Shl(w.bits, s - w.max) % U64
    ensures bits < U64 && (Bit(bits, i) <==> s - i in h)
  {
    hide Bit, Shl;
    var shift := s - w.max;
    if shift >= WINDOW {
      BitZero(i);
    } else {
      ShiftedBit(w.bits, shift, i);
      if i >= shift {
        assert Bit(w.bits, i - shift) <==> w.max - (i - shift) in h;
      }
    }
  }

  lemma RecordTracks(w: Window, h: set<nat>, s: nat)
    requires Tracks(w, h) && !Discards(w, s)
    ensures Tracks(Record(w, s), h + {s})
  {
    var w' := Record(w, s);
    var bits := if s <= w.max then w.bits else if s - w.max >= WINDOW then 0 else Shl(w.bits, s - w.max) % U64;
    var max := if s > w.max then s else w.max;
    assert w' == Window(Or(bits, Shl(1, max - s)), max);
    if s > w.max {
      SlideTracks(w, h, s, bits, 0);
    }
    hide Bit, Or, Shl, Record;
    SetBit(bits, max - s, 0);
    forall i: nat | i < WINDOW && i <= max
      ensures Bit(w'.bits, i) <==> max - i in h + {s}
    {
      SetBit(bits, max - s, i);
      if s > w.max {
        SlideTracks(w, h, s, bits, i);
      }
    }
  }

  // ---------- the code ----------

  // to_u64_be.
  function BigEndian(b: seq<byte>): (v: nat)
    ensures v < Pow2(8 * |b|)
  {
    if b == [] then 0
    else
      BigEndianStep(BigEndian(b[..|b| - 1]), b[|b| - 1], |b| - 1);
      256 * BigEndian(b[..|b| - 1]) + b[|b| - 1]
  }

  lemma BigEndianStep(v: nat, b: byte, n: nat)
    requires v < Pow2(8 * n)
    ensures 256 * v + b < Pow2(8 * (n + 1))
  {
    Shl7(1, 8 * n);
    assert Pow2(8 * n + 8) == 2 * Pow2(8 * n + 7);
  }

  class Bitmap {
    var bits: nat
    var maxSeqNum: nat

    ghost function Win(): Window
      reads this
    {
      Window(bits, maxSeqNum)
    }

    constructor ()
      ensures Win() == FRESH
    {
      bits, maxSeqNum := 0, 0;
    }

    // The OPENSSL_memset of dtls1_set_read_state.
    method Clear()
      modifies this
      ensures Win() == FRESH
    {
      bits, maxSeqNum := 0, 0;
    }

    // dtls1_bitmap_should_discard.
    method ShouldDiscard(seqNum: seq<byte>) returns (discard: bool)
      requires |seqNum| == 8
      ensures discard <==> Discards(Win(), BigEndian(seqNum))
    {
      var s := ToU64Be(seqNum);
      if s > maxSeqNum {
        return false;
      }
      var idx := maxSeqNum - s;
      return idx >= WINDOW || Bit(bits, idx);
    }

    // dtls1_bitmap_record.
    method RecordSeq(seqNum: seq<byte>)
      requires |seqNum| == 8
      modifies this
      ensures Win() == Record(old(Win()), BigEndian(seqNum))
    {
      hide Bit, Or, Shl;
      var s := ToU64Be(seqNum);
      if s > maxSeqNum {
        var shift := s - maxSeqNum;
        if shift >= WINDOW {
          bits := 0;
        } else {
          bits := Shl(bits, shift) % U64;
        }
        maxSeqNum := s;
      }
      var idx := maxSeqNum - s;
      if idx < WINDOW {
        bits := Or(bits, Shl(1, idx));
      }
    }
  }

  method ToU64Be(b: seq<byte>) returns (v: nat)
    requires |b| == 8
    ensures v == BigEndian(b)
  {
    hide Or, Shl, Pow2;
    v := 0;
    var i := 0;
    while i < 8
      invariant 0 <= i <= 8 && v == BigEndian(b[..i])
    {
      assert b[..i + 1][..i] == b[..i];
      ShiftByte(v, b[i]);
      v := Or(Shl(v, 8), b[i]);
      i := i + 1;
    }
    assert b[..8] == b;
  }

  lemma ShiftByte(v: nat, b: byte)
    ensures Or(Shl(v, 8), b) == 256 * v + b
  {
    Pow2Values();
    OrDisjoint(b, v, 8);
    OrCommutes(b, Shl(v, 8));
    Shl7(v, 0);
    assert Shl(v, 8) == 2 * Shl(v, 7);
  }

  lemma {:induction false} OrCommutes(a: nat, b: nat)
    ensures Or(a, b) == Or(b, a)
  {
    if a != 0 && b != 0 {
      OrCommutes(a / 2, b / 2);
    }
  }

  // ---------- the acceptance path of dtls_open_record, over whole runs ----------

  const EPOCHS: nat := 0x1_0000
  const MAX_PLAIN: nat := 16384

  // A record with a well-formed header: its eight bytes of epoch and sequence number, whether
  // the AEAD opens it, and the length of its plaintext.
  datatype Arrival = Arrival(sequence: seq<byte>, authentic: bool, plainLen: nat)

  datatype Verdict = Discard | Accept | TooLong

  datatype Reader = Reader(epoch: nat, w: Window)

  function RecordEpoch(a: Arrival): nat
    requires |a.sequence| == 8
  {
    (a.sequence[0] as int) * 256 + a.sequence[1]
  }

  function Judge(r: Reader, a: Arrival): Verdict
    requires |a.sequence| == 8
  {
    if RecordEpoch(a) != r.epoch || Discards(r.w, BigEndian(a.sequence)) then Discard
    else if !a.authentic then Discard
    else if a.plainLen > MAX_PLAIN then TooLong
    else Accept
  }

  datatype Event = Arrives(a: Arrival) | SetReadState

  predicate EventOk(e: Event) {
    e.Arrives? ==> |e.a.sequence| == 8
  }

  predicate RunEventsOk(run: seq<Event>) {
    run == [] || (EventOk(run[0]) && RunEventsOk(run[1..]))
  }

  function Step(r: Reader, e: Event): Reader
    requires EventOk(e)
  {
    match e
    case SetReadState => Reader((r.epoch + 1) % EPOCHS, FRESH)
    case Arrives(a) => if Judge(r, a).Accept? then r.(w := Record(r.w, BigEndian(a.sequence))) else r
  }

  // The sequence numbers accepted in a run, with the epoch in their high bits.
  function Accepted(r: Reader, run: seq<Event>): (acc: seq<nat>)
    requires RunEventsOk(run)
    decreases |run|
  {
    if run == [] then []
    else
      (if run[0].Arrives? && Judge(r, run[0].a).Accept? then [BigEndian(run[0].a.sequence)] else [])
      + Accepted(Step(r, run[0]), run[1..])
  }

  function After(r: Reader, run: seq<Event>): Reader
    requires RunEventsOk(run)
    decreases |run|
  {
    if run == [] then r else After(Step(r, run[0]), run[1..])
  }

  function Switches(run: seq<Event>): nat {
    if run == [] then 0 else (if run[0].SetReadState? then 1 else 0) + Switches(run[1..])
  }

  const SEQS: nat := 0x1_0000_0000_0000

  // The number that dtls_open_record records is the epoch followed by 48 bits.
  lemma SequenceEpoch(a: Arrival)
    requires |a.sequence| == 8
    ensures RecordEpoch(a) * SEQS <= BigEndian(a.sequence) < (RecordEpoch(a) + 1) * SEQS
  {
    hide BigEndian, Pow2, Shl;
    var b := a.sequence;
    BigEndianSplit(b, 6);
    Shl48(RecordEpoch(a));
    Shl48(RecordEpoch(a) + 1);
  }

  lemma {:induction false} BigEndianSplit(b: seq<byte>, n: nat)
    requires |b| == n + 2
    ensures var hi := (b[0] as int) * 256 + b[1];
            Shl(hi, 8 * n) <= BigEndian(b) < Shl(hi + 1, 8 * n)
  {
    var hi := (b[0] as int) * 256 + b[1];
    if n == 0 {
      assert b[..1] == [b[0]] && b[..1][..0] == [];
      assert BigEndian([b[0]]) == 256 * BigEndian([]) + b[0];
    } else {
      hide BigEndian, Shl;
      BigEndianSplit(b[..n + 1], n - 1);
      ShlByte(hi, 8 * (n - 1));
      ShlByte(hi + 1, 8 * (n - 1));
      BigEndianLast(b);
    }
  }

  lemma BigEndianLast(b: seq<byte>)
    requires b != []
    ensures BigEndian(b) == 256 * BigEndian(b[..|b| - 1]) + b[|b| - 1]
  {
  }

  lemma ShlByte(w: nat, k: nat)
    ensures Shl(w, k + 8) == 256 * Shl(w, k)
  {
    Shl7(w, k);
  }

  lemma Shl48(w: nat)
    ensures Shl(w, 48) == w * SEQS
  {
    ShlValue(w, 48);
    Pow2Values();
    Pow2Add(28, 20);
    Pow2Add(14, 6);
    assert Pow2(6) == 64;
  }

  // The invariant of every run within the epoch r.epoch: the window tracks what was accepted,
  // and everything accepted in it carries the epoch.
  ghost predicate ReaderOk(r: Reader, h: set<nat>) {
    && r.epoch < EPOCHS && Tracks(r.w, h)
    && forall s | s in h :: r.epoch * SEQS <= s < (r.epoch + 1) * SEQS
  }

  lemma AcceptOk(r: Reader, h: set<nat>, a: Arrival)
    requires ReaderOk(r, h) && |a.sequence| == 8 && Judge(r, a).Accept?
    ensures BigEndian(a.sequence) !in h
    ensures ReaderOk(Step(r, Arrives(a)), h + {BigEndian(a.sequence)})
  {
    hide Tracks, Record, Discards, BigEndian;
    SequenceEpoch(a);
    DiscardExact(r.w, h, BigEndian(a.sequence));
    RecordTracks(r.w, h, BigEndian(a.sequence));
  }

  predicate Distinct(s: seq<nat>) {
    forall i, j | 0 <= i < j < |s| :: s[i] != s[j]
  }

  // No record is accepted twice, within an epoch or across epochs: earlier numbers of this epoch
  // are in h, and numbers of later epochs are larger.
  lemma {:induction false} NeverTwice(r: Reader, h: set<nat>, run: seq<Event>)
    requires RunEventsOk(run) && ReaderOk(r, h) && r.epoch + Switches(run) < EPOCHS
    ensures Distinct(Accepted(r, run))
    ensures forall s | s in Accepted(r, run) :: s !in h && s >= r.epoch * SEQS
    decreases |run|
  {
    if run != [] {
      hide Tracks, Record, Discards, BigEndian;
      var e, rest := run[0], run[1..];
      match e
      case SetReadState =>
        FreshTracks();
        NeverTwice(Step(r, e), {}, rest);
        assert Accepted(r, run) == Accepted(Step(r, e), rest);
      case Arrives(a) =>
        if Judge(r, a).Accept? {
          AcceptOk(r, h, a);
          SequenceEpoch(a);
          NeverTwice(Step(r, e), h + {BigEndian(a.sequence)}, rest);
        } else {
          NeverTwice(r, h, rest);
          assert Accepted(r, run) == Accepted(r, rest);
        }
    }
  }

  // The numbers accepted since the last epoch switch.
  function Current(r: Reader, h: set<nat>, run: seq<Event>): set<nat>
    requires RunEventsOk(run)
    decreases |run|
  {
    if run == [] then h
    else
      match run[0]
      case SetReadState => Current(Step(r, run[0]), {}, run[1..])
      case Arrives(a) =>
        Current(Step(r, run[0]), if Judge(r, a).Accept? then h + {BigEndian(a.sequence)} else h, run[1..])
  }

  lemma {:induction false} RunOk(r: Reader, h: set<nat>, run: seq<Event>)
    requires RunEventsOk(run) && ReaderOk(r, h)
    ensures ReaderOk(After(r, run), Current(r, h, run))
    decreases |run|
  {
    if run != [] {
      hide Tracks, Record, Discards, BigEndian;
      match run[0]
      case SetReadState =>
        FreshTracks();
        RunOk(Step(r, run[0]), {}, run[1..]);
      case Arrives(a) =>
        if Judge(r, a).Accept? {
          AcceptOk(r, h, a);
          RunOk(Step(r, run[0]), h + {BigEndian(a.sequence)}, run[1..]);
        } else {
          RunOk(r, h, run[1..]);
        }
    }
  }

  // After any run, a record goes through if and only if it is of the current epoch and authentic,
  // its number was not accepted since the switch, and it is less than 64 below the largest that
  // was; then it is accepted unless it is too long. Nothing else changes the reader.
  lemma AcceptedIffFresh(run: seq<Event>, a: Arrival)
    requires RunEventsOk(run) && |a.sequence| == 8
    ensures var r, h, s := After(Reader(0, FRESH), run), Current(Reader(0, FRESH), {}, run), BigEndian(a.sequence);
            var through := RecordEpoch(a) == r.epoch && a.authentic && s !in h && s + 64 > r.w.max;
            && (Judge(r, a).Accept? <==> through && a.plainLen <= 16384)
            && (Judge(r, a).TooLong? <==> through && a.plainLen > 16384)
            && (!(through && a.plainLen <= 16384) ==> Step(r, Arrives(a)) == r)
            && (forall x | x in h :: x <= r.w.max) && (h != {} ==> r.w.max in h)
            && r.epoch == Switches(run) % 0x1_0000
  {
    EpochCounts(Reader(0, FRESH), run);
    FreshTracks();
    RunOk(Reader(0, FRESH), {}, run);
    var r, h := After(Reader(0, FRESH), run), Current(Reader(0, FRESH), {}, run);
    DiscardExact(r.w, h, BigEndian(a.sequence));
  }

  lemma {:induction false} EpochCounts(r: Reader, run: seq<Event>)
    requires RunEventsOk(run) && r.epoch < EPOCHS
    ensures After(r, run).epoch == (r.epoch + Switches(run)) % EPOCHS
    decreases |run|
  {
    hide Judge, Record, BigEndian;
    if run != [] {
      EpochCounts(Step(r, run[0]), run[1..]);
    }
  }

  // The receiving half of the record layer.
  class RecordReader {
    var rEpoch: nat
    var bitmap: Bitmap

    ghost function State(): Reader
      reads this, bitmap
    {
      Reader(rEpoch, bitmap.Win())
    }

    constructor ()
      ensures State() == Reader(0, FRESH) && fresh(bitmap)
    {
      rEpoch := 0;
      bitmap := new Bitmap();
    }

    // dtls_open_record, from the epoch check on.
    method OpenRecord(a: Arrival) returns (v: Verdict)
      requires |a.sequence| == 8
      modifies bitmap
      ensures v == Judge(old(State()), a) && State() == Step(old(State()), Arrives(a))
    {
      hide Discards, Record, BigEndian;
      var epoch := (a.sequence[0] as int) * 256 + a.sequence[1];
      if epoch != rEpoch {
        return Discard;
      }
      var replay := bitmap.ShouldDiscard(a.sequence);
      if replay || !a.authentic {
        return Discard;
      }
      if a.plainLen > MAX_PLAIN {
        return TooLong;
      }
      bitmap.RecordSeq(a.sequence);
      return Accept;
    }

    // dtls1_set_read_state, when no handshake data is left over.
    method SetReadEpoch()
      modifies this, bitmap
      ensures State() == Step(old(State()), SetReadState) && bitmap == old(bitmap)
    {
      rEpoch := (rEpoch + 1) % EPOCHS;
      bitmap.Clear();
    }
  }
}
