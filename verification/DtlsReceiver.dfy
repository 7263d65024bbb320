// The receiving side of the DTLS handshake transport: seven reassembly slots and a read position.
module DtlsReceiver {
  import opened Bits
  import opened Results
  import opened DtlsFragment

  const FLIGHT: nat := 7

  datatype Alert = DecodeError | ExcessiveSize | UnexpectedRecord | TooFarAhead | FragmentMismatch

  // handshake_read_seq, r_epoch and incoming_messages.
  datatype Ring = Ring(readSeq: nat, epoch: nat, slots: seq<Option<Partial>>)

  // Each slot holds a message of the window [readSeq, readSeq + 7) whose number it is congruent to.
  predicate RingOk(r: Ring) {
    && r.readSeq < U16 && |r.slots| == FLIGHT
    && forall i | 0 <= i < FLIGHT ::
         r.slots[i].Some? ==>
           r.slots[i].value.seqNo % FLIGHT == i && r.readSeq <= r.slots[i].value.seqNo < r.readSeq + FLIGHT
  }

  predicate InBounds(h: Header, maxLen: nat) {
    h.fragOff <= h.msgLen && h.fragOff + h.fragLen <= h.msgLen && h.msgLen <= maxLen
  }

  // What a fragment does to the slot it belongs to.
  function Assemble(slot: Option<Partial>, f: Fragment): (r: Result<Partial>)
    requires InBounds(f.hdr, f.hdr.msgLen) && |f.body| == f.hdr.fragLen
  {
    var p := if slot.Some? then slot.value else NewPartial(f.hdr);
    if p.typ != f.hdr.typ || |p.data| != f.hdr.msgLen then Err(InvalidDescriptor)
    else if Complete(p) then Ok(p)
    else Ok(Receive(p, f.hdr.fragOff, f.body))
  }

  // One turn of the loop of dtls1_open_handshake. The first comparison with the window is >,
  // where that of dtls1_get_incoming_message is >=: exactly seven ahead is an error.
  function Accept(r: Ring, f: Fragment, maxLen: nat): (res: (Ring, Option<Alert>))
    requires |r.slots| == FLIGHT && |f.body| == f.hdr.fragLen
    ensures |res.0.slots| == FLIGHT && res.0.readSeq == r.readSeq
  {
    var h := f.hdr;
    if !InBounds(h, maxLen) then (r, Some(ExcessiveSize))
    else if r.epoch == 1 && h.seqNo != r.readSeq then (r, Some(UnexpectedRecord))
    else if h.seqNo < r.readSeq || h.seqNo > r.readSeq + FLIGHT then (r, None)
    else if h.seqNo - r.readSeq >= FLIGHT then (r, Some(TooFarAhead))
    else
      var idx := h.seqNo % FLIGHT;
      match Assemble(r.slots[idx], f)
      case Err(_) => (r, Some(FragmentMismatch))
      case Ok(p) => (r.(slots := r.slots[idx := Some(p)]), None)
  }

  // dtls1_open_handshake on the plaintext of a handshake record.
  function Process(r: Ring, s: seq<byte>, maxLen: nat): (res: (Ring, Option<Alert>))
    requires |r.slots| == FLIGHT
    ensures |res.0.slots| == FLIGHT && res.0.readSeq == r.readSeq
    decreases |s|
  {
    if s == [] then (r, None)
    else
      match ParseFragment(s)
      case None => (r, Some(DecodeError))
      case Some((f, rest)) =>
        var (r', alert) := Accept(r, f, maxLen);
        if alert.Some? then (r', alert) else Process(r', rest, maxLen)
  }

  // dtls1_get_message.
  function Current(r: Ring): Option<Partial>
    requires |r.slots| == FLIGHT
  {
    var slot := r.slots[r.readSeq % FLIGHT];
    if slot.Some? && Complete(slot.value) then slot else None
  }

  // dtls1_next_message.
  function Advance(r: Ring): (r': Ring)
    requires |r.slots| == FLIGHT
    ensures |r'.slots| == FLIGHT
  {
    r.(slots := r.slots[r.readSeq % FLIGHT := None], readSeq := (r.readSeq + 1) % U16)
  }

  // ---------- the ring ----------

  lemma SameResidue(a: nat, b: nat, lo: nat)
    requires lo <= a < lo + FLIGHT && lo <= b < lo + FLIGHT && a % FLIGHT == b % FLIGHT
    ensures a == b
  {
  }

  lemma AcceptRing(r: Ring, f: Fragment, maxLen: nat)
    requires RingOk(r) && |f.body| == f.hdr.fragLen
    ensures RingOk(Accept(r, f, maxLen).0)
    ensures var slot := r.slots[f.hdr.seqNo % FLIGHT];
            r.readSeq <= f.hdr.seqNo < r.readSeq + FLIGHT && slot.Some? ==> slot.value.seqNo == f.hdr.seqNo
  {
    hide Complete, Receive;
    var idx := f.hdr.seqNo % FLIGHT;
    if r.readSeq <= f.hdr.seqNo < r.readSeq + FLIGHT && r.slots[idx].Some? {
      SameResidue(r.slots[idx].value.seqNo, f.hdr.seqNo, r.readSeq);
    }
    if InBounds(f.hdr, maxLen) {
      AssembleSeq(r.slots[idx], f);
    }
  }

  lemma AssembleSeq(slot: Option<Partial>, f: Fragment)
    requires InBounds(f.hdr, f.hdr.msgLen) && |f.body| == f.hdr.fragLen
    ensures Assemble(slot, f).Ok? ==>
              Assemble(slot, f).value.seqNo == if slot.Some? then slot.value.seqNo else f.hdr.seqNo
  {
    hide Complete;
  }

  lemma AdvanceRing(r: Ring)
    requires RingOk(r) && r.readSeq + 1 < U16
    ensures RingOk(Advance(r))
  {
    forall i | 0 <= i < FLIGHT && Advance(r).slots[i].Some?
      ensures r.slots[i].value.seqNo > r.readSeq
    {
      assert i != r.readSeq % FLIGHT;
    }
  }

  // ---------- faithfulness ----------

  // A message as the sender queued it; its number is its position.
  datatype Sent = Sent(typ: byte, body: seq<byte>)

  // The fragment is a slice of one of the messages ms.
  predicate Slice(f: Fragment, ms: seq<Sent>) {
    var h := f.hdr;
    && h.seqNo < |ms| && h.typ == ms[h.seqNo].typ && h.msgLen == |ms[h.seqNo].body|
    && h.fragOff + h.fragLen <= h.msgLen && f.body == ms[h.seqNo].body[h.fragOff..h.fragOff + h.fragLen]
  }

  // The bytes received so far are those of the message.
  predicate PartOf(p: Partial, m: Sent) {
    && p.typ == m.typ && |p.data| == |m.body| && p.got <= Span(0, |m.body|)
    && forall i | i in p.got :: 0 <= i < |p.data| && p.data[i] == m.body[i]
  }

  predicate Faithful(r: Ring, ms: seq<Sent>) {
    && RingOk(r) && r.readSeq <= |ms|
    && forall i | 0 <= i < FLIGHT && r.slots[i].Some? ::
         r.slots[i].value.seqNo < |ms| && PartOf(r.slots[i].value, ms[r.slots[i].value.seqNo])
  }

  lemma ReceivePart(p: Partial, m: Sent, off: nat, body: seq<byte>)
    requires PartOf(p, m) && off + |body| <= |m.body| && body == m.body[off..off + |body|]
    ensures PartOf(Receive(p, off, body), m)
  {
    var q := Receive(p, off, body);
    forall i | i in q.got
      ensures 0 <= i < |q.data| && q.data[i] == m.body[i]
    {
      if off <= i < off + |body| {
        assert q.data[i] == body[i - off];
      } else {
        assert i in p.got;
      }
    }
  }

  lemma AssemblePart(slot: Option<Partial>, f: Fragment, ms: seq<Sent>)
    requires Slice(f, ms) && |f.body| == f.hdr.fragLen && InBounds(f.hdr, f.hdr.msgLen)
    requires slot.Some? ==> slot.value.seqNo == f.hdr.seqNo && PartOf(slot.value, ms[f.hdr.seqNo])
    ensures var a := Assemble(slot, f);
            && a.Ok? && a.value.seqNo == f.hdr.seqNo && PartOf(a.value, ms[f.hdr.seqNo])
            && (slot.Some? ==> slot.value.got <= a.value.got) && Span(f.hdr.fragOff, f.hdr.fragOff + f.hdr.fragLen) <= a.value.got
  {
    hide Receive;
    var p := if slot.Some? then slot.value else NewPartial(f.hdr);
    assert PartOf(p, ms[f.hdr.seqNo]);
    if !Complete(p) {
      ReceivePart(p, ms[f.hdr.seqNo], f.hdr.fragOff, f.body);
      ReceiveGot(p, f.hdr.fragOff, f.body);
    }
  }

  lemma ReceiveGot(p: Partial, off: nat, body: seq<byte>)
    requires off + |body| <= |p.data|
    ensures Receive(p, off, body).got == p.got + Span(off, off + |body|) && Receive(p, off, body).seqNo == p.seqNo
  {
  }

  // A slice of the sender's messages never conflicts with what arrived before, wherever it comes.
  lemma AcceptFaithful(r: Ring, f: Fragment, maxLen: nat, ms: seq<Sent>)
    requires Faithful(r, ms) && Slice(f, ms) && |f.body| == f.hdr.fragLen
    ensures Faithful(Accept(r, f, maxLen).0, ms)
    ensures Accept(r, f, maxLen).1 != Some(FragmentMismatch)
  {
    hide PartOf, Assemble;
    AcceptRing(r, f, maxLen);
    if InBounds(f.hdr, maxLen) && r.readSeq <= f.hdr.seqNo < r.readSeq + FLIGHT {
      AssemblePart(r.slots[f.hdr.seqNo % FLIGHT], f, ms);
    }
  }

  // Every fragment that the bytes parse into is a slice.
  predicate SliceRecord(s: seq<byte>, ms: seq<Sent>)
    decreases |s|
  {
    s == [] || (match ParseFragment(s)
                case None => true
                case Some((f, rest)) => Slice(f, ms) && SliceRecord(rest, ms))
  }

  lemma {:induction false} ProcessFaithful(r: Ring, s: seq<byte>, maxLen: nat, ms: seq<Sent>)
    requires Faithful(r, ms) && SliceRecord(s, ms)
    ensures Faithful(Process(r, s, maxLen).0, ms)
    decreases |s|
  {
    hide Faithful, Accept, Slice, RingOk, ParseFragment;
    FaithfulShape(r, ms);
    if s != [] && ParseFragment(s).Some? {
      var (f, rest) := ParseFragment(s).value;
      AcceptFaithful(r, f, maxLen, ms);
      if Accept(r, f, maxLen).1.None? {
        ProcessFaithful(Accept(r, f, maxLen).0, rest, maxLen, ms);
      }
    }
  }

  lemma FaithfulBound(r: Ring, ms: seq<Sent>)
    requires Faithful(r, ms)
    ensures r.readSeq <= |ms|
  {
  }

  lemma FaithfulShape(r: Ring, ms: seq<Sent>)
    requires Faithful(r, ms)
    ensures |r.slots| == FLIGHT && RingOk(r)
  {
  }

  // ---------- delivery ----------

  datatype Event =
    | RecordArrives(plain: seq<byte>)
    | TakeMessage
    | EpochChange(epoch: nat)

  function StepRing(r: Ring, e: Event, maxLen: nat): (r': Ring)
    requires |r.slots| == FLIGHT
    ensures |r'.slots| == FLIGHT
  {
    match e
    case RecordArrives(plain) => Process(r, plain, maxLen).0
    case TakeMessage => if Current(r).Some? then Advance(r) else r
    case EpochChange(epoch) => r.(epoch := epoch)
  }

  // The messages taken in a run, in order.
  function Delivered(r: Ring, run: seq<Event>, maxLen: nat): seq<Partial>
    requires |r.slots| == FLIGHT
    decreases |run|
  {
    if run == [] then []
    else
      (if run[0].TakeMessage? && Current(r).Some? then [Current(r).value] else [])
      + Delivered(StepRing(r, run[0], maxLen), run[1..], maxLen)
  }

  predicate RunOk(run: seq<Event>, ms: seq<Sent>) {
    forall e | e in run && e.RecordArrives? :: SliceRecord(e.plain, ms)
  }

  lemma TakeFaithful(r: Ring, ms: seq<Sent>)
    requires Faithful(r, ms) && Current(r).Some? && |ms| < U16
    ensures Faithful(Advance(r), ms) && r.readSeq < |ms| && Advance(r).readSeq == r.readSeq + 1
    ensures var p := Current(r).value;
            p.typ == ms[r.readSeq].typ && p.seqNo == r.readSeq && p.data == ms[r.readSeq].body
  {
    var p := Current(r).value;
    var idx := r.readSeq % FLIGHT;
    SameResidue(p.seqNo, r.readSeq, r.readSeq);
    AdvanceRing(r);
    var m := ms[r.readSeq];
    forall i | 0 <= i < |p.data|
      ensures p.data[i] == m.body[i]
    {
      assert i in Span(0, |p.data|);
    }
  }

  // The messages of ms from position k on, as the receiver hands them out.
  predicate Follows(d: seq<Partial>, ms: seq<Sent>, k: nat) {
    && k + |d| <= |ms|
    && forall j | 0 <= j < |d| ::
         d[j].typ == ms[k + j].typ && d[j].seqNo == k + j && d[j].data == ms[k + j].body
  }

  lemma FollowsCons(p: Partial, d: seq<Partial>, ms: seq<Sent>, k: nat)
    requires k < |ms| && p.typ == ms[k].typ && p.seqNo == k && p.data == ms[k].body && Follows(d, ms, k + 1)
    ensures Follows([p] + d, ms, k)
  {
  }

  // Delivery safety: with fragments lost, duplicated, reordered and resent in any way, the
  // messages handed out are the sender's next messages in order, each once and whole.
  lemma {:induction false} DeliveredInOrder(r: Ring, run: seq<Event>, maxLen: nat, ms: seq<Sent>)
    requires Faithful(r, ms) && RunOk(run, ms) && |ms| < U16
    ensures Follows(Delivered(r, run, maxLen), ms, r.readSeq)
    decreases |run|
  {
    hide Faithful, Current, Advance, SliceRecord, Process, RingOk;
    FaithfulShape(r, ms);
    if run == [] {
      assert Follows([], ms, r.readSeq) by { FaithfulBound(r, ms); }
    } else {
      hide Follows;
      var e, rest := run[0], run[1..];
      assert forall x | x in rest :: x in run;
      match e
      case RecordArrives(plain) =>
        assert e in run;
        ProcessFaithful(r, plain, maxLen, ms);
        DeliveredInOrder(StepRing(r, e, maxLen), rest, maxLen, ms);
        assert Delivered(r, run, maxLen) == Delivered(StepRing(r, e, maxLen), rest, maxLen);
      case EpochChange(epoch) =>
        EpochFaithful(r, epoch, ms);
        DeliveredInOrder(StepRing(r, e, maxLen), rest, maxLen, ms);
        assert Delivered(r, run, maxLen) == Delivered(StepRing(r, e, maxLen), rest, maxLen);
      case TakeMessage =>
        if Current(r).Some? {
          TakeFaithful(r, ms);
          DeliveredInOrder(Advance(r), rest, maxLen, ms);
          FollowsCons(Current(r).value, Delivered(Advance(r), rest, maxLen), ms, r.readSeq);
        } else {
          DeliveredInOrder(r, rest, maxLen, ms);
          assert Delivered(r, run, maxLen) == Delivered(r, rest, maxLen);
        }
    }
  }

  lemma EpochFaithful(r: Ring, epoch: nat, ms: seq<Sent>)
    requires Faithful(r, ms)
    ensures Faithful(r.(epoch := epoch), ms)
  {
  }

  const EMPTY: Ring := Ring(0, 0, [None, None, None, None, None, None, None])

  lemma EmptyFaithful(ms: seq<Sent>)
    ensures Faithful(EMPTY, ms)
  {
  }

  // From the start of a connection: what was delivered is a prefix of what was queued.
  lemma DeliverySafety(run: seq<Event>, maxLen: nat, ms: seq<Sent>)
    requires RunOk(run, ms) && |ms| < U16
    ensures var d := Delivered(EMPTY, run, maxLen);
            |d| <= |ms| && forall j | 0 <= j < |d| :: d[j].typ == ms[j].typ && d[j].seqNo == j && d[j].data == ms[j].body
  {
    hide Delivered, Faithful, RunOk, Follows;
    EmptyFaithful(ms);
    DeliveredInOrder(EMPTY, run, maxLen, ms);
    FollowsFromStart(Delivered(EMPTY, run, maxLen), ms);
  }

  lemma FollowsFromStart(d: seq<Partial>, ms: seq<Sent>)
    requires Follows(d, ms, EMPTY.readSeq)
    ensures |d| <= |ms| && forall j | 0 <= j < |d| :: d[j].typ == ms[j].typ && d[j].seqNo == j && d[j].data == ms[j].body
  {
  }

  // ---------- the two window checks ----------

  // What becomes of a fragment: an error for bad bounds, in the encrypted epoch for any other
  // number than the next, exactly seven ahead, and for a type or length unlike that of the message
  // it continues; ignored in the past and from eight ahead on; otherwise used.
  lemma WindowVerdicts(r: Ring, f: Fragment, maxLen: nat)
    requires RingOk(r) && |f.body| == f.hdr.fragLen
    ensures var ((r', alert), h) := (Accept(r, f, maxLen), f.hdr);
            var d, slot := h.seqNo - r.readSeq, r.slots[h.seqNo % FLIGHT];
            var expected := InBounds(h, maxLen) && (r.epoch == 1 ==> d == 0);
            && (alert == Some(ExcessiveSize) <==> !InBounds(h, maxLen))
            && (alert == Some(UnexpectedRecord) <==> InBounds(h, maxLen) && !expected)
            && (alert == Some(TooFarAhead) <==> expected && d == FLIGHT)
            && (alert == Some(FragmentMismatch) <==>
                  expected && 0 <= d < FLIGHT && slot.Some? && (slot.value.typ != h.typ || |slot.value.data| != h.msgLen))
            && (alert != Some(DecodeError))
            && (alert.Some? || d < 0 || d > FLIGHT ==> r' == r)
            && (alert.None? && 0 <= d < FLIGHT ==>
                  r'.slots[h.seqNo % FLIGHT].Some? && r'.slots[h.seqNo % FLIGHT].value.seqNo == h.seqNo)
  {
    AcceptRing(r, f, maxLen);
  }

  // ---------- reassembly of one message ----------

  // The positions that the fragments carry.
  function Carried(fs: seq<Fragment>): set<nat> {
    if fs == [] then {}
    else Carried(fs[..|fs| - 1]) + Span(fs[|fs| - 1].hdr.fragOff, fs[|fs| - 1].hdr.fragOff + fs[|fs| - 1].hdr.fragLen)
  }

  predicate FragmentOk(f: Fragment) {
    InBounds(f.hdr, f.hdr.msgLen) && |f.body| == f.hdr.fragLen
  }

  // The slot after the fragments fs of one message, in the order in which they arrived.
  function AssembleAll(fs: seq<Fragment>): Option<Partial>
    requires forall f | f in fs :: FragmentOk(f)
  {
    if fs == [] then None
    else
      var slot, last := AssembleAll(fs[..|fs| - 1]), fs[|fs| - 1];
      assert last in fs && FragmentOk(last);
      var a := Assemble(slot, last);
      if a.Ok? then Some(a.value) else slot
  }

  // Whatever the order, overlaps and repetitions: the message is complete exactly when the
  // fragments cover it, and then it is the message that was sent.
  lemma {:induction false} Reassembly(fs: seq<Fragment>, ms: seq<Sent>, q: nat)
    requires fs != [] && q < |ms|
    requires forall f | f in fs :: FragmentOk(f) && Slice(f, ms) && f.hdr.seqNo == q
    ensures AssembleAll(fs).Some?
    ensures var p := AssembleAll(fs).value;
            && p.seqNo == q && PartOf(p, ms[q]) && p.got == Carried(fs)
            && (Complete(p) <==> Span(0, |ms[q].body|) <= Carried(fs))
            && (Complete(p) ==> p.data == ms[q].body)
  {
    hide Slice;
    var n := |fs| - 1;
    var f, before := fs[n], fs[..n];
    assert forall x | x in before :: x in fs;
    assert f in fs && FragmentOk(f);
    if before != [] {
      Reassembly(before, ms, q);
    }
    AssemblePart(AssembleAll(before), f, ms);
    AssembleGot(AssembleAll(before), f, ms);
    var p := AssembleAll(fs).value;
    assert p == Assemble(AssembleAll(before), f).value;
    if Complete(p) {
      CompleteIsMessage(p, ms[q]);
    }
  }

  lemma AssembleGot(slot: Option<Partial>, f: Fragment, ms: seq<Sent>)
    requires Slice(f, ms) && |f.body| == f.hdr.fragLen && InBounds(f.hdr, f.hdr.msgLen)
    requires slot.Some? ==> slot.value.seqNo == f.hdr.seqNo && PartOf(slot.value, ms[f.hdr.seqNo])
    ensures Assemble(slot, f).Ok?
    ensures Assemble(slot, f).value.got
         == (if slot.Some? then slot.value.got else {}) + Span(f.hdr.fragOff, f.hdr.fragOff + f.hdr.fragLen)
  {
    hide Receive;
    var p := if slot.Some? then slot.value else NewPartial(f.hdr);
    if Complete(p) {
      assert Span(f.hdr.fragOff, f.hdr.fragOff + f.hdr.fragLen) <= Span(0, |p.data|);
    } else {
      ReceiveGot(p, f.hdr.fragOff, f.body);
    }
  }

  lemma CompleteIsMessage(p: Partial, m: Sent)
    requires PartOf(p, m) && Complete(p)
    ensures p.data == m.body
  {
    forall i | 0 <= i < |p.data|
      ensures p.data[i] == m.body[i]
    {
      assert i in Span(0, |p.data|);
    }
  }

  // ---------- the code ----------

  // dtls1_state_st, the incoming half.
  class Receiver {
    var readSeq: nat
    var epoch: nat
    const maxLen: nat
    const incoming: array<HmFragment?>
    ghost var owned: set<object>

    // Slot i and its storage.
    ghost predicate SlotOk(i: nat)
      requires i < incoming.Length
      reads this, incoming, owned
    {
      var m := incoming[i];
      m != null ==>
        && m in owned && m.data in owned && (m.reassembly != null ==> m.reassembly in owned)
        && m.Valid()
        && m.seqNo % FLIGHT == i && readSeq <= m.seqNo < readSeq + FLIGHT
    }

    // The slots share no storage.
    ghost predicate Apart(i: nat, j: nat)
      requires i < incoming.Length && j < incoming.Length
      reads this, incoming, owned
    {
      var a, b := incoming[i], incoming[j];
      a != null && b != null && a in owned && b in owned ==>
        a != b && a.data != b.data && (a.reassembly == null || (a.reassembly != b.reassembly && a.reassembly != b.data))
    }

    ghost predicate Valid()
      reads this, incoming, owned
    {
      && incoming.Length == FLIGHT && readSeq < U16
      && incoming !in owned && this !in owned
      && (forall i: nat | i < FLIGHT :: SlotOk(i))
      && forall i: nat, j: nat | i < FLIGHT && j < FLIGHT && i != j :: Apart(i, j)
    }

    ghost function Slot(i: nat): Option<Partial>
      requires Valid() && i < FLIGHT
      reads this, incoming, owned
    {
      assert SlotOk(i);
      var m := incoming[i];
      if m == null then None
      else
        assert m in owned && m.data in owned;
        Some(m.Abs())
    }

    ghost function Abs(): Ring
      requires Valid()
      reads this, incoming, owned
    {
      Ring(readSeq, epoch,
        seq(FLIGHT, i requires 0 <= i < FLIGHT && Valid() reads this, incoming, owned => Slot(i)))
    }

    constructor (maxMessage: nat)
      ensures Valid() && Abs() == EMPTY && fresh(incoming) && fresh(owned) && maxLen == maxMessage
    {
      readSeq, epoch, maxLen, owned := 0, 0, maxMessage, {};
      incoming := new HmFragment?[FLIGHT](i => null);
    }

    // A new message in the empty slot of its number.
    method Insert(h: Header) returns (frag: HmFragment)
      requires Valid() && HeaderOk(h) && readSeq <= h.seqNo < readSeq + FLIGHT && incoming[h.seqNo % FLIGHT] == null
      modifies this`owned, incoming
      ensures Valid() && fresh(frag) && fresh(owned - old(owned)) && old(owned) <= owned
      ensures incoming[h.seqNo % FLIGHT] == frag && frag.Valid() && frag.Abs() == NewPartial(h)
      ensures frag.seqNo == h.seqNo && frag.typ == h.typ && frag.msgLen == h.msgLen
      ensures forall i: nat | i < FLIGHT && i != h.seqNo % FLIGHT :: incoming[i] == old(incoming[i])
    {
      hide PutHeader, Covers;
      var idx := h.seqNo % FLIGHT;
      frag := new HmFragment(h);
      ghost var before := owned;
      incoming[idx] := frag;
      owned := owned + {frag, frag.data} + if frag.reassembly == null then {} else {frag.reassembly};
      forall i: nat | i < FLIGHT
        ensures SlotOk(i)
      {
        if i != idx {
          assert old(SlotOk(i));
        }
      }
      forall i: nat, j: nat | i < FLIGHT && j < FLIGHT && i != j
        ensures Apart(i, j)
      {
        if i != idx && j != idx {
          assert old(Apart(i, j)) && old(SlotOk(i)) && old(SlotOk(j));
        } else if i != idx {
          assert old(SlotOk(i));
        } else {
          assert old(SlotOk(j));
        }
      }
    }

    // A fragment that belongs to the incomplete message in its slot.
    method AddTo(frag: HmFragment, off: nat, body: seq<byte>)
      requires Valid() && incoming[frag.seqNo % FLIGHT] == frag && readSeq <= frag.seqNo < readSeq + FLIGHT
      requires frag.Valid() && frag.reassembly != null && off + |body| <= frag.msgLen
      modifies owned
      ensures Valid() && frag.Valid() && frag.Abs() == Receive(old(frag.Abs()), off, body)
      ensures forall i: nat | i < FLIGHT && i != frag.seqNo % FLIGHT :: Slot(i) == old(Slot(i))
    {
      hide PutHeader, Covers, Receive;
      var idx := frag.seqNo % FLIGHT;
      assert SlotOk(idx);
      frag.Add(off, body);
      forall i: nat | i < FLIGHT
        ensures SlotOk(i) && (i != idx && incoming[i] != null ==> incoming[i].Abs() == old(incoming[i].Abs()))
      {
        if i != idx {
          assert old(SlotOk(i)) && old(Apart(i, idx)) && old(Apart(idx, i));
        }
      }
      forall i: nat, j: nat | i < FLIGHT && j < FLIGHT && i != j
        ensures Apart(i, j)
      {
        assert old(Apart(i, j)) && old(SlotOk(i)) && old(SlotOk(j));
      }
    }

    // One turn of the loop of dtls1_open_handshake.
    method OpenFragment(f: Fragment) returns (alert: Option<Alert>)
      requires Valid() && HeaderOk(f.hdr) && |f.body| == f.hdr.fragLen
      modifies this`owned, incoming, owned
      ensures Valid() && fresh(owned - old(owned))
      ensures (Abs(), alert) == Accept(old(Abs()), f, maxLen)
    {
      var h := f.hdr;
      alert := None;
      if h.fragOff > h.msgLen || h.fragOff + h.fragLen > h.msgLen || h.msgLen > maxLen {
        return Some(ExcessiveSize);
      }
      if epoch == 1 && h.seqNo != readSeq {
        return Some(UnexpectedRecord);
      }
      if h.seqNo < readSeq || h.seqNo > readSeq + FLIGHT {
        return;
      }
      // dtls1_get_incoming_message.
      if h.seqNo - readSeq >= FLIGHT {
        return Some(TooFarAhead);
      }
      var idx := h.seqNo % FLIGHT;
      alert := Place(f);
      assert Abs().slots == old(Abs()).slots[idx := Slot(idx)] by {
        assert forall i: nat | i < FLIGHT :: Abs().slots[i] == Slot(i);
        assert forall i: nat | i < FLIGHT :: old(Abs()).slots[i] == old(Slot(i));
      }
    }

    // The part of a turn that touches the slot of the fragment.
    method Place(f: Fragment) returns (alert: Option<Alert>)
      requires Valid() && HeaderOk(f.hdr) && |f.body| == f.hdr.fragLen && InBounds(f.hdr, maxLen)
      requires readSeq <= f.hdr.seqNo < readSeq + FLIGHT
      modifies this`owned, incoming, owned
      ensures Valid() && fresh(owned - old(owned))
      ensures var a := Assemble(old(Slot(f.hdr.seqNo % FLIGHT)), f);
              && (a.Err? ==> alert == Some(FragmentMismatch) && Abs() == old(Abs()))
              && (a.Ok? ==> alert == None && Slot(f.hdr.seqNo % FLIGHT) == Some(a.value))
      ensures forall i: nat | i < FLIGHT && i != f.hdr.seqNo % FLIGHT :: Slot(i) == old(Slot(i))
    {
      hide PutHeader, Covers, Receive, Apart;
      var h := f.hdr;
      var idx := h.seqNo % FLIGHT;
      alert := None;
      var frag := incoming[idx];
      assert SlotOk(idx);
      if frag != null {
        SameResidue(frag.seqNo, h.seqNo, readSeq);
        if frag.typ != h.typ || frag.msgLen != h.msgLen {
          return Some(FragmentMismatch);
        }
      } else {
        frag := Insert(h);
      }
      if frag.reassembly != null {
        AddTo(frag, h.fragOff, f.body);
      }
    }

    // dtls1_open_handshake on a handshake record.
    method OpenHandshake(record: seq<byte>) returns (alert: Option<Alert>)
      requires Valid()
      modifies this`owned, incoming, owned
      ensures Valid() && fresh(owned - old(owned))
      ensures (Abs(), alert) == Process(old(Abs()), record, maxLen)
    {
      hide Accept, ParseFragment, Valid;
      var cbs := record;
      while cbs != []
        invariant Valid() && fresh(owned - old(owned))
        invariant Process(Abs(), cbs, maxLen) == Process(old(Abs()), record, maxLen)
        decreases |cbs|
      {
        var parsed := ParseFragment(cbs);
        if parsed.None? {
          return Some(DecodeError);
        }
        alert := OpenFragment(parsed.value.0);
        if alert.Some? {
          return;
        }
        cbs := parsed.value.1;
      }
      return None;
    }

    // dtls1_is_current_message_complete.
    predicate CurrentComplete()
      requires Valid()
      reads this, incoming, owned
    {
      assert SlotOk(readSeq % FLIGHT);
      var frag := incoming[readSeq % FLIGHT];
      frag != null && frag.reassembly == null
    }

    // dtls1_get_message: the type, the body and the raw message with its header.
    method GetMessage() returns (ok: bool, typ: byte, body: seq<byte>, raw: seq<byte>)
      requires Valid()
      ensures ok <==> Current(Abs()).Some?
      ensures ok ==> typ == Current(Abs()).value.typ && body == Current(Abs()).value.data && |body| < U24
      ensures ok ==> raw == Raw(typ, readSeq, body)
    {
      hide PutHeader, Covers;
      assert SlotOk(readSeq % FLIGHT);
      assert Abs().slots[readSeq % FLIGHT] == Slot(readSeq % FLIGHT);
      ok, typ, body, raw := CurrentComplete(), 0, [], [];
      if ok {
        var frag := incoming[readSeq % FLIGHT];
        SameResidue(frag.seqNo, readSeq, readSeq);
        typ := frag.typ;
        body := frag.data[HEADER_LENGTH..];
        raw := frag.data[..];
        assert raw == frag.data[..HEADER_LENGTH] + body;
      }
    }

    // dtls1_next_message.
    method NextMessage()
      requires Valid() && CurrentComplete() && readSeq + 1 < U16
      modifies this`readSeq, incoming
      ensures Valid() && Abs() == Advance(old(Abs()))
    {
      hide PutHeader, Covers;
      ghost var r := Abs();
      var idx := readSeq % FLIGHT;
      incoming[idx] := null;
      readSeq := readSeq + 1;
      forall i: nat | i < FLIGHT
        ensures SlotOk(i)
      {
        assert old(SlotOk(i));
        if i != idx && incoming[i] != null {
          assert incoming[i].seqNo != old(readSeq);
        }
      }
      forall i: nat, j: nat | i < FLIGHT && j < FLIGHT && i != j
        ensures Apart(i, j)
      {
        assert old(Apart(i, j));
      }
      assert Abs().slots == r.slots[idx := None] by {
        assert forall i: nat | i < FLIGHT :: Abs().slots[i] == Slot(i);
        assert forall i: nat | i < FLIGHT :: r.slots[i] == old(Slot(i));
      }
    }
  }
}
