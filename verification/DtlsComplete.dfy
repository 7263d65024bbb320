// What the DTLS receiver owes its peer: when the fragments that arrived cover a message, it is there.
module DtlsComplete {
  import opened Bits
  import opened Results
  import opened DtlsFragment
  import opened DtlsReceiver

  // ---------- records of fragments ----------

  predicate Sound(f: Fragment) {
    HeaderOk(f.hdr) && |f.body| == f.hdr.fragLen
  }

  // The plaintext of a record that holds the fragments fs, one behind the other.
  function Built(fs: seq<Fragment>): seq<byte>
    requires forall f | f in fs :: Sound(f)
  {
    if fs == [] then []
    else
      assert fs[0] in fs && Sound(fs[0]);
      PutHeader(fs[0].hdr) + fs[0].body + Built(fs[1..])
  }

  // The fragments fs in order, up to the first that is answered with an alert.
  function AcceptAll(r: Ring, fs: seq<Fragment>, maxLen: nat): (res: (Ring, Option<Alert>))
    requires |r.slots| == FLIGHT && forall f | f in fs :: Sound(f)
    ensures |res.0.slots| == FLIGHT && res.0.readSeq == r.readSeq
    decreases |fs|
  {
    if fs == [] then (r, None)
    else
      var before := AcceptAll(r, fs[..|fs| - 1], maxLen);
      assert fs[|fs| - 1] in fs && Sound(fs[|fs| - 1]);
      if before.1.Some? then before else Accept(before.0, fs[|fs| - 1], maxLen)
  }

  // The first fragment, and then the others.
  lemma {:induction false} AcceptAllCons(r: Ring, f: Fragment, fs: seq<Fragment>, maxLen: nat)
    requires |r.slots| == FLIGHT && Sound(f) && forall x | x in fs :: Sound(x)
    ensures var (r', alert) := Accept(r, f, maxLen);
            AcceptAll(r, [f] + fs, maxLen) == if alert.Some? then (r', alert) else AcceptAll(r', fs, maxLen)
    decreases |fs|
  {
    hide Accept, Sound;
    var all := [f] + fs;
    if fs == [] {
      assert all[..0] == [] && all == [f];
      assert AcceptAll(r, all[..0], maxLen) == (r, None);
    } else {
      var n := |fs| - 1;
      assert all[..|all| - 1] == [f] + fs[..n] && all[|all| - 1] == fs[n];
      AcceptAllCons(r, f, fs[..n], maxLen);
    }
  }

  // A record is read to its end: every fragment in it is accepted in turn, up to the first alert.
  lemma {:induction false} ProcessIsFold(r: Ring, fs: seq<Fragment>, maxLen: nat)
    requires |r.slots| == FLIGHT && forall f | f in fs :: Sound(f)
    ensures Process(r, Built(fs), maxLen) == AcceptAll(r, fs, maxLen)
    decreases |fs|
  {
    hide Accept, ParseFragment, PutHeader, Sound;
    if fs != [] {
      assert fs[0] in fs && Sound(fs[0]);
      BuiltFirst(fs);
      assert [fs[0]] + fs[1..] == fs;
      AcceptAllCons(r, fs[0], fs[1..], maxLen);
      var (r', alert) := Accept(r, fs[0], maxLen);
      if alert.None? {
        ProcessIsFold(r', fs[1..], maxLen);
      }
    }
  }

  lemma BuiltFirst(fs: seq<Fragment>)
    requires fs != [] && forall f | f in fs :: Sound(f)
    ensures Built(fs) != [] && ParseFragment(Built(fs)) == Some((fs[0], Built(fs[1..])))
  {
    hide ParseFragment, PutHeader;
    assert fs[0] in fs && Sound(fs[0]);
    ParseBuilt(fs[0], Built(fs[1..]));
  }

  // Bytes behind the last fragment that are no fragment are an error.
  lemma {:induction false} ProcessJunk(r: Ring, fs: seq<Fragment>, junk: seq<byte>, maxLen: nat)
    requires |r.slots| == FLIGHT && forall f | f in fs :: Sound(f)
    requires junk != [] && ParseFragment(junk).None?
    ensures var all := AcceptAll(r, fs, maxLen);
            Process(r, Built(fs) + junk, maxLen) == if all.1.Some? then all else (all.0, Some(DecodeError))
    decreases |fs|
  {
    hide Accept, ParseFragment, PutHeader, Sound;
    if fs == [] {
      assert Built(fs) + junk == junk;
    } else {
      assert fs[0] in fs && Sound(fs[0]);
      BuiltThen(fs, junk);
      assert [fs[0]] + fs[1..] == fs;
      AcceptAllCons(r, fs[0], fs[1..], maxLen);
      var (r', alert) := Accept(r, fs[0], maxLen);
      if alert.None? {
        ProcessJunk(r', fs[1..], junk, maxLen);
      }
    }
  }

  lemma BuiltThen(fs: seq<Fragment>, junk: seq<byte>)
    requires fs != [] && forall f | f in fs :: Sound(f)
    ensures Built(fs) + junk != [] && ParseFragment(Built(fs) + junk) == Some((fs[0], Built(fs[1..]) + junk))
  {
    hide ParseFragment, PutHeader;
    assert fs[0] in fs && Sound(fs[0]);
    ParseBuilt(fs[0], Built(fs[1..]) + junk);
    assert Built(fs) + junk == PutHeader(fs[0].hdr) + fs[0].body + (Built(fs[1..]) + junk);
  }

  // ---------- what has arrived of a message ----------

  // The positions of message q that the fragments carry.
  function Arrived(fs: seq<Fragment>, q: nat): set<nat> {
    if fs == [] then {}
    else
      var last := fs[|fs| - 1];
      Arrived(fs[..|fs| - 1], q)
      + if last.hdr.seqNo == q then Span(last.hdr.fragOff, last.hdr.fragOff + last.hdr.fragLen) else {}
  }

  predicate Mentions(fs: seq<Fragment>, q: nat) {
    exists f | f in fs :: f.hdr.seqNo == q
  }

  // The positions of message q that are in its slot.
  function Got(r: Ring, q: nat): set<nat>
    requires |r.slots| == FLIGHT
  {
    var slot := r.slots[q % FLIGHT];
    if slot.Some? && slot.value.seqNo == q then slot.value.got else {}
  }

  predicate Begun(r: Ring, q: nat)
    requires |r.slots| == FLIGHT
  {
    r.slots[q % FLIGHT].Some? && r.slots[q % FLIGHT].value.seqNo == q
  }

  // A fragment of one of the messages ms that a receiver at readSeq has no reason to refuse: it is
  // not too long, not exactly seven ahead, and in the encrypted epoch the next message.
  predicate Welcome(r: Ring, f: Fragment, maxLen: nat, ms: seq<Sent>) {
    && Sound(f) && Slice(f, ms) && f.hdr.msgLen <= maxLen
    && f.hdr.seqNo != r.readSeq + FLIGHT && (r.epoch == 1 ==> f.hdr.seqNo == r.readSeq)
  }

  // One such fragment: no alert, and its message has what it had and what the fragment brings.
  lemma AcceptBrings(r: Ring, f: Fragment, maxLen: nat, ms: seq<Sent>, q: nat)
    requires Faithful(r, ms) && Welcome(r, f, maxLen, ms) && r.readSeq <= q < r.readSeq + FLIGHT
    ensures var (r', alert) := Accept(r, f, maxLen);
            && alert == None && Faithful(r', ms) && r'.epoch == r.epoch
            && Got(r', q) == Got(r, q) + (if f.hdr.seqNo == q then Span(f.hdr.fragOff, f.hdr.fragOff + f.hdr.fragLen) else {})
            && (Begun(r', q) <==> Begun(r, q) || f.hdr.seqNo == q)
  {
    hide PartOf, Assemble;
    AcceptFaithful(r, f, maxLen, ms);
    AcceptRing(r, f, maxLen);
    var s := f.hdr.seqNo;
    if r.readSeq <= s < r.readSeq + FLIGHT {
      AssemblePart(r.slots[s % FLIGHT], f, ms);
      AssembleGot(r.slots[s % FLIGHT], f, ms);
      if s != q && s % FLIGHT == q % FLIGHT {
        SameResidue(s, q, r.readSeq);
      }
    }
  }

  lemma {:induction false} AcceptAllBrings(r: Ring, fs: seq<Fragment>, maxLen: nat, ms: seq<Sent>, q: nat)
    requires Faithful(r, ms) && r.readSeq <= q < r.readSeq + FLIGHT
    requires forall f | f in fs :: Sound(f) && Welcome(r, f, maxLen, ms)
    ensures var (r', alert) := AcceptAll(r, fs, maxLen);
            && alert == None && Faithful(r', ms) && r'.epoch == r.epoch
            && Got(r', q) == Got(r, q) + Arrived(fs, q) && (Begun(r', q) <==> Begun(r, q) || Mentions(fs, q))
    decreases |fs|
  {
    hide Faithful, Accept, Slice, Got, Begun;
    FaithfulShape(r, ms);
    if fs == [] {
      assert Got(r, q) + {} == Got(r, q);
    } else {
      var n := |fs| - 1;
      var before := fs[..n];
      assert forall f | f in before :: f in fs;
      AcceptAllBrings(r, before, maxLen, ms, q);
      assert fs[n] in fs;
      AcceptBrings(AcceptAll(r, before, maxLen).0, fs[n], maxLen, ms, q);
      assert Mentions(fs, q) <==> Mentions(before, q) || fs[n].hdr.seqNo == q by { MentionsSnoc(fs, q); }
    }
  }

  lemma MentionsSnoc(fs: seq<Fragment>, q: nat)
    requires fs != []
    ensures Mentions(fs, q) <==> Mentions(fs[..|fs| - 1], q) || fs[|fs| - 1].hdr.seqNo == q
  {
    assert fs == fs[..|fs| - 1] + [fs[|fs| - 1]];
  }

  // ---------- several records ----------

  // The ring after a run of events.
  function After(r: Ring, run: seq<Event>, maxLen: nat): (r': Ring)
    requires |r.slots| == FLIGHT
    ensures |r'.slots| == FLIGHT
    decreases |run|
  {
    if run == [] then r else After(StepRing(r, run[0], maxLen), run[1..], maxLen)
  }

  predicate AllSound(recs: seq<seq<Fragment>>) {
    forall fs: seq<Fragment>, f | fs in recs && f in fs :: Sound(f)
  }

  // The records arrive one after the other.
  function Arrivals(recs: seq<seq<Fragment>>): seq<Event>
    requires AllSound(recs)
  {
    if recs == [] then []
    else
      assert recs[0] in recs && forall f | f in recs[0] :: Sound(f);
      [RecordArrives(Built(recs[0]))] + Arrivals(recs[1..])
  }

  function Flat(recs: seq<seq<Fragment>>): seq<Fragment> {
    if recs == [] then [] else recs[0] + Flat(recs[1..])
  }

  lemma {:induction false} FlatSound(recs: seq<seq<Fragment>>)
    requires AllSound(recs)
    ensures forall f | f in Flat(recs) :: Sound(f)
  {
    hide Sound;
    if recs != [] {
      assert recs[0] in recs;
      assert forall fs | fs in recs[1..] :: fs in recs;
      FlatSound(recs[1..]);
    }
  }

  lemma {:induction false} AcceptAllAppend(r: Ring, a: seq<Fragment>, b: seq<Fragment>, maxLen: nat)
    requires |r.slots| == FLIGHT && (forall f | f in a :: Sound(f)) && (forall f | f in b :: Sound(f))
    ensures var x := AcceptAll(r, a, maxLen);
            AcceptAll(r, a + b, maxLen) == if x.1.Some? then x else AcceptAll(x.0, b, maxLen)
    decreases |b|
  {
    hide Accept, Sound;
    if b == [] {
      assert a + b == a;
    } else {
      var n := |b| - 1;
      assert (a + b)[..|a + b| - 1] == a + b[..n] && (a + b)[|a + b| - 1] == b[n];
      AcceptAllAppend(r, a, b[..n], maxLen);
    }
  }

  // How the fragments are divided into records does not matter.
  lemma {:induction false} RecordsAreFold(r: Ring, recs: seq<seq<Fragment>>, maxLen: nat)
    requires |r.slots| == FLIGHT && AllSound(recs) && forall f | f in Flat(recs) :: Sound(f)
    requires AcceptAll(r, Flat(recs), maxLen).1.None?
    ensures After(r, Arrivals(recs), maxLen) == AcceptAll(r, Flat(recs), maxLen).0
    decreases |recs|
  {
    hide Accept, Sound, Process;
    if recs != [] {
      var fs := recs[0];
      assert fs in recs;
      FlatSound(recs[1..]);
      AcceptAllAppend(r, fs, Flat(recs[1..]), maxLen);
      ProcessIsFold(r, fs, maxLen);
      var run := Arrivals(recs);
      assert run[0] == RecordArrives(Built(fs)) && run[1..] == Arrivals(recs[1..]);
      RecordsAreFold(AcceptAll(r, fs, maxLen).0, recs[1..], maxLen);
    }
  }

  // ---------- the theorem ----------

  lemma CurrentIff(r: Ring, ms: seq<Sent>)
    requires Faithful(r, ms) && r.readSeq < |ms|
    ensures Current(r).Some? <==> Begun(r, r.readSeq) && Got(r, r.readSeq) == Span(0, |ms[r.readSeq].body|)
    ensures Current(r).Some? ==> Current(r).value.typ == ms[r.readSeq].typ && Current(r).value.data == ms[r.readSeq].body
  {
    var slot := r.slots[r.readSeq % FLIGHT];
    if slot.Some? {
      SameResidue(slot.value.seqNo, r.readSeq, r.readSeq);
      if Complete(slot.value) {
        CompleteIsMessage(slot.value, ms[r.readSeq]);
      }
    }
  }

  // When fragments of the sender's messages arrive, in any records, order and number, the next
  // message can be taken if and only if some fragment of it is in, and all of its positions are.
  lemma CoverageDelivers(r: Ring, recs: seq<seq<Fragment>>, maxLen: nat, ms: seq<Sent>)
    requires Faithful(r, ms) && r.readSeq < |ms| && AllSound(recs)
    requires forall f | f in Flat(recs) :: Welcome(r, f, maxLen, ms)
    ensures var r' := After(r, Arrivals(recs), maxLen);
            && Faithful(r', ms) && r'.readSeq == r.readSeq
            && (Current(r').Some? <==>
                  (Begun(r, r.readSeq) || Mentions(Flat(recs), r.readSeq))
                  && Got(r, r.readSeq) + Arrived(Flat(recs), r.readSeq) == Span(0, |ms[r.readSeq].body|))
            && (Current(r').Some? ==> Current(r').value.typ == ms[r.readSeq].typ && Current(r').value.data == ms[r.readSeq].body)
  {
    hide Faithful, Current, AcceptAll, Arrivals, Flat, After, Begun, Got, Mentions, Arrived, Welcome, Sound, Slice;
    FlatSound(recs);
    var q := r.readSeq;
    FaithfulShape(r, ms);
    AcceptAllBrings(r, Flat(recs), maxLen, ms, q);
    RecordsAreFold(r, recs, maxLen);
    CurrentIff(AcceptAll(r, Flat(recs), maxLen).0, ms);
  }

  // ---------- a whole flight ----------

  // Every message from lo to hi is in its slot, whole.
  predicate AllIn(r: Ring, ms: seq<Sent>, lo: nat, hi: nat)
    requires |r.slots| == FLIGHT && hi <= |ms|
  {
    forall q: nat | lo <= q < hi :: Begun(r, q) && Got(r, q) == Span(0, |ms[q].body|)
  }

  function Takes(n: nat): seq<Event> {
    if n == 0 then [] else [TakeMessage] + Takes(n - 1)
  }

  lemma TakeKeeps(r: Ring, ms: seq<Sent>, hi: nat)
    requires RingOk(r) && r.readSeq < hi <= |ms| < U16 && hi <= r.readSeq + FLIGHT && AllIn(r, ms, r.readSeq, hi)
    ensures AllIn(Advance(r), ms, r.readSeq + 1, hi)
  {
    forall q: nat | r.readSeq + 1 <= q < hi
      ensures Begun(Advance(r), q) && Got(Advance(r), q) == Span(0, |ms[q].body|)
    {
      assert Begun(r, q) && Got(r, q) == Span(0, |ms[q].body|);
      if q % FLIGHT == r.readSeq % FLIGHT {
        SameResidue(q, r.readSeq, r.readSeq);
      }
    }
  }

  // Messages that are in can all be taken, one after the other.
  lemma {:induction false} TakesAll(r: Ring, maxLen: nat, ms: seq<Sent>, hi: nat)
    requires Faithful(r, ms) && |ms| < U16 && r.readSeq <= hi <= |ms| && hi <= r.readSeq + FLIGHT
    requires AllIn(r, ms, r.readSeq, hi)
    ensures |Delivered(r, Takes(hi - r.readSeq), maxLen)| == hi - r.readSeq
    ensures Follows(Delivered(r, Takes(hi - r.readSeq), maxLen), ms, r.readSeq)
    decreases hi - r.readSeq
  {
    hide Faithful, Current, Advance, AllIn, RingOk;
    FaithfulShape(r, ms);
    var run := Takes(hi - r.readSeq);
    if r.readSeq < hi {
      CurrentIn(r, ms, hi);
      TakeFaithful(r, ms);
      TakeKeeps(r, ms, hi);
      TakesAll(Advance(r), maxLen, ms, hi);
      assert run[0] == TakeMessage && run[1..] == Takes(hi - r.readSeq - 1);
      FollowsCons(Current(r).value, Delivered(Advance(r), run[1..], maxLen), ms, r.readSeq);
    }
  }

  lemma CurrentIn(r: Ring, ms: seq<Sent>, hi: nat)
    requires Faithful(r, ms) && r.readSeq < hi <= |ms| && AllIn(r, ms, r.readSeq, hi)
    ensures Current(r).Some?
  {
    CurrentIff(r, ms);
  }

  lemma {:induction false} DeliveredAppend(r: Ring, a: seq<Event>, b: seq<Event>, maxLen: nat)
    requires |r.slots| == FLIGHT
    ensures Delivered(r, a + b, maxLen) == Delivered(r, a, maxLen) + Delivered(After(r, a, maxLen), b, maxLen)
    decreases |a|
  {
    hide StepRing, Current;
    if a == [] {
      assert a + b == b;
    } else {
      assert (a + b)[1..] == a[1..] + b;
      DeliveredAppend(StepRing(r, a[0], maxLen), a[1..], b, maxLen);
    }
  }

  lemma {:induction false} ArrivalsDeliverNothing(r: Ring, recs: seq<seq<Fragment>>, maxLen: nat)
    requires |r.slots| == FLIGHT && AllSound(recs)
    ensures Delivered(r, Arrivals(recs), maxLen) == []
    decreases |recs|
  {
    hide Process, Sound, Current;
    if recs != [] {
      var run := Arrivals(recs);
      assert recs[0] in recs;
      assert run[0].RecordArrives? && run[1..] == Arrivals(recs[1..]);
      ArrivalsDeliverNothing(StepRing(r, run[0], maxLen), recs[1..], maxLen);
    }
  }

  // A whole flight of up to seven messages is delivered once its fragments are in, in any records,
  // order and number.
  lemma FlightDelivered(r: Ring, recs: seq<seq<Fragment>>, maxLen: nat, ms: seq<Sent>, hi: nat)
    requires Faithful(r, ms) && |ms| < U16 && r.readSeq <= hi <= |ms| && hi <= r.readSeq + FLIGHT && AllSound(recs)
    requires forall f | f in Flat(recs) :: Welcome(r, f, maxLen, ms)
    requires forall q: nat | r.readSeq <= q < hi ::
               Mentions(Flat(recs), q) && Arrived(Flat(recs), q) == Span(0, |ms[q].body|)
    ensures var d := Delivered(r, Arrivals(recs) + Takes(hi - r.readSeq), maxLen);
            |d| == hi - r.readSeq && Follows(d, ms, r.readSeq)
  {
    hide Faithful, Delivered, AcceptAll, Arrivals, Flat, After, Welcome, Sound, Slice, Follows, Takes, Span, Arrived, Mentions;
    FlatSound(recs);
    FaithfulShape(r, ms);
    var fs := Flat(recs);
    AcceptAllBrings(r, fs, maxLen, ms, r.readSeq);
    RecordsAreFold(r, recs, maxLen);
    var r' := After(r, Arrivals(recs), maxLen);
    forall q: nat | r.readSeq <= q < hi
      ensures Begun(r', q) && Got(r', q) == Span(0, |ms[q].body|)
    {
      AcceptAllBrings(r, fs, maxLen, ms, q);
      GotInside(r, ms, q);
      assert Got(r, q) + Span(0, |ms[q].body|) == Span(0, |ms[q].body|);
    }
    TakesAll(r', maxLen, ms, hi);
    DeliveredAppend(r, Arrivals(recs), Takes(hi - r.readSeq), maxLen);
    ArrivalsDeliverNothing(r, recs, maxLen);
    var taken := Delivered(r', Takes(hi - r.readSeq), maxLen);
    assert [] + taken == taken;
  }

  lemma GotInside(r: Ring, ms: seq<Sent>, q: nat)
    requires Faithful(r, ms) && q < |ms|
    ensures |r.slots| == FLIGHT && Got(r, q) <= Span(0, |ms[q].body|)
  {
  }
}
