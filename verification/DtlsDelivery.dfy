// Sender, lossy network and receiver together.
module DtlsDelivery {
  import opened Bits
  import opened Results
  import opened DtlsFragment
  import opened DtlsReceiver
  import opened DtlsSender

  // queued lists every handshake message ever added, by number; flight is the current flight;
  // wire holds the plaintext of every handshake record that was ever sealed.
  datatype Net = Net(queued: seq<Sent>, flight: seq<Outgoing>, wire: set<seq<byte>>, ring: Ring, delivered: seq<Partial>)

  datatype Action =
    | NewFlight                            // the peer's flight arrived: the old one is dropped
    | Queue(typ: byte, body: seq<byte>, epoch: nat)
    | QueueCcs(epoch: nat)
    | Transmit(s: Sender, limit: nat)      // one packet, from any position, by any keys
    | Arrive(plain: seq<byte>)             // any record ever sent, again and in any order, or never
    | Take
    | SetEpoch(epoch: nat)

  predicate Enabled(n: Net, a: Action) {
    match a
    case Queue(typ, body, epoch) => |body| < U24 && |n.queued| + 1 < U16
    case Transmit(s, limit) => s.flight == n.flight && s.written <= |s.flight|
    case Arrive(plain) => plain in n.wire
    case _ => |n.ring.slots| == FLIGHT
  }

  function Plains(flight: seq<Outgoing>, ps: seq<Piece>): set<seq<byte>> {
    set p | p in ps && p.idx < |flight| && !flight[p.idx].isCcs :: p.plain
  }

  function Step(n: Net, a: Action, maxLen: nat): Net
    requires Enabled(n, a) && |n.ring.slots| == FLIGHT
  {
    match a
    case NewFlight => n.(flight := [])
    case Queue(typ, body, epoch) =>
      n.(queued := n.queued + [Sent(typ, body)], flight := n.flight + [Outgoing(Raw(typ, |n.queued|, body), epoch, false)])
    case QueueCcs(epoch) => n.(flight := n.flight + [Outgoing([], epoch, true)])
    case Transmit(s, limit) => n.(wire := n.wire + Plains(s.flight, SealPacket(s, limit).0))
    case Arrive(plain) => n.(ring := Process(n.ring, plain, maxLen).0)
    case Take =>
      if Current(n.ring).Some? then n.(ring := Advance(n.ring), delivered := n.delivered + [Current(n.ring).value]) else n
    case SetEpoch(epoch) => n.(ring := n.ring.(epoch := epoch))
  }

  // An outgoing handshake message is one of the queued ones, with its number.
  ghost predicate IsQueued(m: Outgoing, ms: seq<Sent>) {
    m.isCcs || exists q: nat :: q < |ms| && q < U16 && |ms[q].body| < U24 && m.data == Raw(ms[q].typ, q, ms[q].body)
  }

  ghost predicate NetOk(n: Net) {
    && |n.queued| < U16
    && (forall m | m in n.flight :: IsQueued(m, n.queued))
    && (forall plain | plain in n.wire :: SliceRecord(plain, n.queued))
    && Faithful(n.ring, n.queued)
    && |n.delivered| == n.ring.readSeq && Follows(n.delivered, n.queued, 0)
  }

  // ---------- more messages change nothing about the old ones ----------

  lemma SliceGrows(f: Fragment, ms: seq<Sent>, m: Sent)
    requires Slice(f, ms)
    ensures Slice(f, ms + [m])
  {
  }

  lemma {:induction false} RecordGrows(s: seq<byte>, ms: seq<Sent>, m: Sent)
    requires SliceRecord(s, ms)
    ensures SliceRecord(s, ms + [m])
    decreases |s|
  {
    hide Slice, ParseFragment;
    if s != [] && ParseFragment(s).Some? {
      var (f, rest) := ParseFragment(s).value;
      SliceGrows(f, ms, m);
      RecordGrows(rest, ms, m);
    }
  }

  lemma FaithfulGrows(r: Ring, ms: seq<Sent>, m: Sent)
    requires Faithful(r, ms)
    ensures Faithful(r, ms + [m])
  {
    hide PartOf;
  }

  lemma QueuedGrows(o: Outgoing, ms: seq<Sent>, m: Sent)
    requires IsQueued(o, ms)
    ensures IsQueued(o, ms + [m])
  {
    hide PutHeader;
    if !o.isCcs {
      var q: nat :| q < |ms| && q < U16 && |ms[q].body| < U24 && o.data == Raw(ms[q].typ, q, ms[q].body);
      assert (ms + [m])[q] == ms[q];
    }
  }

  lemma FollowsGrows(d: seq<Partial>, ms: seq<Sent>, m: Sent)
    requires Follows(d, ms, 0)
    ensures Follows(d, ms + [m], 0)
  {
  }

  // ---------- what the sender seals are slices ----------

  lemma FragmentIsSlice(m: Outgoing, ms: seq<Sent>, off: nat, len: nat)
    requires IsQueued(m, ms) && !m.isCcs && Whole(m.data).Some? && off + len <= |Whole(m.data).value.body|
    ensures SliceRecord(FragmentOf(Whole(m.data).value, off, len), ms)
  {
    hide ParseFragment, PutHeader, Raw;
    var q: nat :| q < |ms| && q < U16 && |ms[q].body| < U24 && m.data == Raw(ms[q].typ, q, ms[q].body);
    RawIsWhole(ms[q].typ, q, ms[q].body);
    var f := Whole(m.data).value;
    var g := Fragment(f.hdr.(fragOff := off, fragLen := len), f.body[off..off + len]);
    ParseBuilt(g, []);
    var plain := FragmentOf(f, off, len);
    assert plain == PutHeader(g.hdr) + g.body + [];
    assert Slice(g, ms);
    assert SliceRecord([], ms);
  }

  lemma SealedIsSlice(s: Sender, limit: nat, ms: seq<Sent>)
    requires s.written < |s.flight| && SealMessage(s, limit).Written? && IsQueued(s.flight[s.written], ms)
    ensures var p := SealMessage(s, limit).piece;
            p.idx == s.written && (!s.flight[p.idx].isCcs ==> SliceRecord(p.plain, ms))
  {
    hide ParseFragment, PutHeader, Seal, IsQueued, SliceRecord, FragmentOf;
    var p := SealMessage(s, limit).piece;
    var m := s.flight[s.written];
    if !m.isCcs {
      FragmentIsSlice(m, ms, p.off, p.len);
    }
  }

  lemma {:induction false} PacketSlices(s: Sender, limit: nat, ms: seq<Sent>)
    requires s.written <= |s.flight| && forall m | m in s.flight :: IsQueued(m, ms)
    ensures forall p | p in SealPacket(s, limit).0 && p.idx < |s.flight| && !s.flight[p.idx].isCcs :: SliceRecord(p.plain, ms)
    decreases |s.flight| - s.written
  {
    hide IsQueued, SliceRecord, SealMessage;
    if s.written < |s.flight| && SealMessage(s, limit).Written? {
      SealedIsSlice(s, limit, ms);
      PieceFits(s, limit);
      var w := SealMessage(s, limit);
      if w.last {
        PacketSlices(Moved(s, w.piece, w.keys, true), limit - w.piece.sealedLen, ms);
      }
    }
  }

  // ---------- every step, every run ----------

  lemma QueueOk(n: Net, a: Action, maxLen: nat)
    requires NetOk(n) && a.Queue? && Enabled(n, a)
    ensures NetOk(Step(n, a, maxLen))
  {
    hide Faithful, SliceRecord, Raw, Follows, IsQueued;
    var m := Sent(a.typ, a.body);
    var o := Outgoing(Raw(a.typ, |n.queued|, a.body), a.epoch, false);
    FaithfulGrows(n.ring, n.queued, m);
    FollowsGrows(n.delivered, n.queued, m);
    forall x | x in n.flight
      ensures IsQueued(x, n.queued + [m])
    {
      QueuedGrows(x, n.queued, m);
    }
    forall plain | plain in n.wire
      ensures SliceRecord(plain, n.queued + [m])
    {
      RecordGrows(plain, n.queued, m);
    }
    NewIsQueued(n.queued, m, a.epoch);
  }

  lemma NewIsQueued(ms: seq<Sent>, m: Sent, epoch: nat)
    requires |ms| < U16 && |m.body| < U24
    ensures IsQueued(Outgoing(Raw(m.typ, |ms|, m.body), epoch, false), ms + [m])
  {
    hide Raw;
    assert (ms + [m])[|ms|] == m;
  }

  lemma StepOk(n: Net, a: Action, maxLen: nat)
    requires NetOk(n) && Enabled(n, a) && |n.ring.slots| == FLIGHT
    ensures NetOk(Step(n, a, maxLen)) && |Step(n, a, maxLen).ring.slots| == FLIGHT
  {
    hide Faithful, SliceRecord, Raw, Follows, Process, Current, Advance, IsQueued, SealPacket;
    match a
    case Queue(_, _, _) => QueueOk(n, a, maxLen);
    case NewFlight =>
    case QueueCcs(epoch) => CcsIsQueued(epoch, n.queued);
    case Transmit(s, limit) => PacketSlices(s, limit, n.queued);
    case Arrive(plain) => ProcessFaithful(n.ring, plain, maxLen, n.queued);
    case Take =>
      if Current(n.ring).Some? {
        TakeFaithful(n.ring, n.queued);
        FollowsNext(n.delivered, n.queued, Current(n.ring).value);
      }
    case SetEpoch(epoch) => EpochFaithful(n.ring, epoch, n.queued);
  }

  lemma CcsIsQueued(epoch: nat, ms: seq<Sent>)
    ensures IsQueued(Outgoing([], epoch, true), ms)
  {
  }

  lemma FollowsNext(d: seq<Partial>, ms: seq<Sent>, p: Partial)
    requires Follows(d, ms, 0) && |d| < |ms|
    requires p.typ == ms[|d|].typ && p.seqNo == |d| && p.data == ms[|d|].body
    ensures Follows(d + [p], ms, 0)
  {
  }

  const START: Net := Net([], [], {}, EMPTY, [])

  predicate Runs(n: Net, run: seq<Action>, maxLen: nat)
    decreases |run|
  {
    |n.ring.slots| == FLIGHT
    && (run == [] || (Enabled(n, run[0]) && Runs(Step(n, run[0], maxLen), run[1..], maxLen)))
  }

  function End(n: Net, run: seq<Action>, maxLen: nat): Net
    requires Runs(n, run, maxLen)
    decreases |run|
  {
    if run == [] then n else End(Step(n, run[0], maxLen), run[1..], maxLen)
  }

  lemma {:induction false} RunKeeps(n: Net, run: seq<Action>, maxLen: nat)
    requires NetOk(n) && Runs(n, run, maxLen)
    ensures NetOk(End(n, run, maxLen))
    decreases |run|
  {
    if run != [] {
      hide NetOk, Step, Enabled;
      StepOk(n, run[0], maxLen);
      RunKeeps(Step(n, run[0], maxLen), run[1..], maxLen);
    }
  }

  // In every run, whatever is lost, duplicated, reordered, resent or cut differently, the messages
  // handed to the receiver's handshake are a prefix of those that the sender queued.
  lemma DeliveredIsPrefix(run: seq<Action>, maxLen: nat)
    requires Runs(START, run, maxLen)
    ensures var n := End(START, run, maxLen);
            && |n.delivered| <= |n.queued|
            && forall j | 0 <= j < |n.delivered| ::
                 n.delivered[j].typ == n.queued[j].typ && n.delivered[j].data == n.queued[j].body
  {
    hide Runs, End, Faithful, SliceRecord, IsQueued;
    EmptyFaithful([]);
    assert NetOk(START);
    RunKeeps(START, run, maxLen);
  }
}
