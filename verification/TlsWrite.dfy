// The write path of TLS: records queued in the pending flight or sealed into the write buffer, and
// handed to a transport that may accept any part of what it is offered, or fail.
module TlsWrite {
  import opened Bits
  import opened Results
  import opened TlsBuffer

  const MAX_PLAIN: nat := 16384
  const INT_LIMIT: nat := 0x7FFF_FFFF
  const CCS: nat := 20
  const HANDSHAKE: nat := 22
  const APP_DATA: nat := 23
  const CCS_BODY: seq<byte> := [1]

  // A record as it was sealed: its type, its plaintext and the bytes that go on the wire.
  datatype Record = Record(kind: nat, plain: seq<byte>, bytes: seq<byte>)

  // The bytes of a log of records, in the order of sealing.
  function Wire(log: seq<Record>): seq<byte> {
    if log == [] then [] else Wire(log[..|log| - 1]) + log[|log| - 1].bytes
  }

  // The plaintext of the records of one type.
  function Plain(log: seq<Record>, kind: nat): seq<byte> {
    if log == [] then []
    else
      var last := log[|log| - 1];
      Plain(log[..|log| - 1], kind) + (if last.kind == kind then last.plain else [])
  }

  lemma LogGrows(log: seq<Record>, r: Record, kind: nat)
    ensures Wire(log + [r]) == Wire(log) + r.bytes
    ensures Plain(log + [r], kind) == Plain(log, kind) + (if r.kind == kind then r.plain else [])
  {
    assert (log + [r])[..|log|] == log;
  }

  // A log grew by records of one type, none longer than a limit.
  ghost predicate Grown(was: seq<Record>, log: seq<Record>, kind: nat, limit: nat) {
    && |was| <= |log| && log[..|was|] == was
    && forall i :: |was| <= i < |log| ==> log[i].kind == kind && |log[i].plain| <= limit
  }

  // Between two logs exactly the bytes of the data from one mark to another were sealed.
  ghost predicate Advanced(was: seq<Record>, log: seq<Record>, data: seq<byte>, from: nat, to: nat) {
    && from <= to
    && if to <= |data| then Plain(log, APP_DATA) == Plain(was, APP_DATA) + data[from..to]
       else from == to && Plain(log, APP_DATA) == Plain(was, APP_DATA)
  }

  // A flight grew by exactly the bytes of the records by which a log grew.
  ghost predicate Queued(was: seq<Record>, before: seq<byte>, log: seq<Record>, flight: seq<byte>) {
    Wire(was) <= Wire(log) && flight == before + Wire(log)[|Wire(was)|..]
  }

  // The records after the first from are of one type and hold the first n of the chunks.
  ghost predicate Holds(log: seq<Record>, from: nat, kind: nat, chunks: seq<seq<byte>>, n: nat) {
    && n <= |chunks| && |log| == from + n
    && forall i :: from <= i < from + n ==> log[i].kind == kind && log[i].plain == chunks[i - from]
  }

  // A message cut after every limit bytes; an empty message is one empty chunk.
  function Chunks(data: seq<byte>, limit: nat): (c: seq<seq<byte>>)
    requires limit > 0
    ensures |c| > 0
    decreases |data|
  {
    if |data| <= limit then [data] else [data[..limit]] + Chunks(data[limit..], limit)
  }

  function Joined(chunks: seq<seq<byte>>): seq<byte> {
    if chunks == [] then [] else chunks[0] + Joined(chunks[1..])
  }

  ghost predicate AllButLastFull(chunks: seq<seq<byte>>, limit: nat) {
    forall i :: 0 <= i < |chunks| ==> if i < |chunks| - 1 then |chunks[i]| == limit else |chunks[i]| <= limit
  }

  // The chunks are the message again; all but the last are full, and only an empty message has an
  // empty chunk.
  lemma {:induction false} ChunksTile(data: seq<byte>, limit: nat)
    requires limit > 0
    ensures Joined(Chunks(data, limit)) == data
    ensures AllButLastFull(Chunks(data, limit), limit)
    ensures Chunks(data, limit)[|Chunks(data, limit)| - 1] == [] ==> data == []
    decreases |data|
  {
    if |data| <= limit {
      assert Chunks(data, limit) == [data];
      assert Joined([data]) == data + Joined([]) == data;
    } else {
      var rest := Chunks(data[limit..], limit);
      ChunksTile(data[limit..], limit);
      var c := [data[..limit]] + rest;
      assert Chunks(data, limit) == c;
      forall i | 0 <= i < |c|
        ensures if i < |c| - 1 then |c[i]| == limit else |c[i]| <= limit
      {
        if i > 0 {
          assert c[i] == rest[i - 1];
        }
      }
      assert c[|c| - 1] == rest[|rest| - 1];
      assert ([data[..limit]] + rest)[1..] == rest;
      assert data[..limit] + data[limit..] == data;
    }
  }

  lemma NoneHeld(log: seq<Record>, kind: nat, chunks: seq<seq<byte>>)
    ensures Holds(log, |log|, kind, chunks, 0) && log[..|log|] == log && chunks[0..] == chunks
  {
  }

  // One more record.
  lemma HoldsNext(was: seq<Record>, log: seq<Record>, from: nat, kind: nat, chunks: seq<seq<byte>>, n: nat)
    requires Holds(was, from, kind, chunks, n) && n < |chunks|
    requires |log| == |was| + 1 && log[..|was|] == was
    requires log[|was|].kind == kind && log[|was|].plain == chunks[n]
    ensures Holds(log, from, kind, chunks, n + 1) && log[..from] == was[..from]
  {
    forall i | from <= i < from + n
      ensures log[i] == was[i]
    {
      assert log[..|was|][i] == log[i];
    }
    assert log[..from] == log[..|was|][..from];
  }

  // The first chunk of what is left.
  lemma NextChunk(chunks: seq<seq<byte>>, n: nat, rest: seq<byte>, limit: nat)
    requires limit > 0 && n <= |chunks| && chunks[n..] == Chunks(rest, limit)
    ensures n < |chunks|
    ensures var len := if |rest| < limit then |rest| else limit;
            && chunks[n] == rest[..len]
            && chunks[n + 1..] == if rest[len..] == [] then [] else Chunks(rest[len..], limit)
  {
    assert chunks[n] == chunks[n..][0];
    assert chunks[n + 1..] == chunks[n..][1..];
  }

  // Records that hold the first n chunks add exactly their bytes to the plaintext.
  lemma {:induction false} HoldsPlain(log: seq<Record>, from: nat, kind: nat, chunks: seq<seq<byte>>, n: nat)
    requires from <= |log| && Holds(log, from, kind, chunks, n)
    ensures Plain(log, kind) == Plain(log[..from], kind) + Joined(chunks[..n])
    decreases n
  {
    if n == 0 {
      assert log[..from] == log;
    } else {
      var short := log[..|log| - 1];
      assert Holds(short, from, kind, chunks, n - 1);
      HoldsPlain(short, from, kind, chunks, n - 1);
      assert short[..from] == log[..from];
      assert log[|log| - 1] == log[from + (n - 1)];
      JoinedSnoc(chunks[..n - 1], chunks[n - 1]);
      assert chunks[..n - 1] + [chunks[n - 1]] == chunks[..n];
    }
  }

  lemma {:induction false} JoinedSnoc(chunks: seq<seq<byte>>, c: seq<byte>)
    ensures Joined(chunks + [c]) == Joined(chunks) + c
    decreases |chunks|
  {
    if chunks == [] {
      assert ([] + [c])[1..] == [];
      assert Joined([]) == [];
    } else {
      JoinedSnoc(chunks[1..], c);
      assert (chunks + [c])[1..] == chunks[1..] + [c];
    }
  }

  class Transport {
    // What BIO_write and BIO_flush answer, call by call: how much is accepted, or a failure.
    const script: nat -> int
    var calls: nat
    var accepted: seq<byte>

    constructor (script: nat -> int)
      ensures accepted == [] && calls == 0 && this.script == script
    {
      this.script := script;
      calls := 0;
      accepted := [];
    }

    method Write(data: seq<byte>) returns (ret: int)
      modifies this
      ensures calls == old(calls) + 1 && ret == (if script(old(calls)) > |data| then |data| else script(old(calls)))
      ensures ret <= 0 ==> accepted == old(accepted)
      ensures ret > 0 ==> ret <= |data| && accepted == old(accepted) + data[..ret]
    {
      ret := script(calls);
      calls := calls + 1;
      if ret > |data| {
        ret := |data|;
      }
      if ret > 0 {
        accepted := accepted + data[..ret];
      }
    }

    method Flush() returns (ret: int)
      modifies this
      ensures accepted == old(accepted) && calls == old(calls) + 1 && ret == script(old(calls))
    {
      ret := script(calls);
      calls := calls + 1;
    }
  }

  datatype Pending = Idle | Pending(tot: nat, addr: nat, kind: nat, ret: nat)

  // What may happen on the write side, in any order.
  datatype Event = Message(msg: seq<byte>) | ChangeCipherSpec | Flush | Write(data: seq<byte>, addr: nat)

  class WriteSide {
    const bio: Transport
    const wbuf: SSLBuffer
    const maxFragment: nat
    const overhead: nat
    const alignPrefix: nat
    const partialWrites: bool
    const movingBuffer: bool
    // The record protection, by the number of the call, and the addresses malloc returns.
    const seal: (nat, nat, seq<byte>) -> Option<seq<byte>>
    const malloc: nat -> nat
    var seals: nat
    var shutdown: bool
    var flight: Option<seq<byte>>
    var flightOffset: nat
    var pending: Pending
    var wnum: nat
    // Every record sealed so far.
    ghost var log: seq<Record>

    ghost predicate Valid()
      reads this`flight, this`flightOffset, this`pending, wbuf
    {
      && wbuf.Valid()
      && 512 <= maxFragment <= MAX_PLAIN && maxFragment + overhead + ALIGN - 1 < U16
      && SealBounded()
      && (flight.Some? ==> flightOffset <= |flight.value|) && (flight.None? ==> flightOffset == 0)
      && (pending.Pending? ==> pending.ret == pending.tot > 0)
    }

    // No record is longer than its plaintext and the overhead.
    ghost predicate SealBounded() {
      forall n: nat, kind: nat, plain: seq<byte> ::
        seal(n, kind, plain).Some? ==> |seal(n, kind, plain).value| <= |plain| + overhead
    }

    // The part of the pending flight that has not been written.
    ghost function Tail(): seq<byte>
      requires Valid()
      reads this`flight, this`flightOffset, this`pending, wbuf
    {
      if flight.None? then [] else flight.value[flightOffset..]
    }

    // Everything sealed is on the wire, in the write buffer or in the pending flight, in that
    // order and exactly once.
    ghost predicate Conserved()
      requires Valid()
      reads this`flight, this`flightOffset, this`pending, this`log, wbuf, wbuf.buf, bio
    {
      wbuf.Fits() && bio.accepted + wbuf.Data() + Tail() == Wire(log)
    }

    // The same with the last record still to be stored.
    ghost predicate Owes(record: seq<byte>)
      requires Valid()
      reads this`flight, this`flightOffset, this`pending, this`log, wbuf, wbuf.buf, bio
    {
      wbuf.Fits() && bio.accepted + wbuf.Data() + Tail() + record == Wire(log)
    }

    // The write buffer for the unwritten flight and a record of n bytes is refused, or leaves room
    // for any alignment up to 65536.
    predicate Roomy(n: int)
      reads this`flight, this`flightOffset
    {
      Needed(n) >= U16 || Needed(n) + ALIGN - 1 <= U16
    }

    // The capacity for them.
    function Needed(n: int): int
      reads this`flight, this`flightOffset
    {
      (if flight.None? then 0 else |flight.value| - flightOffset) + n + overhead
    }

    // The body behind a flight of len bytes is aligned in a new buffer, and nothing is before it.
    ghost predicate Aligned(len: nat, addr: nat)
      requires wbuf.Valid()
      reads wbuf, wbuf.buf
    {
      && wbuf.offset == Slack(len + alignPrefix + addr)
      && wbuf.buf != null && forall i | 0 <= i < wbuf.offset :: wbuf.buf[i] == 0
    }

    // The call after the one with which the next size bytes are taken.
    function DrainedAt(calls: nat, size: nat): nat
      decreases size
    {
      if size == 0 then calls
      else if bio.script(calls) <= 0 || bio.script(calls) >= size then calls + 1
      else DrainedAt(calls + 1, size - bio.script(calls))
    }

    // A flush of the pending flight goes through: the connection is open for writing, the length
    // is an int, and the transport takes first the buffer and then the flight, and flushes.
    predicate FlushWorks()
      requires flight.Some? && flightOffset <= |flight.value|
      reads this`shutdown, this`flight, this`flightOffset, wbuf`size, bio`calls
    {
      var len := |flight.value| - flightOffset;
      var first := DrainedAt(bio.calls, wbuf.size);
      && !shutdown && |flight.value| <= INT_LIMIT
      && Drains(bio.calls, wbuf.size) && Drains(first, len) && bio.script(DrainedAt(first, len)) > 0
    }

    // The length of the next record of a write with n bytes to go.
    function Piece(n: int): int {
      if n > maxFragment then maxFragment else n
    }

    // The same for the first record that a write with n bytes to go at addr will seal, if it seals
    // one: the pending record goes first, and ends the call when it is refused, when the transport
    // does not take it, or when partial writes are enabled.
    predicate WriteRoomy(n: int, addr: nat)
      reads this`flight, this`flightOffset, this`pending, wbuf`size, bio`calls
    {
      if pending.Idle? then wbuf.size > 0 || n <= 0 || Roomy(Piece(n))
      else
        || n <= pending.ret || partialWrites
        || !MatchesPending(APP_DATA, addr, Piece(n)) || !Drains(bio.calls, wbuf.size)
        || Roomy(Piece(n - pending.ret))
    }

    // The transport takes the next size bytes before it fails.
    predicate Drains(calls: nat, size: nat)
      decreases size
    {
      || size == 0
      || bio.script(calls) >= size
      || (bio.script(calls) > 0 && Drains(calls + 1, size - bio.script(calls)))
    }

    // The transport always takes something.
    ghost predicate Flows() {
      forall k: nat :: bio.script(k) > 0
    }

    // The n-th sealing succeeds, or fails, for whatever record.
    ghost predicate Seals(n: nat, ok: bool) {
      forall kind: nat, plain: seq<byte> :: seal(n, kind, plain).Some? == ok
    }

    // Sealing never fails from the n-th on.
    ghost predicate Live(n: nat) {
      Flows() && forall k: nat | k >= n :: Seals(k, true)
    }

    // The n-th sealing succeeds and the next one fails.
    ghost predicate SecondFails(n: nat) {
      Flows() && Seals(n, true) && Seals(n + 1, false)
    }

    // The bytes of a write that the first tot and the pending record make up.
    function Mark(tot: nat): nat
      reads this`pending
    {
      tot + if pending.Pending? then pending.ret else 0
    }

    // Only application data is pending.
    predicate AppPending()
      reads this`pending
    {
      pending.Pending? ==> pending.kind == APP_DATA
    }

    // Nothing but the record of this write is waiting to be written.
    predicate Steady(addr: nat, n: int)
      reads this`flight, this`pending, wbuf`size
    {
      Quiet() || (pending.Pending? && flight.None? && MatchesPending(APP_DATA, addr, Piece(n)))
    }

    // Nothing is waiting to be written.
    predicate Quiet()
      reads this`flight, this`pending, wbuf`size
    {
      pending.Idle? && flight.None? && wbuf.size == 0
    }

    // Every record is sealed, and is longer than its plaintext by the overhead.
    ghost predicate Full() {
      forall n: nat, kind: nat, plain: seq<byte> ::
        seal(n, kind, plain).Some? && |seal(n, kind, plain).value| == |plain| + overhead
    }

    // As many bytes of application data have been sealed since before as tot and the pending
    // record say.
    ghost predicate SealedLen(before: seq<byte>, tot: nat)
      reads this`pending, this`log
    {
      && AppPending() && before <= Plain(log, APP_DATA)
      && |Plain(log, APP_DATA)| == |before| + Mark(tot)
    }

    // A write is under way: wnum and the pending record account for what was sealed since before.
    ghost predicate UnderWay(before: seq<byte>)
      reads this
    {
      SealedLen(before, wnum)
    }

    // The first tot bytes of the data and the pending record have been sealed.
    ghost predicate Sealed(before: seq<byte>, data: seq<byte>, tot: nat)
      reads this`pending, this`log
    {
      AppPending() && Mark(tot) <= |data| && Plain(log, APP_DATA) == before + data[..Mark(tot)]
    }

    // A write of the data is under way: what was sealed since before is the beginning of the data,
    // up to wnum and the pending record.
    ghost predicate Writing(before: seq<byte>, data: seq<byte>)
      reads this
    {
      Sealed(before, data, wnum)
    }

    constructor (script: nat -> int, maxFragment: nat, overhead: nat, alignPrefix: nat, partialWrites: bool,
                 movingBuffer: bool, seal: (nat, nat, seq<byte>) -> Option<seq<byte>>, malloc: nat -> nat)
      requires 512 <= maxFragment <= MAX_PLAIN && maxFragment + overhead + ALIGN - 1 < U16
      requires forall n: nat, kind: nat, plain: seq<byte> ::
                 seal(n, kind, plain).Some? ==> |seal(n, kind, plain).value| <= |plain| + overhead
      ensures Valid() && Conserved() && log == [] && fresh(bio) && fresh(wbuf)
      ensures flight == None && pending == Idle && wnum == 0 && seals == 0 && !shutdown
      ensures wbuf.buf == null && bio.script == script && bio.calls == 0 && bio.accepted == []
      ensures this.maxFragment == maxFragment && this.overhead == overhead && this.alignPrefix == alignPrefix
      ensures this.partialWrites == partialWrites && this.movingBuffer == movingBuffer && this.seal == seal && this.malloc == malloc
    {
      this.maxFragment, this.overhead, this.alignPrefix := maxFragment, overhead, alignPrefix;
      this.partialWrites, this.movingBuffer := partialWrites, movingBuffer;
      this.seal, this.malloc := seal, malloc;
      seals, shutdown, flight, flightOffset, pending, wnum, log := 0, false, None, 0, Idle, 0, [];
      bio := new Transport(script);
      wbuf := new SSLBuffer();
    }

    // tls_seal_record. The caller decides where the bytes go.
    method SealRecord(kind: nat, plain: seq<byte>) returns (r: Option<seq<byte>>)
      requires Valid()
      modifies this`seals, this`log
      ensures Valid()
      ensures r == seal(old(seals), kind, plain) && seals == old(seals) + 1
      ensures r.None? ==> log == old(log)
      ensures r.Some? ==> |r.value| <= |plain| + overhead && log == old(log) + [Record(kind, plain, r.value)]
      ensures r.Some? && old(Conserved()) ==> Owes(r.value)
      ensures r.None? && old(Conserved()) ==> Conserved()
      ensures kind != APP_DATA ==> Plain(log, APP_DATA) == Plain(old(log), APP_DATA)
    {
      hide Wire, Plain;
      r := seal(seals, kind, plain);
      seals := seals + 1;
      if r.Some? {
        LogGrows(log, Record(kind, plain, r.value), APP_DATA);
        assert kind != APP_DATA ==> Plain(log, APP_DATA) + [] == Plain(log, APP_DATA);
        log := log + [Record(kind, plain, r.value)];
      }
    }

    // add_record_to_flight
    method AddRecordToFlight(kind: nat, plain: seq<byte>) returns (ok: bool)
      requires Valid() && flightOffset == 0
      modifies this`seals, this`log, this`flight
      ensures Valid()
      ensures old(Conserved()) ==> Conserved()
      ensures ok <==> seal(old(seals), kind, plain).Some?
      ensures seals == old(seals) + 1
      ensures ok ==> flight.Some? && FlightBytes() == old(FlightBytes()) + seal(old(seals), kind, plain).value
      ensures flight.Some? && (Full() ==> ok && |FlightBytes()| == |old(FlightBytes())| + |plain| + overhead)
      ensures Queued(old(log), old(FlightBytes()), log, FlightBytes())
      ensures !ok ==> log == old(log)
      ensures ok ==> |log| == |old(log)| + 1 && log[..|old(log)|] == old(log) && log[|old(log)|].kind == kind && log[|old(log)|].plain == plain
      ensures kind != APP_DATA ==> Plain(log, APP_DATA) == Plain(old(log), APP_DATA)
      ensures |Tail()| <= |old(Tail())| + |plain| + overhead
    {
      hide Wire, Plain;
      if flight.None? {
        flight := Some([]);
      }
      var r := SealRecord(kind, plain);
      if r.None? {
        return false;
      }
      flight := Some(flight.value + r.value);
      LogGrows(old(log), Record(kind, plain, r.value), kind);
      assert Tail() == old(Tail()) + r.value;
      StoreTail(bio.accepted + wbuf.Data(), old(Tail()), r.value);
      return true;
    }

    // Of the next two calls the first takes a part of size bytes and the second fails.
    predicate StopsAfterOne(calls: nat, size: nat) {
      0 < bio.script(calls) < size && bio.script(calls + 1) <= 0
    }

    // The transport has taken the first k bytes of the buffer.
    ghost predicate Took(k: int, accepted: seq<byte>, data: seq<byte>, offset: nat)
      requires 0 < k <= |data|
      reads wbuf, bio
    {
      bio.accepted == accepted + data[..k] && wbuf.offset == Wrapped(offset + k) && wbuf.size == |data| - k
    }

    // The same of a buffer with nothing in its first slack bytes.
    ghost predicate Cut(k: int, accepted: seq<byte>, data: seq<byte>, slack: nat)
      requires 0 < k <= |data|
      reads wbuf, wbuf.buf, bio
    {
      && Took(k, accepted, data, slack)
      && wbuf.buf != null && slack <= wbuf.buf.Length && forall i | 0 <= i < slack :: wbuf.buf[i] == 0
    }

    // One turn of tls_write_buffer_flush.
    method FlushOnce() returns (ret: int)
      requires Valid() && wbuf.size > 0
      modifies wbuf, bio
      ensures Valid() && wbuf.buf == old(wbuf.buf) && bio.calls == old(bio.calls) + 1
      ensures ret == if bio.script(old(bio.calls)) > old(wbuf.size) then old(wbuf.size) else bio.script(old(bio.calls))
      ensures old(Conserved()) ==> Conserved()
      ensures ret <= 0 ==> bio.accepted == old(bio.accepted) && wbuf.Data() == old(wbuf.Data()) && wbuf.offset == old(wbuf.offset)
      ensures ret > 0 ==> Took(ret, old(bio.accepted), old(wbuf.Data()), old(wbuf.offset))
    {
      hide Wire, Plain, SealBounded, Wrapped;
      ghost var before, d := bio.accepted, wbuf.Data();
      ret := bio.Write(wbuf.buf[wbuf.offset..wbuf.offset + wbuf.size]);
      if ret > 0 {
        wbuf.Consume(ret);
        Handed(before, d, Tail(), ret);
      }
    }

    // The state of a flush that began after the given number of calls.
    ghost predicate Flushing(calls: nat, accepted: seq<byte>, data: seq<byte>, offset: nat)
      requires Valid()
      reads this, wbuf, wbuf.buf, bio
    {
      && bio.calls >= calls
      && (bio.calls == calls ==> bio.accepted == accepted && wbuf.Data() == data && wbuf.offset == offset)
      && (bio.calls == calls + 1 && 0 < bio.script(calls) < |data| ==> Took(bio.script(calls), accepted, data, offset))
      && (StopsAfterOne(calls, |data|) ==> bio.calls <= calls + 1)
    }

    // tls_write_buffer_flush
    method FlushBuffer() returns (ret: int)
      requires Valid()
      modifies wbuf, bio
      ensures Valid() && (wbuf.buf == null || wbuf.buf == old(wbuf.buf))
      ensures old(Conserved()) ==> Conserved()
      ensures ret > 0 ==> ret == 1 && wbuf.Data() == []
      ensures wbuf.size <= old(wbuf.size)
      ensures ret > 0 <==> Drains(old(bio.calls), old(wbuf.size))
      ensures ret > 0 ==> bio.calls == DrainedAt(old(bio.calls), old(wbuf.size))
      ensures StopsAfterOne(old(bio.calls), old(wbuf.size)) ==>
                (ret <= 0 && wbuf.buf == old(wbuf.buf)
                 && Took(bio.script(old(bio.calls)), old(bio.accepted), old(wbuf.Data()), old(wbuf.offset)))
    {
      hide Wire, Plain, Conserved;
      ghost var calls := bio.calls;
      while wbuf.size > 0
        invariant Valid() && wbuf.buf == old(wbuf.buf) && wbuf.size <= old(wbuf.size)
        invariant old(Conserved()) ==> Conserved()
        invariant Drains(bio.calls, wbuf.size) <==> Drains(calls, old(wbuf.size))
        invariant DrainedAt(bio.calls, wbuf.size) == DrainedAt(calls, old(wbuf.size))
        invariant Flushing(calls, old(bio.accepted), old(wbuf.Data()), old(wbuf.offset))
        decreases wbuf.size
      {
        ret := FlushOnce();
        if ret <= 0 {
          return;
        }
      }
      ClearEmpty();
      return 1;
    }

    // An empty buffer gives its memory back.
    method ClearEmpty()
      requires Valid() && wbuf.size == 0
      modifies wbuf
      ensures Valid() && wbuf.buf == null && wbuf.Data() == []
      ensures old(Conserved()) ==> Conserved()
    {
      assert wbuf.Data() == [];
      wbuf.Clear();
    }

    // The bytes of the pending flight.
    function FlightBytes(): seq<byte>
      reads this`flight
    {
      if flight.Some? then flight.value else []
    }

    // The first n chunks of a message are sealed, when sealing number from is the first.
    ghost predicate AllSealed(from: nat, chunks: seq<seq<byte>>, n: nat)
      requires n <= |chunks|
    {
      forall i: nat | i < n :: seal(from + i, HANDSHAKE, chunks[i]).Some?
    }

    // One turn of ssl3_add_message.
    method AddChunk(chunk: seq<byte>, ghost from: nat, ghost chunks: seq<seq<byte>>, ghost n: nat) returns (ok: bool)
      requires Valid() && flightOffset == 0
      requires from <= |log| && Holds(log, from, HANDSHAKE, chunks, n) && n < |chunks| && chunks[n] == chunk
      modifies this`seals, this`log, this`flight
      ensures Valid() && flightOffset == 0
      ensures (ok <==> seal(old(seals), HANDSHAKE, chunk).Some?) && seals == old(seals) + 1
      ensures old(Conserved()) ==> Conserved()
      ensures if ok then from <= |log| && Holds(log, from, HANDSHAKE, chunks, n + 1) && log[..from] == old(log[..from])
              else log == old(log)
      ensures flight.Some? && (Full() ==> ok && |FlightBytes()| == |old(FlightBytes())| + |chunk| + overhead)
      ensures Queued(old(log), old(FlightBytes()), log, FlightBytes())
      ensures Plain(log, APP_DATA) == Plain(old(log), APP_DATA)
    {
      hide Wire, Plain, Holds, Conserved, Full, SealBounded, Queued;
      ok := AddRecordToFlight(HANDSHAKE, chunk);
      if ok {
        HoldsNext(old(log), log, from, HANDSHAKE, chunks, n);
      }
    }

    // ssl3_add_message, without the callback and the transcript.
    method AddMessage(msg: seq<byte>) returns (ok: bool)
      requires Valid() && flightOffset == 0
      modifies this`seals, this`log, this`flight
      ensures Valid() && flightOffset == 0
      ensures old(Conserved()) ==> Conserved()
      ensures ok <==> AllSealed(old(seals), Chunks(msg, maxFragment), |Chunks(msg, maxFragment)|)
      ensures ok ==> Holds(log, |old(log)|, HANDSHAKE, Chunks(msg, maxFragment), |Chunks(msg, maxFragment)|)
      ensures |old(log)| <= |log| && log[..|old(log)|] == old(log)
      ensures exists n: nat :: Holds(log, |old(log)|, HANDSHAKE, Chunks(msg, maxFragment), n)
      ensures flight.Some? && (Full() ==> ok && |FlightBytes()| == |old(FlightBytes())| + |msg| + overhead * |Chunks(msg, maxFragment)|)
      ensures Queued(old(log), old(FlightBytes()), log, FlightBytes())
      ensures Plain(log, APP_DATA) == Plain(old(log), APP_DATA)
    {
      hide Chunks, Holds, Wire, Plain, Full, SealBounded, Conserved, FlightBytes, Queued;
      QueuedSelf(log, FlightBytes());
      NoneHeld(log, HANDSHAKE, Chunks(msg, maxFragment));
      var rest := msg;
      var first := true;
      ghost var n := 0;
      ghost var chunks := Chunks(msg, maxFragment);
      ok := true;
      while first || rest != []
        invariant Valid() && flightOffset == 0 && ok
        invariant old(Conserved()) ==> Conserved()
        invariant Holds(log, |old(log)|, HANDSHAKE, chunks, n)
        invariant |old(log)| <= |log| && log[..|old(log)|] == old(log) && n <= |chunks|
        invariant chunks[n..] == if !first && rest == [] then [] else Chunks(rest, maxFragment)
        invariant Plain(log, APP_DATA) == Plain(old(log), APP_DATA)
        invariant first || flight.Some?
        invariant seals == old(seals) + n && AllSealed(old(seals), chunks, n)
        invariant Queued(old(log), old(FlightBytes()), log, FlightBytes())
        invariant Full() ==> |FlightBytes()| + |rest| == |old(FlightBytes())| + |msg| + overhead * n
        decreases |rest|, first
      {
        NextChunk(chunks, n, rest, maxFragment);
        var len := if |rest| < maxFragment then |rest| else maxFragment;
        var chunk := rest[..len];
        rest := rest[len..];
        first := false;
        ghost var was, bytes := log, FlightBytes();
        ok := AddChunk(chunk, |old(log)|, chunks, n);
        QueuedChain(old(log), old(FlightBytes()), was, bytes, log, FlightBytes());
        if !ok {
          return;
        }
        n := n + 1;
      }
    }

    // ssl3_add_change_cipher_spec
    method AddChangeCipherSpec() returns (ok: bool)
      requires Valid() && flightOffset == 0
      modifies this`seals, this`log, this`flight
      ensures Valid() && flightOffset == 0
      ensures old(Conserved()) ==> Conserved()
      ensures ok <==> seal(old(seals), CCS, CCS_BODY).Some?
      ensures ok ==> Holds(log, |old(log)|, CCS, [CCS_BODY], 1) && log[..|old(log)|] == old(log)
      ensures !ok ==> log == old(log)
      ensures Plain(log, APP_DATA) == Plain(old(log), APP_DATA)
    {
      hide Wire, Plain;
      ok := AddRecordToFlight(CCS, CCS_BODY);
    }

    // The loop of ssl3_flush_flight.
    method FlushTail() returns (ret: int)
      requires Valid() && flight.Some? && wbuf.Data() == []
      modifies this`flightOffset, bio
      ensures Valid() && flightOffset >= old(flightOffset)
      ensures old(Conserved()) ==> Conserved()
      ensures ret > 0 ==> flightOffset == |flight.value|
      ensures ret > 0 <==> Drains(old(bio.calls), old(|flight.value| - flightOffset))
      ensures ret > 0 ==> bio.calls == DrainedAt(old(bio.calls), old(|flight.value| - flightOffset))
    {
      hide Wire, Plain, Conserved;
      ret := 1;
      while flightOffset < |flight.value|
        invariant Valid() && flightOffset >= old(flightOffset)
        invariant old(Conserved()) ==> Conserved()
        invariant ret > 0 && wbuf.Data() == []
        invariant Drains(bio.calls, |flight.value| - flightOffset) <==> Drains(old(bio.calls), old(|flight.value| - flightOffset))
        invariant DrainedAt(bio.calls, |flight.value| - flightOffset) == DrainedAt(old(bio.calls), old(|flight.value| - flightOffset))
      {
        ret := WriteTail();
        if ret <= 0 {
          return;
        }
      }
    }

    // One turn of it.
    method WriteTail() returns (ret: int)
      requires Valid() && flight.Some? && flightOffset < |flight.value| && wbuf.Data() == []
      modifies this`flightOffset, bio
      ensures Valid() && bio.calls == old(bio.calls) + 1
      ensures ret == if bio.script(old(bio.calls)) > old(|flight.value| - flightOffset) then old(|flight.value| - flightOffset)
                     else bio.script(old(bio.calls))
      ensures flightOffset == old(flightOffset) + if ret > 0 then ret else 0
      ensures old(Conserved()) ==> Conserved()
    {
      hide Wire, Plain, SealBounded;
      ghost var before, d := bio.accepted, Tail();
      ret := bio.Write(flight.value[flightOffset..]);
      if ret > 0 {
        flightOffset := flightOffset + ret;
        assert Tail() == d[ret..];
        HandedTail(before, d, ret);
      }
    }

    // ssl3_flush_flight
    method FlushFlight() returns (ret: int)
      requires Valid()
      modifies this`flight, this`flightOffset, wbuf, bio
      ensures Valid() && (wbuf.buf == null || wbuf.buf == old(wbuf.buf))
      ensures old(Conserved()) ==> Conserved()
      ensures old(flight).None? ==> ret == 1 && unchanged(this) && unchanged(wbuf) && unchanged(bio)
      ensures ret <= 0 ==> flight == old(flight) && flightOffset >= old(flightOffset)
      ensures ret > 0 ==> ret == 1 && flight.None?
      ensures ret > 0 && old(flight).Some? ==> wbuf.Data() == []
      ensures ret > 0 && old(flight).Some? && old(Conserved()) ==> bio.accepted == Wire(log)
      ensures old(flight).Some? ==> (ret > 0 <==> old(FlushWorks()))
      ensures Flows() && old(flight.Some? && !shutdown && |flight.value| <= INT_LIMIT) ==> ret == 1
    {
      hide Wire, Plain, SealBounded;
      if flight.None? {
        return 1;
      }
      if shutdown || |flight.value| > INT_LIMIT {
        return -1;
      }
      FlowsDrain(bio.calls, wbuf.size);
      FlowsDrain(DrainedAt(bio.calls, wbuf.size), |flight.value| - flightOffset);
      if wbuf.size > 0 {
        ret := FlushBuffer();
        if ret <= 0 {
          return;
        }
      }
      ret := FlushTail();
      if ret <= 0 {
        return;
      }
      var flushed := bio.Flush();
      if flushed <= 0 {
        return -1;
      }
      assert Tail() == [];
      flight, flightOffset := None, 0;
      assert bio.accepted + [] + [] == bio.accepted;
      return 1;
    }

    // A retry with the arguments of the pending write.
    predicate MatchesPending(kind: nat, addr: nat, len: int)
      requires pending.Pending?
      reads this`pending
    {
      pending.tot <= len && (movingBuffer || pending.addr == addr) && pending.kind == kind
    }

    // ssl3_write_pending
    method WritePending(kind: nat, addr: nat, len: nat) returns (ret: int)
      requires Valid() && pending.Pending?
      modifies this`pending, wbuf, bio
      ensures Valid()
      ensures wbuf.buf == null || wbuf.buf == old(wbuf.buf)
      ensures old(Conserved()) ==> Conserved()
      ensures old(!MatchesPending(kind, addr, len)) ==>
                ret == -1 && unchanged(this) && unchanged(wbuf) && unchanged(bio)
      ensures ret <= 0 ==> pending == old(pending)
      ensures ret > 0 ==> pending == Idle && ret == old(pending.ret) <= len && old(pending.kind) == kind
      ensures ret > 0 ==> wbuf.Data() == []
      ensures ret > 0 <==> old(MatchesPending(kind, addr, len) && Drains(bio.calls, wbuf.size))
      ensures StopsAfterOne(old(bio.calls), old(wbuf.size)) && old(MatchesPending(kind, addr, len)) ==>
                (ret <= 0 && wbuf.buf == old(wbuf.buf)
                 && Took(bio.script(old(bio.calls)), old(bio.accepted), old(wbuf.Data()), old(wbuf.offset)))
    {
      hide Wire, Plain;
      if pending.tot > len || (!movingBuffer && pending.addr != addr) || pending.kind != kind {
        return -1;
      }
      ret := FlushBuffer();
      if ret <= 0 {
        return;
      }
      ret := pending.ret;
      pending := Idle;
    }

    // The flight ahead of a new record: the middle of do_ssl3_write, which moves the unwritten part
    // of the pending flight to the empty write buffer.
    method MoveFlight()
      requires Valid() && wbuf.buf != null && wbuf.size == 0 && |Tail()| <= wbuf.cap
      modifies this`flight, this`flightOffset, wbuf`size, wbuf.buf
      ensures Valid() && flight.None? && wbuf.Data() == old(Tail())
      ensures forall i | 0 <= i < wbuf.offset :: wbuf.buf[i] == old(wbuf.buf[i])
      ensures old(Conserved()) ==> Conserved()
    {
      hide Wire, Plain;
      if flight.Some? {
        ghost var tail := Tail();
        wbuf.Write(flight.value[flightOffset..]);
        flight, flightOffset := None, 0;
        assert wbuf.Data() == tail;
        assert bio.accepted + [] + tail == bio.accepted + tail + [];
      }
    }

    // Room in the empty write buffer for the flight and a record of n bytes, with the flight in it.
    method Reserve(n: nat) returns (ok: bool)
      requires Valid() && n > 0 && wbuf.size == 0
      modifies this`flight, this`flightOffset, wbuf, wbuf.buf
      ensures Valid() && (wbuf.buf == old(wbuf.buf) || fresh(wbuf.buf))
      ensures old(Conserved()) && old(Roomy(n)) ==> Conserved()
      ensures !ok ==> flight == old(flight) && flightOffset == old(flightOffset)
      ensures !ok || old(flight).None? ==> wbuf.size == 0
      ensures ok <==> old(Needed(n)) < U16
      ensures ok ==> flight.None? && wbuf.buf != null && wbuf.cap - wbuf.size >= n + overhead && wbuf.Data() == old(Tail())
      ensures ok && old(wbuf.buf) == null ==> Aligned(|old(Tail())|, malloc(seals)) && wbuf.cap == old(Needed(n))
    {
      hide Wire, Plain;
      var flightLen := if flight.None? then 0 else |flight.value| - flightOffset;
      ok := wbuf.EnsureCap(flightLen + alignPrefix, Needed(n), malloc(seals));
      if ok {
        MoveFlight();
      }
    }

    // The sealed record goes behind the flight in the write buffer.
    method Store(record: seq<byte>)
      requires Valid() && flight.None? && wbuf.buf != null && |record| <= wbuf.cap - wbuf.size
      modifies wbuf`size, wbuf.buf
      ensures Valid() && wbuf.Data() == old(wbuf.Data()) + record
      ensures forall i | 0 <= i < wbuf.offset :: wbuf.buf[i] == old(wbuf.buf[i])
      ensures old(Owes(record)) ==> Conserved()
    {
      ghost var moved := wbuf.Data();
      wbuf.Write(record);
      StoreQueue(bio.accepted, moved, record);
    }

    // The new record behind the flight in the write buffer.
    method SealBehind(kind: nat, data: seq<byte>, addr: nat) returns (ok: bool)
      requires Valid() && pending.Idle? && data != [] && flight.None?
      requires wbuf.buf != null && |data| + overhead <= wbuf.cap - wbuf.size
      modifies this`seals, this`log, this`pending, wbuf`size, wbuf.buf
      ensures Valid() && seals == old(seals) + 1
      ensures old(Conserved()) ==> Conserved()
      ensures ok <==> seal(old(seals), kind, data).Some?
      ensures !ok ==> log == old(log) && pending == Idle && wbuf.size == old(wbuf.size)
      ensures ok ==> log == old(log) + [Record(kind, data, seal(old(seals), kind, data).value)]
      ensures ok ==> pending == Pending(|data|, addr, kind, |data|)
      ensures ok ==> wbuf.Data() == old(wbuf.Data()) + seal(old(seals), kind, data).value
      ensures forall i | 0 <= i < wbuf.offset :: wbuf.buf[i] == old(wbuf.buf[i])
    {
      hide Wire, Plain, Conserved, Owes, SealBounded;
      var r := SealRecord(kind, data);
      if r.None? {
        return false;
      }
      Store(r.value);
      Memorize(kind, |data|, addr);
      return true;
    }

    // The part of do_ssl3_write that seals a new record into the write buffer.
    method SealIntoBuffer(kind: nat, data: seq<byte>, addr: nat) returns (ok: bool)
      requires Valid() && pending.Idle? && data != [] && wbuf.size == 0
      modifies this`seals, this`log, this`flight, this`flightOffset, this`pending, wbuf, wbuf.buf
      ensures Valid() && ((flight == old(flight) && flightOffset == old(flightOffset)) || flight.None?)
      ensures wbuf.buf == null || wbuf.buf == old(wbuf.buf) || fresh(wbuf.buf)
      ensures old(Conserved()) && old(Roomy(|data|)) ==> Conserved()
      ensures !ok ==> log == old(log) && pending == Idle
      ensures ok <==> old(Needed(|data|)) < U16 && seal(old(seals), kind, data).Some?
      ensures ok ==> log == old(log) + [Record(kind, data, seal(old(seals), kind, data).value)]
      ensures ok ==> pending == Pending(|data|, addr, kind, |data|) && flight.None?
      ensures seals == old(seals) + if old(Needed(|data|)) < U16 then 1 else 0
      ensures !ok && old(flight).None? ==> wbuf.size == 0
      ensures ok ==> wbuf.Data() == old(Tail()) + seal(old(seals), kind, data).value
      ensures ok && old(wbuf.buf) == null ==> Aligned(|old(Tail())|, malloc(old(seals))) && wbuf.cap == old(Needed(|data|))
    {
      hide Wire, Plain, Conserved, Owes, Roomy, Needed, Tail, SealBounded;
      ok := Reserve(|data|);
      if ok {
        ok := SealBehind(kind, data, addr);
      }
    }

    // The arguments of a write whose record is in the write buffer.
    method Memorize(kind: nat, len: nat, addr: nat)
      requires Valid() && len > 0
      modifies this`pending
      ensures Valid() && pending == Pending(len, addr, kind, len)
      ensures old(Conserved()) ==> Conserved()
    {
      pending := Pending(len, addr, kind, len);
    }

    // do_ssl3_write
    method DoWrite(kind: nat, data: seq<byte>, addr: nat) returns (ret: int)
      requires Valid()
      modifies this`seals, this`log, this`flight, this`flightOffset, this`pending, wbuf, wbuf.buf, bio
      ensures Valid() && ((flight == old(flight) && flightOffset == old(flightOffset)) || flight.None?)
      ensures wbuf.buf == null || wbuf.buf == old(wbuf.buf) || fresh(wbuf.buf)
      ensures old(Conserved() && (pending.Pending? || data == [] || wbuf.size > 0 || Roomy(|data|))) ==> Conserved()
      ensures old(pending).Pending? ==>
                log == old(log) && seals == old(seals) && flight == old(flight) && flightOffset == old(flightOffset)
      ensures old(pending).Pending? ==> (ret > 0 <==> old(MatchesPending(kind, addr, |data|) && Drains(bio.calls, wbuf.size)))
      ensures old(pending.Pending? && pending.tot > |data|) ==> ret == -1 && unchanged(this) && unchanged(wbuf) && unchanged(bio)
      ensures old(pending).Idle? && ret > 0 ==> flight.None?
      ensures Flows() && old(Quiet()) && 0 < |data| <= maxFragment ==>
                (Quiet() && seals == old(seals) + 1
                 && if seal(old(seals), kind, data).Some? then ret == |data| else ret == -1 && log == old(log))
      ensures old(pending).Pending? && ret <= 0 ==> pending == old(pending)
      ensures old(pending).Pending? && ret > 0 ==> pending == Idle && ret == old(pending.ret) <= |data| && old(pending.kind) == kind
      ensures old(pending).Idle? ==>
                || (ret <= 0 && log == old(log) && pending == Idle)
                || (|log| == |old(log)| + 1 && log[..|old(log)|] == old(log) && log[|old(log)|].kind == kind && log[|old(log)|].plain == data
                    && ((ret == |data| > 0 && pending == Idle) || (ret <= 0 && pending == Pending(|data|, addr, kind, |data|))))
      ensures ret > 0 ==> wbuf.Data() == []
      ensures old(pending.Idle? && wbuf.size == 0 && Needed(|data|) < U16) && 0 < |data| <= MAX_PLAIN
              && seal(old(seals), kind, data).Some? ==>
                log == old(log) + [Record(kind, data, seal(old(seals), kind, data).value)]
      ensures old(Needed(|data|)) >= U16 ==> log == old(log)
      ensures old(pending.Idle? && wbuf.buf == null && Needed(|data|) < U16) && 0 < |data| <= MAX_PLAIN
              && seal(old(seals), kind, data).Some? ==>
                var record := seal(old(seals), kind, data).value;
                var queue := old(Tail()) + record;
                StopsAfterOne(old(bio.calls), |queue|) ==>
                  flight.None?
                  && Cut(bio.script(old(bio.calls)), old(bio.accepted), queue, Slack(|old(Tail())| + alignPrefix + malloc(old(seals))))
    {
      hide Wire, Plain, Conserved, Tail, SealBounded;
      if pending.Pending? {
        ret := WritePending(kind, addr, |data|);
        return;
      }
      if |data| > MAX_PLAIN || wbuf.size > 0 {
        return -1;
      }
      if data == [] {
        return 0;
      }
      var ok := SealIntoBuffer(kind, data, addr);
      if !ok {
        return -1;
      }
      ret := WritePending(kind, addr, |data|);
      FlowsDrain(old(bio.calls), |old(Tail())| + |seal(old(seals), kind, data).value|);
    }

    // A transport that always takes something takes everything.
    lemma {:induction false} FlowsDrain(calls: nat, size: nat)
      ensures Flows() ==> Drains(calls, size)
      decreases size
    {
      if Flows() && size > 0 && bio.script(calls) < size {
        FlowsDrain(calls + 1, size - bio.script(calls));
      }
    }

    // One turn of the loop of ssl3_write_app_data: the next record of the data from tot on.
    method WritePiece(data: seq<byte>, tot: nat, n: nat, addr: nat) returns (ret: int)
      requires Valid() && tot + n <= |data| && n == Piece(|data| - tot)
      modifies this`seals, this`log, this`flight, this`flightOffset, this`pending, wbuf, wbuf.buf, bio
      ensures Valid()
      ensures wbuf.buf == null || wbuf.buf == old(wbuf.buf) || fresh(wbuf.buf)
      ensures old(Conserved() && WriteRoomy(|data| - tot, addr + tot)) ==>
                Conserved() && (ret > 0 && !partialWrites ==> WriteRoomy(|data| - tot - ret, addr + tot + ret))
      ensures Grown(old(log), log, APP_DATA, maxFragment)
      ensures ret > 0 ==> ret <= n && pending == Idle && wbuf.Data() == []
      ensures old(pending.Pending? && pending.tot > |data| - tot) ==> ret == -1 && log == old(log) && pending == old(pending)
      ensures old(AppPending()) ==> AppPending()
      ensures Advanced(old(log), log, data, old(Mark(tot)), Mark(if ret > 0 then tot + ret else tot))
      ensures Flows() && old(Quiet()) && n > 0 ==> Quiet() && seals == old(seals) + 1
      ensures Flows() && old(Quiet()) && n > 0 && Seals(old(seals), true) ==> ret == n
      ensures Flows() && old(Quiet()) && n > 0 && Seals(old(seals), false) ==> ret == -1
      ensures Flows() && old(pending.Pending? && Steady(addr + tot, |data| - tot)) ==> ret > 0 && Quiet() && seals == old(seals)
    {
      hide Wire, Plain, Conserved, Flows, Drains;
      FlowsDrain(bio.calls, wbuf.size);
      ret := DoWrite(APP_DATA, data[tot..tot + n], addr + tot);
      if |log| > |old(log)| {
        var r := log[|old(log)|];
        assert log == old(log) + [r];
        LogGrows(old(log), r, APP_DATA);
      } else {
        assert log == old(log);
      }
    }

    // The loop of ssl3_write_app_data.
    method WriteFrom(data: seq<byte>, from: nat, addr: nat) returns (ret: int)
      requires Valid() && from <= |data| && wnum == 0
      modifies this`seals, this`log, this`flight, this`flightOffset, this`pending, this`wnum, wbuf, wbuf.buf, bio
      ensures Valid()
      ensures wbuf.buf == null || wbuf.buf == old(wbuf.buf) || fresh(wbuf.buf)
      ensures old(Conserved() && WriteRoomy(|data| - from, addr + from)) ==> Conserved()
      ensures Grown(old(log), log, APP_DATA, maxFragment)
      ensures ret > 0 ==> from < ret <= |data| && wnum == 0 && pending == Idle && wbuf.Data() == []
      ensures ret > 0 && !partialWrites ==> ret == |data|
      ensures old(pending.Pending? && pending.tot > |data| - from) ==> ret == -1 && log == old(log) && pending == old(pending) && wnum == from
      ensures old(AppPending()) ==> AppPending()
      ensures Advanced(old(log), log, data, old(Mark(from)), Mark(if ret > 0 then ret else wnum))
      ensures old(Steady(addr + from, |data| - from) && Live(seals)) && from < |data| ==> ret > 0
      ensures !partialWrites && old(Quiet() && SecondFails(seals)) && from + maxFragment < |data| ==>
                ret == -1 && wnum == from + maxFragment && Quiet() && seals == old(seals) + 2
    {
      hide Wire, Plain, Grown, Advanced, WriteRoomy, Flows, Seals, SealBounded, MatchesPending, Conserved, Mark;
      var tot, n := from, |data| - from;
      GrownSelf(log, APP_DATA, maxFragment);
      AdvancedSelf(log, data, Mark(from));
      while true
        invariant Valid() && wnum == 0 && from <= tot && 0 <= n && tot + n == |data|
        invariant wbuf.buf == null || wbuf.buf == old(wbuf.buf) || fresh(wbuf.buf)
        invariant old(Conserved() && WriteRoomy(|data| - from, addr + from)) ==> Conserved() && WriteRoomy(n, addr + tot)
        invariant Grown(old(log), log, APP_DATA, maxFragment)
        invariant old(pending.Pending? && pending.tot > |data| - from) ==> tot == from && log == old(log) && pending == old(pending)
        invariant old(AppPending()) ==> AppPending()
        invariant Advanced(old(log), log, data, old(Mark(from)), Mark(tot))
        invariant old(Steady(addr + from, |data| - from) && Live(seals)) && from < |data| ==> Steady(addr + tot, n) && Live(seals) && n > 0
        invariant old(Quiet() && SecondFails(seals)) && from + maxFragment < |data| ==>
                    Quiet() && ((tot == from && seals == old(seals)) || (tot == from + maxFragment && seals == old(seals) + 1))
        decreases n
      {
        ghost var was, mark := log, Mark(tot);
        var nw := if n > maxFragment then maxFragment else n;
        ret := WritePiece(data, tot, nw, addr);
        GrownChain(old(log), was, log, APP_DATA, maxFragment);
        AdvancedChain(old(log), was, log, data, old(Mark(from)), mark, Mark(if ret > 0 then tot + ret else tot));
        if ret <= 0 {
          wnum := tot;
          return;
        }
        if ret == n || partialWrites {
          ret := tot + ret;
          return;
        }
        n := n - ret;
        tot := tot + ret;
      }
    }

    // ssl3_write_app_data, outside early data. addr is the address of the data. A write that is
    // under way stays so exactly when no fewer bytes are presented than wnum.
    method WriteAppData(data: seq<byte>, len: int, addr: nat, ghost before: seq<byte>) returns (ret: int)
      requires Valid() && (len < 0 || len == |data|)
      modifies this`seals, this`log, this`flight, this`flightOffset, this`pending, this`wnum, wbuf, wbuf.buf, bio
      ensures Valid()
      ensures wbuf.buf == null || wbuf.buf == old(wbuf.buf) || fresh(wbuf.buf)
      ensures old(Conserved() && (shutdown || len < wnum || WriteRoomy(len - wnum, addr + wnum))) ==> Conserved()
      ensures Grown(old(log), log, APP_DATA, maxFragment)
      ensures shutdown ==> ret == -1 && unchanged(this) && unchanged(wbuf) && unchanged(bio)
      ensures !shutdown && len < old(wnum) ==>
                (ret == -1 && wnum == 0 && unchanged(wbuf) && unchanged(bio)
                 && unchanged(`log) && unchanged(`pending) && unchanged(`flight) && unchanged(`seals))
      ensures !shutdown && len >= old(wnum) && old(pending.Pending? && len < wnum + pending.tot) ==>
                ret == -1 && wnum == old(wnum) && log == old(log) && pending == old(pending)
      ensures ret > 0 ==> ret <= len && wnum == 0 && pending == Idle && wbuf.Data() == []
      ensures ret > 0 && !partialWrites ==> ret == len
      ensures !shutdown && len >= old(wnum) ==> Advanced(old(log), log, data, old(Mark(wnum)), Mark(if ret > 0 then ret else wnum))
      ensures !shutdown && ret <= 0 && old(UnderWay(before)) ==> (UnderWay(before) <==> len >= old(wnum) || old(wnum) == 0)
      ensures len >= 0 && old(Writing(before, data)) && ret <= 0 ==> Writing(before, data)
      ensures len >= 0 && old(Writing(before, data)) && ret > 0 ==> Plain(log, APP_DATA) == before + data[..ret]
      ensures !shutdown && old(wnum < len && Steady(addr + wnum, len - wnum) && Live(seals)) ==> ret > 0
      ensures !shutdown && !partialWrites && old(Quiet() && SecondFails(seals) && wnum + maxFragment < len) ==>
                ret == -1 && wnum == old(wnum) + maxFragment && Quiet() && seals == old(seals) + 2
    {
      hide Wire, Plain, WriteRoomy, Flows, Seals, Grown, Steady;
      GrownSelf(log, APP_DATA, maxFragment);
      if shutdown {
        return -1;
      }
      ghost var mark := Mark(wnum);
      var tot := wnum;
      wnum := 0;
      if len < 0 || len < tot {
        return -1;
      }
      ret := WriteFrom(data, tot, addr);
      SlicesJoin(before, data, mark, Mark(if ret > 0 then ret else wnum));
    }

    // Records are not added to a flight that is being written.
    predicate MayAdd(e: Event)
      reads this
    {
      (e.Message? || e.ChangeCipherSpec?) ==> flightOffset == 0
    }

    // The first record of a write, if one is sealed, does not need one of the last six capacities.
    predicate MayWrite(e: Event)
      reads this, wbuf, bio
    {
      e.Write? ==> shutdown || |e.data| < wnum || WriteRoomy(|e.data| - wnum, e.addr + wnum)
    }

    // One event.
    method Perform(e: Event, ghost before: seq<byte>) returns (ret: int)
      requires Valid() && MayAdd(e)
      modifies this`seals, this`log, this`flight, this`flightOffset, this`pending, this`wnum, wbuf, wbuf.buf, bio
      ensures Valid()
      ensures wbuf.buf == null || wbuf.buf == old(wbuf.buf) || fresh(wbuf.buf)
      ensures old(Conserved() && MayWrite(e)) ==> Conserved()
      ensures !e.Write? ==> pending == old(pending) && wnum == old(wnum) && Plain(log, APP_DATA) == Plain(old(log), APP_DATA)
      ensures e.Write? && shutdown ==> ret == -1 && unchanged(this)
      ensures e.Write? && !shutdown && old(wnum <= |e.data| && pending.Pending? && |e.data| < wnum + pending.tot) ==>
                ret == -1 && wnum == old(wnum) && log == old(log) && pending == old(pending)
      ensures e.Write? && old(Writing(before, e.data)) ==>
                if ret > 0 then ret <= |e.data| && wnum == 0 && pending == Idle && Plain(log, APP_DATA) == before + e.data[..ret]
                else Writing(before, e.data)
    {
      hide Wire, Plain, WriteRoomy;
      match e {
        case Message(msg) =>
          var ok := AddMessage(msg);
          ret := 0;
        case ChangeCipherSpec =>
          var ok := AddChangeCipherSpec();
          ret := 0;
        case Flush =>
          ret := FlushFlight();
        case Write(data, addr) =>
          ret := WriteAppData(data, |data|, addr, before);
      }
    }

    // Any run of events, up to the first that adds to a flight being written, or that would seal a
    // record for which the write buffer needs one of the last six capacities.
    method Run(events: seq<Event>) returns (n: nat)
      requires Valid() && Conserved()
      modifies this`seals, this`log, this`flight, this`flightOffset, this`pending, this`wnum, wbuf, wbuf.buf, bio
      ensures Valid() && Conserved()
      ensures n < |events| ==> !MayAdd(events[n]) || !MayWrite(events[n])
    {
      hide Wire, Plain, MayWrite;
      n := 0;
      while n < |events|
        invariant Valid() && Conserved() && n <= |events|
        invariant wbuf.buf == null || wbuf.buf == old(wbuf.buf) || fresh(wbuf.buf)
      {
        if !MayAdd(events[n]) || !MayWrite(events[n]) {
          return;
        }
        var ret := Perform(events[n], []);
        n := n + 1;
      }
    }

    // A run up to the first write that succeeds, or that presents fewer bytes than wnum, or other
    // bytes than those sealed since the start. The application data sealed since the start is what
    // a successful write reports of its data, or else have.
    method RunRetrying(events: seq<Event>) returns (n: nat, ret: int, have: seq<byte>)
      requires Valid() && pending == Idle && wnum == 0
      modifies this`seals, this`log, this`flight, this`flightOffset, this`pending, this`wnum, wbuf, wbuf.buf, bio
      ensures Valid() && n <= |events|
      ensures ret <= 0 ==> UnderWay(Plain(old(log), APP_DATA)) && Plain(log, APP_DATA) == Plain(old(log), APP_DATA) + have
      ensures ret <= 0 && n < |events| ==> !MayAdd(events[n]) || !Resumes(events[n], have)
      ensures ret > 0 ==> n < |events| && events[n].Write? && ret <= |events[n].data| && wnum == 0 && pending == Idle
      ensures ret > 0 ==> Plain(log, APP_DATA) == Plain(old(log), APP_DATA) + events[n].data[..ret]
    {
      hide Wire, Plain, WriteRoomy;
      ghost var before := Plain(log, APP_DATA);
      assert before + [] == before;
      n, ret, have := 0, 0, [];
      while n < |events|
        invariant Valid() && n <= |events| && ret == 0
        invariant wbuf.buf == null || wbuf.buf == old(wbuf.buf) || fresh(wbuf.buf)
        invariant UnderWay(before) && Plain(log, APP_DATA) == before + have
      {
        var e := events[n];
        if !MayAdd(e) || !Resumes(e, have) {
          return;
        }
        if e.Write? && have <= e.data {
          assert have == e.data[..|have|];
        }
        var r := Perform(e, before);
        if e.Write? && have <= e.data {
          if r > 0 {
            ret := r;
            return;
          }
          have := e.data[..Mark(wnum)];
        }
        n := n + 1;
      }
    }

    // A write presents at least wnum bytes, and agrees with what was sealed.
    predicate Resumes(e: Event, have: seq<byte>)
      reads this
    {
      e.Write? ==> |e.data| >= wnum && (have <= e.data || e.data <= have)
    }
  }

  // A record of TLS 1.3: header, plaintext, type and a tag of 16 bytes.
  function Protected(kind: nat, plain: seq<byte>): (r: seq<byte>)
    ensures |r| == |plain| + 22 && r[|r| - 1] == 1
  {
    var len := |plain| + 17;
    [APP_DATA as byte, 3, 3, (len / 256 % 256) as byte, (len % 256) as byte] + plain + [(kind % 256) as byte] + Ones(16)
  }

  function Ones(n: nat): (s: seq<byte>)
    ensures |s| == n && forall i | 0 <= i < n :: s[i] == 1
  {
    seq(n, i => 1)
  }

  lemma FourChunks(data: seq<byte>, limit: nat)
    requires 0 < limit && 3 * limit < |data| <= 4 * limit
    ensures |Chunks(data, limit)| == 4
  {
    var rest := data[limit..];
    assert |Chunks(data, limit)| == 1 + |Chunks(rest, limit)|;
    assert |Chunks(rest, limit)| == 1 + |Chunks(rest[limit..], limit)|;
    assert |Chunks(rest[limit..], limit)| == 1 + |Chunks(rest[limit..][limit..], limit)|;
  }

  // Nothing has been written, a flight of 65500 bytes is queued, records are those of TLS 1.3, and
  // the transport takes 65529 bytes and then fails.
  ghost predicate Stalled(w: WriteSide)
    reads w, w.wbuf, w.wbuf.buf, w.bio
  {
    && w.Valid() && w.Conserved() && w.pending == Idle && w.wbuf.buf == null && |w.Tail()| == 65500
    && w.bio.accepted == [] && w.bio.script(w.bio.calls) == 65529 && w.bio.script(w.bio.calls + 1) <= 0
    && w.overhead == 22 && w.alignPrefix == 5 && w.malloc(w.seals) == 0x1000
    && forall plain: seq<byte> :: w.seal(w.seals, APP_DATA, plain) == Some(Protected(APP_DATA, plain))
  }

  // A new write side gets there with a message of 65412 bytes, in four records.
  method LongFlight() returns (w: WriteSide)
    ensures fresh(w) && fresh(w.wbuf) && fresh(w.bio) && Stalled(w)
  {
    hide Wire, Plain, Protected, Ones;
    w := new WriteSide(k => if k == 0 then 65529 else -1, MAX_PLAIN, 22, 5, false, true,
                       (n, kind, plain) => Some(Protected(kind, plain)), k => 0x1000);
    FourChunks(Ones(65412), MAX_PLAIN);
    var added := w.AddMessage(Ones(65412));
  }

  // There, a write of any data keeps every byte if and only if the capacity that it needs is none
  // of the last six below 65536; from 65536 on it is refused, and otherwise its record is sealed.
  method CapacityExact(w: WriteSide, data: seq<byte>) returns (ret: int)
    requires Stalled(w) && data != []
    modifies w, w.wbuf, w.wbuf.buf, w.bio
    ensures w.Valid()
    ensures w.bio.accepted + w.wbuf.Data() + w.Tail() == Wire(w.log)
       <==> old(w.Needed(|data|)) < 65530 || old(w.Needed(|data|)) >= 65536
    ensures w.log == if old(w.Needed(|data|)) >= 65536 then old(w.log)
                     else old(w.log) + [Record(APP_DATA, data, Protected(APP_DATA, data))]
  {
    hide Wire, Plain, Protected, Ones;
    if 65530 <= w.Needed(|data|) < 65536 {
      ret := BandLoses(w, data);
    } else {
      assert w.Roomy(|data|);
      ret := w.DoWrite(APP_DATA, data, 0);
    }
  }

  method BandLoses(w: WriteSide, data: seq<byte>) returns (ret: int)
    requires Stalled(w) && 65530 <= w.Needed(|data|) < 65536
    modifies w, w.wbuf, w.wbuf.buf, w.bio
    ensures w.Valid() && w.bio.accepted + w.wbuf.Data() + w.Tail() != Wire(w.log)
    ensures w.log == old(w.log) + [Record(APP_DATA, data, Protected(APP_DATA, data))]
  {
    hide Wire, Plain, Protected, WriteSide.Cut, WriteSide.Took;
    ghost var record := Protected(APP_DATA, data);
    ghost var queue := w.Tail() + record;
    LogGrows(w.log, Record(APP_DATA, data, record), APP_DATA);
    assert [] + [] + w.Tail() == w.Tail();
    ret := w.DoWrite(APP_DATA, data, 0);
    CutLoses(w, queue);
  }

  // When the offset has wrapped, what the buffer holds is what was before its body.
  lemma CutLoses(w: WriteSide, queue: seq<byte>)
    requires w.Valid() && w.flight.None? && 65529 < |queue| < 65536 && queue[|queue| - 1] == 1
    requires w.Cut(65529, [], queue, 7)
    ensures w.bio.accepted + w.wbuf.Data() + w.Tail() != queue
  {
    var data := w.wbuf.Data();
    assert data[|data| - 1] == w.wbuf.buf[|data| - 1] == 0;
    assert (w.bio.accepted + data + w.Tail())[|queue| - 1] == data[|data| - 1];
  }

  // A retry with a length below wnum, and then the data again: the data is sealed from the end of
  // the record that was pending, or from its first byte if none was, although wnum bytes more had
  // been sealed.
  method ForgottenWrite(w: WriteSide, short: seq<byte>, len: int, data: seq<byte>, addr: nat, ghost before: seq<byte>)
    returns (ret: int)
    requires w.Valid() && w.Writing(before, data) && !w.shutdown && len < w.wnum && (len < 0 || len == |short|)
    requires w.wnum > 0
    modifies w, w.wbuf, w.wbuf.buf, w.bio
    ensures w.Valid() && old(w.Mark(w.wnum)) <= |data|
    ensures ret > 0 ==>
              old(w.Mark(0)) <= ret <= |data|
              && Plain(w.log, APP_DATA) == before + data[..old(w.Mark(w.wnum))] + data[old(w.Mark(0))..ret]
    ensures ret > 0 && !w.partialWrites ==> ret == |data|
    ensures old(w.Steady(addr, |data|) && w.Live(w.seals)) ==> ret > 0
  {
    hide Wire, Plain, WriteSide.Conserved;
    var refused := w.WriteAppData(short, len, addr, before);
    ret := w.WriteAppData(data, |data|, addr, before);
  }

  // A write of 513 bytes in records of 512, where sealing the second record fails the first time.
  // After a retry with a negative length the write succeeds, and its first 512 bytes went out twice.
  method WrittenTwice() returns (w: WriteSide)
    ensures w.Valid() && Plain(w.log, APP_DATA) == Ones(512) + Ones(513)
  {
    hide Wire, Plain, WriteSide.Conserved;
    var data := Ones(513);
    w := new WriteSide(k => 0x10000, 512, 0, 5, false, true, (n, kind, plain) => if n == 1 then None else Some(plain), k => 0x1000);
    NothingLogged(APP_DATA);
    assert [] + data[..0] == [];
    assert w.Flows() && w.Seals(0, true) && w.Seals(1, false);
    var failed := w.WriteAppData(data, 513, 0, []);
    assert forall k: nat | k >= 2 :: w.Seals(k, true);
    assert w.Live(w.seals);
    var ret := ForgottenWrite(w, [], -1, data, 0, []);
    assert [] + data[..512] + data[0..513] == Ones(512) + Ones(513);
  }

  lemma NothingLogged(kind: nat)
    ensures Plain([], kind) == []
  {
  }

  lemma SlicesJoin(before: seq<byte>, data: seq<byte>, from: nat, to: nat)
    ensures from <= to <= |data| ==> before + data[..from] + data[from..to] == before + data[..to]
  {
  }

  lemma GrownSelf(log: seq<Record>, kind: nat, limit: nat)
    ensures Grown(log, log, kind, limit)
  {
  }

  lemma GrownChain(a: seq<Record>, b: seq<Record>, c: seq<Record>, kind: nat, limit: nat)
    requires Grown(a, b, kind, limit) && Grown(b, c, kind, limit)
    ensures Grown(a, c, kind, limit)
  {
    forall i | |a| <= i < |c|
      ensures c[i].kind == kind && |c[i].plain| <= limit
    {
      if i < |b| {
        assert c[..|b|][i] == b[i];
      }
    }
  }

  lemma AdvancedSelf(log: seq<Record>, data: seq<byte>, n: nat)
    ensures Advanced(log, log, data, n, n)
  {
  }

  lemma AdvancedChain(a: seq<Record>, b: seq<Record>, c: seq<Record>, data: seq<byte>, from: nat, mid: nat, to: nat)
    requires Advanced(a, b, data, from, mid) && Advanced(b, c, data, mid, to)
    ensures Advanced(a, c, data, from, to)
  {
    hide Plain;
    if to <= |data| {
      assert data[from..mid] + data[mid..to] == data[from..to];
    }
  }

  lemma QueuedSelf(log: seq<Record>, flight: seq<byte>)
    ensures Queued(log, flight, log, flight)
  {
  }

  lemma QueuedChain(a: seq<Record>, f: seq<byte>, b: seq<Record>, g: seq<byte>, c: seq<Record>, h: seq<byte>)
    requires Queued(a, f, b, g) && Queued(b, g, c, h)
    ensures Queued(a, f, c, h)
  {
    hide Wire;
    var x, y, z := Wire(a), Wire(b), Wire(c);
    assert z == y + z[|y|..] && y == x + y[|x|..];
    assert z[|x|..] == y[|x|..] + z[|y|..];
  }

  lemma StoreTail(front: seq<byte>, tail: seq<byte>, record: seq<byte>)
    ensures front + (tail + record) == front + tail + record
  {
  }

  lemma StoreQueue(front: seq<byte>, queue: seq<byte>, record: seq<byte>)
    ensures front + (queue + record) + [] == front + queue + [] + record
  {
  }

  lemma HandedTail(accepted: seq<byte>, tail: seq<byte>, n: nat)
    requires n <= |tail|
    ensures (accepted + tail[..n]) + [] + tail[n..] == accepted + [] + tail
  {
    assert tail[..n] + tail[n..] == tail;
  }

  // Handing n bytes from the front of the queue to the transport keeps the whole.
  lemma Handed(accepted: seq<byte>, queue: seq<byte>, rest: seq<byte>, n: nat)
    requires n <= |queue|
    ensures (accepted + queue[..n]) + queue[n..] + rest == accepted + queue + rest
  {
    assert queue[..n] + queue[n..] == queue;
  }
}
