// The handshake cannot get stuck, and ends: short of a local refusal, some side can always move, and
// every move leaves less to do.
module TlsProgress {
  import opened Results
  import opened TlsHandshake
  import opened TlsAgreement

  // ---------- what is queued is flushed before a side waits for its peer ----------

  predicate SendingClient(s: ClientState) {
    s.SendClientKeyExchange? || s.SendClientCertificateVerify? || s.SendClientFinished?
  }

  predicate SendingServer(s: ServerState) {
    s.SendServerCertificate? || s.SendServerKeyExchange? || s.SendServerHelloDone? || s.SendServerFinished?
  }

  predicate ClientFlushed(e: Client) {
    e.pending == [] || e.wait.Flush? || e.wait.Failed? || SendingClient(e.state)
  }

  predicate ServerFlushed(e: Server) {
    e.pending == [] || e.wait.Flush? || e.wait.Failed? || SendingServer(e.state)
  }

  predicate ClientWaitOk(p: Params, e: Client) {
    && ClientFlushed(e)
    && (e.wait.Flush? ==> e.state.EnterEarlyData? || e.state.FinishFlight?)
    && (e.wait.ReadMessage? || e.wait.ReadCcs? ==> !SendingClient(e.state))
    && (e.state.ClientDone? ==> e.wait.Proceed?)
  }

  predicate ServerWaitOk(p: Params, e: Server) {
    && ServerFlushed(e)
    && (e.wait.Flush? ==> e.state.ReadClientCertificate? || e.state.ReadClientCcs? || e.state.FinishServer?)
    && (e.wait.ReadMessage? || e.wait.ReadCcs? ==> !SendingServer(e.state))
    && (e.state.ServerDone? ==> e.wait.Proceed?)
  }

  lemma ClientDoFlushed(p: Params, e: Client, inbox: seq<Item>, o: Outcome)
    requires ClientWaitOk(p, e) && e.wait.Proceed? && e.state != ClientDone
    ensures ClientWaitOk(p, ClientDo(p, e, inbox, o).0)
  {
    hide ClientDo, ClientFlushed;
    ClientDoEmits(p, e, inbox, o);
    ClientDoWaits(p, e, inbox, o);
  }

  // Only the states that send leave something queued.
  lemma ClientDoEmits(p: Params, e: Client, inbox: seq<Item>, o: Outcome)
    requires ClientFlushed(e) && e.wait.Proceed? && e.state != ClientDone
    ensures ClientFlushed(ClientDo(p, e, inbox, o).0)
  {
    hide Emit, EmitIf, SendFinished, SwitchWrite;
  }

  // The states in which each wait occurs.
  lemma ClientDoWaits(p: Params, e: Client, inbox: seq<Item>, o: Outcome)
    requires ClientWaitOk(p, e) && e.wait.Proceed? && e.state != ClientDone
    ensures var e' := ClientDo(p, e, inbox, o).0;
            ClientFlushed(e') ==> ClientWaitOk(p, e')
  {
    hide ClientFlushed, Emit, EmitIf, SendFinished, SwitchWrite;
  }

  lemma ServerDoFlushed(p: Params, e: Server, inbox: seq<Item>, o: Outcome)
    requires ServerWaitOk(p, e) && e.wait.Proceed? && e.state != ServerDone
    ensures ServerWaitOk(p, ServerDo(p, e, inbox, o).0)
  {
    hide ServerDo, ServerFlushed;
    ServerDoEmits(p, e, inbox, o);
    ServerDoWaits(p, e, inbox, o);
  }

  // Only the states that send leave something queued.
  lemma ServerDoEmits(p: Params, e: Server, inbox: seq<Item>, o: Outcome)
    requires ServerFlushed(e) && e.wait.Proceed? && e.state != ServerDone
    ensures ServerFlushed(ServerDo(p, e, inbox, o).0)
  {
    hide Emit, EmitIf, SendFinished, SwitchWrite;
  }

  // The states in which each wait occurs.
  lemma ServerDoWaits(p: Params, e: Server, inbox: seq<Item>, o: Outcome)
    requires ServerWaitOk(p, e) && e.wait.Proceed? && e.state != ServerDone
    ensures var e' := ServerDo(p, e, inbox, o).0;
            ServerFlushed(e') ==> ServerWaitOk(p, e')
  {
    hide ServerFlushed, Emit, EmitIf, SendFinished, SwitchWrite;
  }

  lemma StepFlushed(p: Params, y: System, m: Move)
    requires ClientWaitOk(p, y.c) && ServerWaitOk(p, y.s)
    ensures ClientWaitOk(p, SystemStep(p, y, m).c) && ServerWaitOk(p, SystemStep(p, y, m).s)
  {
    hide ClientDo, ServerDo, Available;
    match m
    case ClientMove(o) =>
      if y.c.wait.Proceed? && y.c.state != ClientDone {
        ClientDoFlushed(p, y.c, y.s2c, o);
      }
    case ServerMove(o) =>
      if y.s.wait.Proceed? && y.s.state != ServerDone {
        ServerDoFlushed(p, y.s, y.c2s, o);
      }
  }

  // ---------- what a side that cannot move waits for ----------

  predicate ClientBlocked(e: Client, inbox: seq<Item>) {
    e.wait.Failed? || (e.state.ClientDone? && e.wait.Proceed?) || ((e.wait.ReadMessage? || e.wait.ReadCcs?) && inbox == [])
  }

  predicate ServerBlocked(e: Server, inbox: seq<Item>) {
    e.wait.Failed? || (e.state.ServerDone? && e.wait.Proceed?) || ((e.wait.ReadMessage? || e.wait.ReadCcs?) && inbox == [])
  }

  lemma ClientStands(p: Params, e: Client, inbox: seq<Item>)
    requires ClientStep(p, e, inbox, Works).0 == e
    ensures ClientBlocked(e, inbox)
  {
    hide ClientDo, Available;
    if e.wait.Proceed? && e.state != ClientDone {
      ClientMoves(p, e, inbox, Works);
    }
  }

  lemma ServerStands(p: Params, e: Server, inbox: seq<Item>)
    requires ServerStep(p, e, inbox, Works).0 == e
    ensures ServerBlocked(e, inbox)
  {
    hide ServerDo, Available;
    if e.wait.Proceed? && e.state != ServerDone {
      ServerMoves(p, e, inbox, Works);
    }
  }

  function EndPos(p: Params): nat {
    if p.resumed then 9 else 17
  }

  // A waiting client stands before an item of the server, directly or past empty positions of
  // the first flight.
  lemma ClientAwaits(p: Params, e: Client)
    requires ClientAt(p, e) && (e.wait.ReadMessage? || e.wait.ReadCcs?)
    ensures ClientPos(p, e) < EndPos(p)
    ensures if Peeking(e.state) then !p.resumed && 3 <= ClientPos(p, e) <= 5
            else Slot(p, ClientPos(p, e)).Some? && Slot(p, ClientPos(p, e)).value.side == ServerSide
  {
    hide Msgs;
  }

  lemma ServerAwaits(p: Params, e: Server)
    requires ServerAt(p, e) && (e.wait.ReadMessage? || e.wait.ReadCcs?)
    ensures ServerPos(p, e) < EndPos(p) && (!p.resumed ==> !(1 <= ServerPos(p, e) <= 6))
    ensures Slot(p, ServerPos(p, e)).Some? && Slot(p, ServerPos(p, e)).value.side == ClientSide
  {
    hide Msgs;
  }

  lemma {:induction false} NoItems(p: Params, j: nat, i: nat)
    requires j <= i && Items(p, j, i) == []
    ensures forall k: nat | j <= k < i :: Slot(p, k).None?
    decreases i - j
  {
    hide Slot;
    if j < i {
      NoItems(p, j + 1, i);
    }
  }

  // Nothing in flight: the positions between the two sides are empty.
  lemma NothingBetween(p: Params, gc: nat, gs: nat)
    requires Linked(p, gc, gs, [], [])
    ensures forall k: nat | gc <= k < gs || gs <= k < gc :: Slot(p, k).None?
  {
    hide Slot;
    if gc <= gs {
      NoItems(p, gc, gs);
    } else {
      NoItems(p, gs, gc);
    }
  }

  lemma EndPositions(p: Params, c: Client, s: Server)
    ensures c.state.ClientDone? ==> ClientPos(p, c) == EndPos(p)
    ensures s.state.ServerDone? ==> ServerPos(p, s) == EndPos(p)
    ensures Slot(p, EndPos(p)).None? && Slot(p, EndPos(p) - 1).Some?
    ensures !p.resumed ==> Slot(p, 6).Some? && Slot(p, 6).value.side == ServerSide
  {
    hide Msgs;
  }

  // Where neither side can move and neither was refused locally, both are done.
  lemma StuckIsDone(p: Params, y: System)
    requires Agreed(p, y) && ClientWaitOk(p, y.c) && ServerWaitOk(p, y.s)
    requires ClientBlocked(y.c, y.s2c) && ServerBlocked(y.s, y.c2s) && !y.c.wait.Failed? && !y.s.wait.Failed?
    requires Linked(p, ClientPos(p, y.c), ServerPos(p, y.s), [], [])
    ensures y.c.state.ClientDone? && y.s.state.ServerDone?
  {
    hide Slot, Linked, ClientAt, ServerAt, ClientPos, ServerPos, Agreed;
    assert ClientAt(p, y.c) && ServerAt(p, y.s) by { AgreedParts(p, y); }
    var gc, gs := ClientPos(p, y.c), ServerPos(p, y.s);
    NothingBetween(p, gc, gs);
    EndPositions(p, y.c, y.s);
    if !y.c.state.ClientDone? {
      ClientAwaits(p, y.c);
    }
    if !y.s.state.ServerDone? {
      ServerAwaits(p, y.s);
    }
  }

  lemma AgreedParts(p: Params, y: System)
    requires Agreed(p, y)
    ensures ClientAt(p, y.c) && ServerAt(p, y.s)
    ensures Linked(p, ClientPos(p, y.c), ServerPos(p, y.s), y.c2s + y.c.pending, y.s2c + y.s.pending)
  {
    hide Linked, ClientAt, ServerAt;
  }

  lemma PositionBound(p: Params, c: Client, s: Server)
    requires ClientAt(p, c) && ServerAt(p, s)
    ensures ClientPos(p, c) <= EndPos(p) && ServerPos(p, s) <= EndPos(p)
  {
    hide Msgs, ClientReading, ServerReading;
  }

  lemma NothingFromNothing(p: Params, g: nat)
    ensures Items(p, g, g) == []
  {
  }

  // Two blocked sides have nothing queued and nothing in the channels.
  lemma BlockedChannels(p: Params, y: System)
    requires Agreed(p, y) && ClientWaitOk(p, y.c) && ServerWaitOk(p, y.s)
    requires ClientBlocked(y.c, y.s2c) && ServerBlocked(y.s, y.c2s) && !y.c.wait.Failed? && !y.s.wait.Failed?
    ensures y.c2s + y.c.pending == [] && y.s2c + y.s.pending == []
  {
    hide Slot, ClientAt, ServerAt, ClientPos, ServerPos, Agreed;
    AgreedParts(p, y);
    PositionBound(p, y.c, y.s);
    EndPositions(p, y.c, y.s);
    NothingFromNothing(p, EndPos(p));
    if !y.c.state.ClientDone? {
      ClientAwaits(p, y.c);
    }
    if !y.s.state.ServerDone? {
      ServerAwaits(p, y.s);
    }
  }

  lemma {:induction false} RunFlushed(p: Params, y: System, moves: seq<Move>)
    requires ClientWaitOk(p, y.c) && ServerWaitOk(p, y.s)
    ensures ClientWaitOk(p, SystemRun(p, y, moves).c) && ServerWaitOk(p, SystemRun(p, y, moves).s)
    decreases |moves|
  {
    if moves != [] {
      hide ClientWaitOk, ServerWaitOk, SystemStep;
      StepFlushed(p, y, moves[0]);
      RunFlushed(p, SystemStep(p, y, moves[0]), moves[1..]);
    }
  }

  lemma NotStuck(p: Params, y: System)
    requires Agreed(p, y) && ClientWaitOk(p, y.c) && ServerWaitOk(p, y.s) && !y.c.wait.Failed? && !y.s.wait.Failed?
    requires SystemStep(p, y, ClientMove(Works)) == y && SystemStep(p, y, ServerMove(Works)) == y
    ensures y.c.state.ClientDone? && y.s.state.ServerDone?
  {
    hide Agreed, ClientStep, ServerStep, Linked, ClientBlocked, ServerBlocked;
    ClientStands(p, y.c, y.s2c);
    ServerStands(p, y.s, y.c2s);
    AgreedParts(p, y);
    BlockedChannels(p, y);
    StuckIsDone(p, y);
  }

  // No deadlock: in every reachable state without a local refusal, unless both handshakes are
  // done, one of the two sides can move.
  lemma NoDeadlock(p: Params, moves: seq<Move>)
    requires ParamsOk(p)
    ensures var y := SystemRun(p, START, moves);
            y.c.wait.Failed? || y.s.wait.Failed? || (y.c.state.ClientDone? && y.s.state.ServerDone?)
            || SystemStep(p, y, ClientMove(Works)) != y || SystemStep(p, y, ServerMove(Works)) != y
  {
    hide SystemRun, Agreed, SystemStep, ClientWaitOk, ServerWaitOk;
    StartAgreed(p);
    RunAgrees(p, START, moves);
    StartFlushed(p);
    RunFlushed(p, START, moves);
    var y := SystemRun(p, START, moves);
    if SystemStep(p, y, ClientMove(Works)) == y && SystemStep(p, y, ServerMove(Works)) == y
       && !y.c.wait.Failed? && !y.s.wait.Failed? {
      NotStuck(p, y);
    }
  }

  lemma StartFlushed(p: Params)
    ensures ClientWaitOk(p, START.c) && ServerWaitOk(p, START.s)
  {
  }

  // ---------- the moves left ----------

  // A bound on the moves of a side: up to four for each state ahead of it, and those for what it
  // waits for now.
  function WaitWork(w: Wait, inbox: seq<Item>): nat {
    match w
    case Proceed => if inbox == [] then 2 else 0
    case ReadMessage => 1
    case Failed(_) => 0
    case _ => 3
  }

  function ClientWork(p: Params, e: Client, inbox: seq<Item>): int {
    4 * (23 - ClientRank(e.state, p.resumed)) + WaitWork(e.wait, inbox)
  }

  function ServerWork(p: Params, e: Server, inbox: seq<Item>): int {
    4 * (19 - ServerRank(e.state, p.resumed)) + WaitWork(e.wait, inbox)
  }

  function Work(p: Params, y: System): int {
    ClientWork(p, y.c, y.s2c) + ServerWork(p, y.s, y.c2s)
  }

  lemma WorkBounds(p: Params, y: System)
    ensures ClientWork(p, y.c, y.s2c) >= 0 && ServerWork(p, y.s, y.c2s) >= 0
    ensures Work(p, y) <= 0 ==> y.c.state.ClientDone? && y.s.state.ServerDone?
  {
  }

  // When local operations work, a turn fails only on the peer's message, and waits for a message
  // only when there is none.
  lemma ClientDoWorks(p: Params, e: Client, inbox: seq<Item>)
    requires e.state != ClientDone
    ensures var c' := ClientDo(p, e, inbox, Works).0;
            && c'.wait != Failed(Refused) && !c'.wait.Later?
            && (c'.wait.ReadMessage? ==> c'.state == e.state && c' == e.(wait := ReadMessage) && !Available(e, inbox))
            && (c'.state == e.state ==> c'.wait.ReadMessage? || c'.wait.Failed?)
  {
    hide Emit, EmitIf, SendFinished, SwitchWrite, SwitchRead, Available;
    ClientDoAdvances(p, e, inbox);
  }

  // A turn of working operations that stays in its state waits for a message or fails.
  lemma ClientDoAdvances(p: Params, e: Client, inbox: seq<Item>)
    requires e.state != ClientDone
    ensures var c' := ClientDo(p, e, inbox, Works).0;
            c'.state == e.state ==> c'.wait.ReadMessage? || c'.wait.Failed?
  {
    hide Emit, EmitIf, SendFinished, SwitchWrite, SwitchRead, Available;
  }

  lemma ServerDoWorks(p: Params, e: Server, inbox: seq<Item>)
    requires e.state != ServerDone
    ensures var s' := ServerDo(p, e, inbox, Works).0;
            && s'.wait != Failed(Refused) && !s'.wait.Later?
            && (s'.wait.ReadMessage? ==> s'.state == e.state && s' == e.(wait := ReadMessage) && !Available(e, inbox))
            && (s'.state == e.state ==> s'.wait.ReadMessage? || s'.wait.Failed?)
  {
    hide Emit, EmitIf, SendFinished, SwitchWrite, SwitchRead, Available;
    ServerDoAdvances(p, e, inbox);
  }

  // A turn of working operations that stays in its state waits for a message or fails.
  lemma ServerDoAdvances(p: Params, e: Server, inbox: seq<Item>)
    requires e.state != ServerDone
    ensures var s' := ServerDo(p, e, inbox, Works).0;
            s'.state == e.state ==> s'.wait.ReadMessage? || s'.wait.Failed?
  {
    hide Emit, EmitIf, SendFinished, SwitchWrite, SwitchRead, Available;
  }

  lemma ClientAgreed(p: Params, y: System)
    requires Agreed(p, y)
    ensures p.resumed ==> ResumedClient(y.c.state)
    ensures y.c.wait.Failed? ==> y.c.wait == Failed(Refused)
    ensures y.c.wait.ReadMessage? ==> ClientReading(p, y.c.state)
  {
    hide Linked, ServerAt, Msgs, ClientPos;
  }

  lemma ServerAgreed(p: Params, y: System)
    requires Agreed(p, y)
    ensures p.resumed ==> ResumedServer(y.s.state)
    ensures y.s.wait.Failed? ==> y.s.wait == Failed(Refused)
    ensures y.s.wait.ReadMessage? ==> ServerReading(p, y.s.state)
  {
    hide Linked, ClientAt, Msgs, ServerPos;
  }

  // A move of the client that changes anything leaves less work, and does not fail.
  lemma ClientMoveWorks(p: Params, y: System)
    requires Agreed(p, y) && !y.c.wait.Failed?
    ensures var z := SystemStep(p, y, ClientMove(Works));
            && Agreed(p, z) && !z.c.wait.Failed? && z.s == y.s
            && (z == y || Work(p, z) < Work(p, y))
  {
    hide Agreed, ClientDo, Available, ClientReading, ClientRank, ServerRank, ResumedClient;
    StepAgrees(p, y, ClientMove(Works));
    var z := SystemStep(p, y, ClientMove(Works));
    ClientAgreed(p, y);
    ClientAgreed(p, z);
    assert y.c2s + [] == y.c2s;
    if y.c.wait.Proceed? && y.c.state != ClientDone {
      ClientDoWorks(p, y.c, y.s2c);
      ClientRankRises(p, y.c, y.s2c, Works);
      if z.c.wait.ReadMessage? && y.s2c != [] {
        ClientFindsMessage(p, y);
      }
    }
  }

  lemma ServerMoveWorks(p: Params, y: System)
    requires Agreed(p, y) && !y.s.wait.Failed?
    ensures var z := SystemStep(p, y, ServerMove(Works));
            && Agreed(p, z) && !z.s.wait.Failed? && z.c == y.c
            && (z == y || Work(p, z) < Work(p, y))
  {
    hide Agreed, ServerDo, Available, ServerReading, ClientRank, ServerRank, ResumedServer;
    StepAgrees(p, y, ServerMove(Works));
    var z := SystemStep(p, y, ServerMove(Works));
    ServerAgreed(p, y);
    ServerAgreed(p, z);
    assert y.s2c + [] == y.s2c;
    if y.s.wait.Proceed? && y.s.state != ServerDone {
      ServerDoWorks(p, y.s, y.c2s);
      ServerRankRises(p, y.s, y.c2s, Works);
      if z.s.wait.ReadMessage? && y.c2s != [] {
        ServerFindsMessage(p, y);
      }
    }
  }

  // Turns in alternation, with every local operation working.
  function Rounds(n: nat): (moves: seq<Move>)
    ensures |moves| == 2 * n
  {
    if n == 0 then [] else [ClientMove(Works), ServerMove(Works)] + Rounds(n - 1)
  }

  lemma RoundRun(p: Params, y: System, n: nat)
    requires n > 0
    ensures SystemRun(p, y, Rounds(n))
         == SystemRun(p, SystemStep(p, SystemStep(p, y, ClientMove(Works)), ServerMove(Works)), Rounds(n - 1))
  {
    hide SystemStep;
    var moves := Rounds(n);
    assert moves[1..] == [ServerMove(Works)] + Rounds(n - 1);
    assert moves[1..][1..] == Rounds(n - 1);
  }

  lemma {:induction false} StaysDone(p: Params, y: System, n: nat)
    requires SystemStep(p, y, ClientMove(Works)) == y && SystemStep(p, y, ServerMove(Works)) == y
    ensures SystemRun(p, y, Rounds(n)) == y
    decreases n
  {
    hide SystemStep;
    if n > 0 {
      RoundRun(p, y, n);
      StaysDone(p, y, n - 1);
    }
  }

  lemma {:induction false} RoundsFinish(p: Params, y: System, n: nat)
    requires Agreed(p, y) && ClientWaitOk(p, y.c) && ServerWaitOk(p, y.s) && !y.c.wait.Failed? && !y.s.wait.Failed?
    requires Work(p, y) <= n
    ensures var z := SystemRun(p, y, Rounds(n)); z.c.state.ClientDone? && z.s.state.ServerDone?
    decreases n
  {
    hide Agreed, SystemStep, ClientWaitOk, ServerWaitOk, Work, SystemRun;
    WorkBounds(p, y);
    if n == 0 {
      RunNothing(p, y);
    } else {
      var y1 := SystemStep(p, y, ClientMove(Works));
      var y2 := SystemStep(p, y1, ServerMove(Works));
      ClientMoveWorks(p, y);
      ServerMoveWorks(p, y1);
      if Work(p, y2) < Work(p, y) {
        StepFlushed(p, y, ClientMove(Works));
        StepFlushed(p, y1, ServerMove(Works));
        RoundsFinish(p, y2, n - 1);
        RoundRun(p, y, n);
      } else {
        NotStuck(p, y);
        StaysDone(p, y, n);
      }
    }
  }

  lemma RunNothing(p: Params, y: System)
    ensures SystemRun(p, y, Rounds(0)) == y
  {
  }

  // Termination: when every local operation works, 172 turns of each side in alternation complete
  // both handshakes, with the same transcript.
  lemma Finishes(p: Params)
    requires ParamsOk(p)
    ensures var y := SystemRun(p, START, Rounds(172));
            y.c.state.ClientDone? && y.s.state.ServerDone? && y.c.transcript == y.s.transcript
  {
    hide SystemRun, Agreed, ClientWaitOk, ServerWaitOk, Rounds;
    StartAgreed(p);
    StartFlushed(p);
    RoundsFinish(p, START, 172);
    TranscriptsAgree(p, Rounds(172));
  }
}
