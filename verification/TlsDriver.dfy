// The driver over the code of both sides: what a call does is a run of moves of the system.
module TlsDriver {
  import opened TlsHandshake
  import opened TlsAgreement
  import opened TlsHandshakeCode

  // The moves of the turns of ssl_client_handshake.
  function ClientPath(p: Params, e: Client, inbox: seq<Item>, outcomes: nat -> Outcome, i: nat): seq<Move>
    requires p.resumed ==> ResumedClient(e.state)
    decreases 23 - ClientRank(e.state, p.resumed)
  {
    if e.state == ClientDone then []
    else
      var (e', inbox') := ClientDo(p, e, inbox, outcomes(i));
      ClientRankRises(p, e, inbox, outcomes(i));
      [ClientMove(outcomes(i))] + if e'.wait.Proceed? then ClientPath(p, e', inbox', outcomes, i + 1) else []
  }

  function ServerPath(p: Params, e: Server, inbox: seq<Item>, outcomes: nat -> Outcome, i: nat): seq<Move>
    requires p.resumed ==> ResumedServer(e.state)
    decreases 19 - ServerRank(e.state, p.resumed)
  {
    if e.state == ServerDone then []
    else
      var (e', inbox') := ServerDo(p, e, inbox, outcomes(i));
      ServerRankRises(p, e, inbox, outcomes(i));
      [ServerMove(outcomes(i))] + if e'.wait.Proceed? then ServerPath(p, e', inbox', outcomes, i + 1) else []
  }

  lemma RunFirst(p: Params, y: System, m: Move, moves: seq<Move>)
    ensures SystemRun(p, y, [m] + moves) == SystemRun(p, SystemStep(p, y, m), moves)
  {
    hide SystemStep;
    assert ([m] + moves)[1..] == moves;
  }

  lemma {:induction false} RunAppend(p: Params, y: System, a: seq<Move>, b: seq<Move>)
    ensures SystemRun(p, y, a + b) == SystemRun(p, SystemRun(p, y, a), b)
    decreases |a|
  {
    hide SystemStep;
    if a == [] {
      assert a + b == b;
    } else {
      assert [a[0]] + a[1..] == a && [a[0]] + (a[1..] + b) == a + b;
      RunFirst(p, y, a[0], a[1..]);
      RunFirst(p, y, a[0], a[1..] + b);
      RunAppend(p, SystemStep(p, y, a[0]), a[1..], b);
    }
  }

  lemma ClientStepIsDo(p: Params, y: System, o: Outcome)
    requires y.c.wait.Proceed? && y.c.state != ClientDone
    ensures SystemStep(p, y, ClientMove(o)) == y.(c := ClientDo(p, y.c, y.s2c, o).0, s2c := ClientDo(p, y.c, y.s2c, o).1)
  {
    hide ClientDo;
    assert y.c2s + [] == y.c2s;
  }

  lemma ServerStepIsDo(p: Params, y: System, o: Outcome)
    requires y.s.wait.Proceed? && y.s.state != ServerDone
    ensures SystemStep(p, y, ServerMove(o)) == y.(s := ServerDo(p, y.s, y.c2s, o).0, c2s := ServerDo(p, y.s, y.c2s, o).1)
  {
    hide ServerDo;
    assert y.s2c + [] == y.s2c;
  }

  lemma {:induction false} ClientLoopRuns(p: Params, y: System, outcomes: nat -> Outcome, i: nat)
    requires y.c.wait.Proceed? && (p.resumed ==> ResumedClient(y.c.state))
    ensures var (e, inbox) := ClientLoop(p, y.c, y.s2c, outcomes, i);
            SystemRun(p, y, ClientPath(p, y.c, y.s2c, outcomes, i)) == y.(c := e, s2c := inbox)
    decreases 23 - ClientRank(y.c.state, p.resumed)
  {
    hide ClientDo, SystemStep, ResumedClient;
    if y.c.state != ClientDone {
      var o := outcomes(i);
      var z := SystemStep(p, y, ClientMove(o));
      ClientStepIsDo(p, y, o);
      ClientRankRises(p, y.c, y.s2c, o);
      if z.c.wait.Proceed? {
        ClientLoopRuns(p, z, outcomes, i + 1);
        RunFirst(p, y, ClientMove(o), ClientPath(p, z.c, z.s2c, outcomes, i + 1));
      } else {
        RunFirst(p, y, ClientMove(o), []);
      }
    }
  }

  lemma {:induction false} ServerLoopRuns(p: Params, y: System, outcomes: nat -> Outcome, i: nat)
    requires y.s.wait.Proceed? && (p.resumed ==> ResumedServer(y.s.state))
    ensures var (e, inbox) := ServerLoop(p, y.s, y.c2s, outcomes, i);
            SystemRun(p, y, ServerPath(p, y.s, y.c2s, outcomes, i)) == y.(s := e, c2s := inbox)
    decreases 19 - ServerRank(y.s.state, p.resumed)
  {
    hide ServerDo, SystemStep, ResumedServer;
    if y.s.state != ServerDone {
      var o := outcomes(i);
      var z := SystemStep(p, y, ServerMove(o));
      ServerStepIsDo(p, y, o);
      ServerRankRises(p, y.s, y.c2s, o);
      if z.s.wait.Proceed? {
        ServerLoopRuns(p, z, outcomes, i + 1);
        RunFirst(p, y, ServerMove(o), ServerPath(p, z.s, z.c2s, outcomes, i + 1));
      } else {
        RunFirst(p, y, ServerMove(o), []);
      }
    }
  }

  lemma ClientResolveRuns(p: Params, y: System, o: Outcome)
    requires !(y.c.wait.Proceed? && y.c.state != ClientDone)
    ensures var (e, inbox, out) := Resolve(y.c, y.s2c);
            SystemRun(p, y, [ClientMove(o)]) == y.(c := e, s2c := inbox, c2s := y.c2s + out)
  {
    hide ClientDo;
    assert [ClientMove(o)] == [ClientMove(o)] + [];
    RunFirst(p, y, ClientMove(o), []);
  }

  lemma ServerResolveRuns(p: Params, y: System, o: Outcome)
    requires !(y.s.wait.Proceed? && y.s.state != ServerDone)
    ensures var (e, inbox, out) := Resolve(y.s, y.c2s);
            SystemRun(p, y, [ServerMove(o)]) == y.(s := e, c2s := inbox, s2c := y.s2c + out)
  {
    hide ServerDo;
    assert [ServerMove(o)] == [ServerMove(o)] + [];
    RunFirst(p, y, ServerMove(o), []);
  }

  // One turn of ssl_run_handshake over the client's state machine: the machine runs until it
  // waits, and the wait is resolved. The system moves accordingly, and stays agreed.
  method ClientCall(p: Params, hs: Handshake<ClientState>, outcomes: nat -> Outcome, ghost y: System)
    returns (out: seq<Item>, ghost moves: seq<Move>)
    requires y.c == hs.Snap() && y.s2c == hs.inbox && hs.wait.Proceed? && (p.resumed ==> ResumedClient(hs.state))
    modifies hs
    ensures SystemRun(p, y, moves) == System(hs.Snap(), y.s, y.c2s + out, hs.inbox)
    ensures Agreed(p, y) ==> Agreed(p, SystemRun(p, y, moves))
  {
    hide ClientDo, SystemRun, ClientLoop, Agreed, Resolve, ResumedClient;
    ClientLoopRuns(p, y, outcomes, 0);
    ghost var turns := ClientPath(p, hs.Snap(), hs.inbox, outcomes, 0);
    ClientHandshake(p, hs, outcomes);
    ghost var z := SystemRun(p, y, turns);
    ClientResolveRuns(p, z, Works);
    out := hs.ResolveWait();
    moves := turns + [ClientMove(Works)];
    RunAppend(p, y, turns, [ClientMove(Works)]);
    if Agreed(p, y) {
      RunAgrees(p, y, moves);
    }
  }

  // The same over the server's state machine.
  method ServerCall(p: Params, hs: Handshake<ServerState>, outcomes: nat -> Outcome, ghost y: System)
    returns (out: seq<Item>, ghost moves: seq<Move>)
    requires y.s == hs.Snap() && y.c2s == hs.inbox && hs.wait.Proceed? && (p.resumed ==> ResumedServer(hs.state))
    modifies hs
    ensures SystemRun(p, y, moves) == System(y.c, hs.Snap(), hs.inbox, y.s2c + out)
    ensures Agreed(p, y) ==> Agreed(p, SystemRun(p, y, moves))
  {
    hide ServerDo, SystemRun, ServerLoop, Agreed, Resolve, ResumedServer;
    ServerLoopRuns(p, y, outcomes, 0);
    ghost var turns := ServerPath(p, hs.Snap(), hs.inbox, outcomes, 0);
    ServerHandshake(p, hs, outcomes);
    ghost var z := SystemRun(p, y, turns);
    ServerResolveRuns(p, z, Works);
    out := hs.ResolveWait();
    moves := turns + [ServerMove(Works)];
    RunAppend(p, y, turns, [ServerMove(Works)]);
    if Agreed(p, y) {
      RunAgrees(p, y, moves);
    }
  }
}
