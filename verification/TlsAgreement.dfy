// Client and server over FIFO channels: every message is the expected one and both sides agree on
// the transcript at each Finished.
module TlsAgreement {
  import opened Results
  import opened TlsHandshake

  // ---------- the order of a handshake (section 7.3 of RFC 5246) ----------

  datatype Side = ClientSide | ServerSide

  datatype Entry = Entry(side: Side, item: Item)

  function From(side: Side, b: bool, m: Msg, epoch: nat): Option<Entry> {
    if b then Some(Entry(side, Hs(m, epoch))) else None
  }

  // Position g of the handshake: the item sent there, if these parameters have one.
  function Slot(p: Params, g: nat): Option<Entry>
    decreases g, 1
  {
    if p.resumed then
      match g
      case 0 => From(ClientSide, true, Plain(ClientHello), 0)
      case 1 => From(ServerSide, true, Plain(ServerHello), 0)
      case 2 => From(ServerSide, p.ticket, Plain(NewSessionTicket), 0)
      case 3 => Some(Entry(ServerSide, Ccs(0)))
      case 4 => From(ServerSide, true, Msg(Finished, false, Msgs(p, 4)), 1)
      case 5 => Some(Entry(ClientSide, Ccs(0)))
      case 6 => From(ClientSide, p.npn, Plain(NextProto), 1)
      case 7 => From(ClientSide, p.channelId, Plain(ChannelId), 1)
      case 8 => From(ClientSide, true, Msg(Finished, false, Msgs(p, 8)), 1)
      case _ => None
    else
      match g
      case 0 => From(ClientSide, true, Plain(ClientHello), 0)
      case 1 => From(ServerSide, true, Plain(ServerHello), 0)
      case 2 => From(ServerSide, p.certAuth, Msg(Certificate, true, []), 0)
      case 3 => From(ServerSide, p.certAuth && p.ocsp, Plain(CertificateStatus), 0)
      case 4 => From(ServerSide, SendsSke(p), Plain(ServerKeyExchange), 0)
      case 5 => From(ServerSide, p.certReq, Plain(CertificateRequest), 0)
      case 6 => From(ServerSide, true, Plain(ServerHelloDone), 0)
      case 7 => From(ClientSide, p.certReq, Msg(Certificate, p.clientCert, []), 0)
      case 8 => From(ClientSide, true, Plain(ClientKeyExchange), 0)
      case 9 => From(ClientSide, p.certReq && p.clientCert, Plain(CertificateVerify), 0)
      case 10 => Some(Entry(ClientSide, Ccs(0)))
      case 11 => From(ClientSide, p.npn, Plain(NextProto), 1)
      case 12 => From(ClientSide, p.channelId, Plain(ChannelId), 1)
      case 13 => From(ClientSide, true, Msg(Finished, false, Msgs(p, 13)), 1)
      case 14 => From(ServerSide, p.ticket, Plain(NewSessionTicket), 0)
      case 15 => Some(Entry(ServerSide, Ccs(0)))
      case 16 => From(ServerSide, true, Msg(Finished, false, Msgs(p, 16)), 1)
      case _ => None
  }

  function Hashed(e: Option<Entry>): seq<Msg> {
    if e.Some? && e.value.item.Hs? then [e.value.item.msg] else []
  }

  // The handshake messages before position g: the transcript of a side that stands there.
  function Msgs(p: Params, g: nat): seq<Msg>
    decreases g, 0
  {
    if g == 0 then [] else Msgs(p, g - 1) + Hashed(Slot(p, g - 1))
  }

  function Sent(e: Option<Entry>): seq<Item> {
    if e.Some? then [e.value.item] else []
  }

  // The items of the positions from j to i.
  function Items(p: Params, j: nat, i: nat): seq<Item>
    requires j <= i
    decreases i - j
  {
    if j == i then [] else Sent(Slot(p, j)) + Items(p, j + 1, i)
  }

  predicate Owned(p: Params, j: nat, i: nat, side: Side) {
    forall k: nat | j <= k < i :: Slot(p, k).Some? ==> Slot(p, k).value.side == side
  }

  // With the client at gc and the server at gs, the side that is ahead has sent what lies
  // between, and the other side owes nothing.
  predicate Linked(p: Params, gc: nat, gs: nat, c2s: seq<Item>, s2c: seq<Item>) {
    if gs <= gc then c2s == Items(p, gs, gc) && Owned(p, gs, gc, ClientSide) && s2c == []
    else s2c == Items(p, gc, gs) && Owned(p, gc, gs, ServerSide) && c2s == []
  }

  lemma {:induction false} ItemsAppend(p: Params, j: nat, i: nat)
    requires j <= i
    ensures Items(p, j, i + 1) == Items(p, j, i) + Sent(Slot(p, i))
    decreases i - j
  {
    hide Slot;
    if j < i {
      ItemsAppend(p, j + 1, i);
      assert Sent(Slot(p, j)) + (Items(p, j + 1, i) + Sent(Slot(p, i))) == (Sent(Slot(p, j)) + Items(p, j + 1, i)) + Sent(Slot(p, i));
    } else {
      assert Sent(Slot(p, i)) + [] == [] + Sent(Slot(p, i));
    }
  }

  // ---------- the three kinds of moves ----------

  lemma SkipC(p: Params, gc: nat, gs: nat, c2s: seq<Item>, s2c: seq<Item>)
    requires Linked(p, gc, gs, c2s, s2c) && Slot(p, gc).None?
    ensures Linked(p, gc + 1, gs, c2s, s2c)
  {
    hide Slot;
    if gs <= gc {
      ItemsAppend(p, gs, gc);
    } else if gs == gc + 1 {
      assert Items(p, gs, gs) == [];
    }
  }

  lemma WriteC(p: Params, gc: nat, gs: nat, c2s: seq<Item>, s2c: seq<Item>)
    requires Linked(p, gc, gs, c2s, s2c) && Slot(p, gc).Some? && Slot(p, gc).value.side == ClientSide
    ensures gs <= gc && Linked(p, gc + 1, gs, c2s + [Slot(p, gc).value.item], s2c)
  {
    hide Slot;
    assert gs <= gc;
    ItemsAppend(p, gs, gc);
  }

  lemma ReadC(p: Params, gc: nat, gs: nat, c2s: seq<Item>, s2c: seq<Item>)
    requires Linked(p, gc, gs, c2s, s2c) && Slot(p, gc).Some? && Slot(p, gc).value.side == ServerSide
    ensures s2c != [] ==> s2c[0] == Slot(p, gc).value.item && Linked(p, gc + 1, gs, c2s, s2c[1..])
  {
    hide Slot;
    if s2c != [] {
      assert gc < gs;
      assert s2c == [Slot(p, gc).value.item] + Items(p, gc + 1, gs);
      assert s2c[1..] == Items(p, gc + 1, gs);
    }
  }

  // The next item for a side that stands before some empty positions.
  lemma {:induction false} HeadC(p: Params, gc: nat, gs: nat, c2s: seq<Item>, s2c: seq<Item>) returns (k: nat)
    requires Linked(p, gc, gs, c2s, s2c) && s2c != []
    ensures gc <= k < gs && Slot(p, k) == Some(Entry(ServerSide, s2c[0]))
    ensures forall j: nat | gc <= j < k :: Slot(p, j).None?
    decreases gs - gc
  {
    hide Slot;
    assert gc < gs;
    if Slot(p, gc).Some? {
      ReadC(p, gc, gs, c2s, s2c);
      k := gc;
    } else {
      SkipC(p, gc, gs, c2s, s2c);
      k := HeadC(p, gc + 1, gs, c2s, s2c);
    }
  }

  lemma SkipS(p: Params, gc: nat, gs: nat, c2s: seq<Item>, s2c: seq<Item>)
    requires Linked(p, gc, gs, c2s, s2c) && Slot(p, gs).None?
    ensures Linked(p, gc, gs + 1, c2s, s2c)
  {
    hide Slot;
    if gc <= gs {
      if gc < gs {
        ItemsAppend(p, gc, gs);
      } else {
        ItemsAppend(p, gc, gc);
        assert Items(p, gc, gc) == [];
      }
    }
  }

  lemma WriteS(p: Params, gc: nat, gs: nat, c2s: seq<Item>, s2c: seq<Item>)
    requires Linked(p, gc, gs, c2s, s2c) && Slot(p, gs).Some? && Slot(p, gs).value.side == ServerSide
    ensures gc <= gs && Linked(p, gc, gs + 1, c2s, s2c + [Slot(p, gs).value.item])
  {
    hide Slot;
    assert gc <= gs;
    ItemsAppend(p, gc, gs);
    assert Items(p, gc, gc) == [];
  }

  lemma ReadS(p: Params, gc: nat, gs: nat, c2s: seq<Item>, s2c: seq<Item>)
    requires Linked(p, gc, gs, c2s, s2c) && Slot(p, gs).Some? && Slot(p, gs).value.side == ClientSide
    ensures c2s != [] ==> c2s[0] == Slot(p, gs).value.item && Linked(p, gc, gs + 1, c2s[1..], s2c)
  {
    hide Slot;
    if c2s != [] {
      assert gs < gc;
      assert c2s == [Slot(p, gs).value.item] + Items(p, gs + 1, gc);
      assert c2s[1..] == Items(p, gs + 1, gc);
    }
  }

  // ---------- where each side stands ----------

  function ClientPos(p: Params, e: Client): nat {
    match e.state
    case StartConnect => 0
    case EnterEarlyData => 1
    case ReadServerHello => 1
    case ReadServerCertificate => 2
    case ReadCertificateStatus => 3
    case VerifyServerCertificate => 4
    case ReadServerKeyExchange => 4
    case ReadCertificateRequest => 5
    case ReadServerHelloDone => 6
    case SendClientCertificate => 7
    case SendClientKeyExchange => 8
    case SendClientCertificateVerify => 9
    case SendClientFinished => if p.resumed then 5 else 10
    case FinishFlight => if p.resumed then 9 else 14
    case ReadSessionTicket => if p.resumed then 2 else 14
    case ProcessServerCcs => (if p.resumed then 3 else 15) + if e.wait.ReadCcs? then 0 else 1
    case ReadServerFinished => if p.resumed then 4 else 16
    case FinishClient => if p.resumed then 9 else 17
    case ClientDone => if p.resumed then 9 else 17
  }

  function ServerPos(p: Params, e: Server): nat {
    match e.state
    case StartAccept => 0
    case ReadClientHello => 0
    case SelectCertificate => 0
    case SelectParameters => 0
    case SendServerHello => 1
    case SendServerCertificate => 2
    case SendServerKeyExchange => 4
    case SendServerHelloDone => 5
    case ReadClientCertificate => 7
    case VerifyClientCertificate => 8
    case ReadClientKeyExchange => 8
    case ReadClientCertificateVerify => 9
    case ReadClientCcs => if p.resumed then 5 else 10
    case ProcessClientCcs => (if p.resumed then 5 else 10) + if e.wait.ReadCcs? then 0 else 1
    case ReadNextProto => if p.resumed then 6 else 11
    case ReadChannelId => if p.resumed then 7 else 12
    case ReadClientFinished => if p.resumed then 8 else 13
    case SendServerFinished => if p.resumed then 2 else 14
    case FinishServer => if p.resumed then 9 else 17
    case ServerDone => if p.resumed then 9 else 17
  }

  function ClientReadEpoch(p: Params, s: ClientState): nat {
    if s.ReadServerFinished? || s.FinishClient? || s.ClientDone? || (p.resumed && (s.SendClientFinished? || s.FinishFlight?))
    then 1 else 0
  }

  function ClientWriteEpoch(p: Params, s: ClientState): nat {
    if s.FinishFlight? || s.FinishClient? || s.ClientDone?
       || (!p.resumed && (s.ReadSessionTicket? || s.ProcessServerCcs? || s.ReadServerFinished?))
    then 1 else 0
  }

  function ServerReadEpoch(p: Params, s: ServerState): nat {
    if s.ReadNextProto? || s.ReadChannelId? || s.ReadClientFinished? || s.FinishServer? || s.ServerDone?
       || (!p.resumed && s.SendServerFinished?)
    then 1 else 0
  }

  function ServerWriteEpoch(p: Params, s: ServerState): nat {
    if s.FinishServer? || s.ServerDone?
       || (p.resumed && (s.ReadClientCcs? || s.ProcessClientCcs? || s.ReadNextProto? || s.ReadChannelId? || s.ReadClientFinished?))
    then 1 else 0
  }

  // The states in which the client has seen whether a certificate was requested.
  predicate AskedClient(s: ClientState) {
    s.ReadServerHelloDone? || s.SendClientCertificate? || s.SendClientKeyExchange? || s.SendClientCertificateVerify?
  }

  // The states in which the server has seen whether there is a client certificate.
  predicate AnsweredServer(s: ServerState) {
    s.VerifyClientCertificate? || s.ReadClientKeyExchange? || s.ReadClientCertificateVerify?
  }

  // The states that ask for a message.
  predicate ClientReading(p: Params, s: ClientState) {
    || s.ReadServerHello? || (s.ReadServerCertificate? && p.certAuth) || (s.ReadCertificateStatus? && p.ocsp)
    || s.ReadServerKeyExchange? || (s.ReadCertificateRequest? && p.certAuth) || s.ReadServerHelloDone?
    || (s.ReadSessionTicket? && p.ticket) || s.ReadServerFinished?
  }

  predicate ServerReading(p: Params, s: ServerState) {
    || s.ReadClientHello? || s.SelectCertificate? || s.SelectParameters? || (s.ReadClientCertificate? && p.certReq)
    || s.ReadClientKeyExchange? || (s.ReadClientCertificateVerify? && p.certReq && p.clientCert)
    || (s.ReadNextProto? && p.npn) || (s.ReadChannelId? && p.channelId) || s.ReadClientFinished?
  }

  predicate ClientAt(p: Params, e: Client) {
    && (p.resumed ==> ResumedClient(e.state))
    && e.transcript == Msgs(p, ClientPos(p, e))
    && e.readEpoch == ClientReadEpoch(p, e.state) && e.writeEpoch == ClientWriteEpoch(p, e.state)
    && (AskedClient(e.state) ==> e.certRequest == p.certReq)
    && (ClientPos(p, e) <= 5 ==> !e.certRequest)
    && (e.wait.ReadCcs? ==> e.state.ProcessServerCcs?)
    && (e.state.ProcessServerCcs? ==> e.wait.ReadCcs? || e.wait.Proceed? || e.wait == Failed(Refused))
    && (e.wait.Failed? ==> e.wait == Failed(Refused))
    && (e.wait.ReadMessage? ==> ClientReading(p, e.state))
  }

  predicate ServerAt(p: Params, e: Server) {
    && (p.resumed ==> ResumedServer(e.state))
    && e.transcript == Msgs(p, ServerPos(p, e))
    && e.readEpoch == ServerReadEpoch(p, e.state) && e.writeEpoch == ServerWriteEpoch(p, e.state)
    && (AnsweredServer(e.state) ==> e.peerCert == (p.certReq && p.clientCert))
    && (ServerPos(p, e) <= 7 ==> !e.peerCert)
    && (e.wait.ReadCcs? ==> e.state.ProcessClientCcs?)
    && (e.state.ProcessClientCcs? ==> e.wait.ReadCcs? || e.wait.Proceed? || e.wait == Failed(Refused))
    && (e.wait.Failed? ==> e.wait == Failed(Refused))
    && (e.wait.ReadMessage? ==> ServerReading(p, e.state))
  }

  // Both sides and the channels between them.
  datatype System = System(c: Client, s: Server, c2s: seq<Item>, s2c: seq<Item>)

  predicate Agreed(p: Params, y: System) {
    && ParamsOk(p) && ClientAt(p, y.c) && ServerAt(p, y.s)
    && Linked(p, ClientPos(p, y.c), ServerPos(p, y.s), y.c2s + y.c.pending, y.s2c + y.s.pending)
  }

  lemma StartAgreed(p: Params)
    requires ParamsOk(p)
    ensures Agreed(p, System(NEW_CLIENT, NEW_SERVER, [], []))
  {
    assert Msgs(p, 0) == [] && Items(p, 0, 0) == [];
  }

  // ---------- reading what is expected ----------

  // The inbox is the front of the channel, whose first item is item.
  lemma ReadExpected<S>(e: Endpoint<S>, inbox: seq<Item>, k: Kind, s: S, m: Msg)
    requires inbox != [] ==> inbox[0] == Hs(m, e.readEpoch)
    requires m.kind == k
    ensures Read(e, inbox, k, s)
         == if inbox == [] then (e.(wait := ReadMessage), inbox)
            else (e.(transcript := e.transcript + [m], state := s, wait := Proceed), inbox[1..])
  {
  }

  lemma FinishedExpected<S>(e: Endpoint<S>, inbox: seq<Item>, s: S, m: Msg)
    requires inbox != [] ==> inbox[0] == Hs(m, e.readEpoch)
    requires m == Msg(Finished, false, e.transcript)
    ensures ReadFinished(e, inbox, s)
         == if inbox == [] then (e.(wait := ReadMessage), inbox)
            else (e.(transcript := e.transcript + [m], state := s, wait := Proceed, log := e.log + [VerifiedFinished]), inbox[1..])
  {
  }

  lemma FrontOf(a: seq<Item>, b: seq<Item>)
    ensures a != [] ==> a + b != [] && (a + b)[0] == a[0] && (a + b)[1..] == a[1..] + b
  {
  }

  // The client at a position whose item is the server's message m: what its inbox holds.
  lemma ClientInbox(p: Params, y: System)
    requires Agreed(p, y)
    requires Slot(p, ClientPos(p, y.c)).Some? && Slot(p, ClientPos(p, y.c)).value.side == ServerSide
    ensures var g := ClientPos(p, y.c);
            y.s2c != [] ==>
              && y.s2c[0] == Slot(p, g).value.item
              && Linked(p, g + 1, ServerPos(p, y.s), y.c2s + y.c.pending, y.s2c[1..] + y.s.pending)
  {
    hide Slot, Linked, ClientAt, ServerAt;
    FrontOf(y.s2c, y.s.pending);
    ReadC(p, ClientPos(p, y.c), ServerPos(p, y.s), y.c2s + y.c.pending, y.s2c + y.s.pending);
  }

  // One turn of the client within the system.
  function ClientTurn(p: Params, y: System, o: Outcome): System
    requires y.c.state != ClientDone
  {
    var (c', inbox') := ClientDo(p, y.c, y.s2c, o);
    y.(c := c', s2c := inbox')
  }

  // A turn that moves on without a message.
  lemma ClientSkips(p: Params, y: System, o: Outcome, c': Client)
    requires Agreed(p, y) && y.c.state != ClientDone
    requires ClientDo(p, y.c, y.s2c, o) == (c', y.s2c) && c'.pending == y.c.pending && ClientAt(p, c')
    requires ClientPos(p, c') == ClientPos(p, y.c)
          || (ClientPos(p, c') == ClientPos(p, y.c) + 1 && Slot(p, ClientPos(p, y.c)).None?)
    ensures Agreed(p, ClientTurn(p, y, o))
  {
    hide Slot, Linked, ClientDo, ServerAt, ClientAt, ClientPos;
    if ClientPos(p, c') != ClientPos(p, y.c) {
      SkipC(p, ClientPos(p, y.c), ServerPos(p, y.s), y.c2s + y.c.pending, y.s2c + y.s.pending);
    }
  }

  // A turn that sends the message at the client's position.
  lemma ClientSends(p: Params, y: System, o: Outcome, c': Client, item: Item)
    requires Agreed(p, y) && y.c.state != ClientDone
    requires ClientDo(p, y.c, y.s2c, o) == (c', y.s2c) && c'.pending == y.c.pending + [item] && ClientAt(p, c')
    requires ClientPos(p, c') == ClientPos(p, y.c) + 1 && Slot(p, ClientPos(p, y.c)) == Some(Entry(ClientSide, item))
    ensures Agreed(p, ClientTurn(p, y, o))
  {
    hide Slot, Linked, ClientDo, ServerAt, ClientAt, ClientPos;
    WriteC(p, ClientPos(p, y.c), ServerPos(p, y.s), y.c2s + y.c.pending, y.s2c + y.s.pending);
    assert y.c2s + (y.c.pending + [item]) == (y.c2s + y.c.pending) + [item];
  }

  // A turn that only waits.
  lemma ClientWaits(p: Params, y: System, o: Outcome, w: Wait)
    requires Agreed(p, y) && y.c.state != ClientDone && y.c.wait.Proceed?
    requires ClientDo(p, y.c, y.s2c, o) == (y.c.(wait := w), y.s2c)
    requires w == Failed(Refused) || (w.ReadMessage? && ClientReading(p, y.c.state)) || w.Later?
    requires y.c.state.ProcessServerCcs? ==> w.Failed?
    ensures Agreed(p, ClientTurn(p, y, o))
  {
    hide Slot, Linked, ClientDo, ServerAt;
    ClientSkips(p, y, o, y.c.(wait := w));
  }

  // A turn that reads the message at the client's position.
  lemma ClientReads(p: Params, y: System, o: Outcome, k: Kind, t: ClientState)
    requires Agreed(p, y) && y.c.state != ClientDone && y.c.wait.Proceed? && ClientReading(p, y.c.state)
    requires var x := Slot(p, ClientPos(p, y.c));
             x.Some? && x.value.side == ServerSide && x.value.item.Hs? && x.value.item.epoch == y.c.readEpoch
             && x.value.item.msg.kind == k
    requires ClientDo(p, y.c, y.s2c, o) == Read(y.c, y.s2c, k, t)
    requires var c' := y.c.(transcript := Msgs(p, ClientPos(p, y.c) + 1), state := t, wait := Proceed);
             ClientPos(p, c') == ClientPos(p, y.c) + 1 && ClientAt(p, c')
    ensures Agreed(p, ClientTurn(p, y, o))
  {
    hide Slot, Linked, ClientDo, ServerAt, Read;
    var g := ClientPos(p, y.c);
    var m := Slot(p, g).value.item.msg;
    ClientInbox(p, y);
    ReadExpected(y.c, y.s2c, k, t, m);
    assert Msgs(p, g + 1) == Msgs(p, g) + [m];
  }

  // ---------- the turns of the client ----------

  lemma MsgsStep(p: Params, g: nat)
    ensures Msgs(p, g + 1) == Msgs(p, g) + Hashed(Slot(p, g))
    ensures Slot(p, g).None? ==> Msgs(p, g + 1) == Msgs(p, g)
  {
    hide Slot;
  }

  lemma FirstSlots(p: Params)
    ensures Slot(p, 0) == Some(Entry(ClientSide, Hs(Plain(ClientHello), 0)))
    ensures Slot(p, 1) == Some(Entry(ServerSide, Hs(Plain(ServerHello), 0)))
  {
    hide Msgs;
  }

  lemma ClientStartConnect(p: Params, y: System, o: Outcome)
    requires Agreed(p, y) && y.c.wait.Proceed? && !o.Fails? && y.c.state.StartConnect?
    ensures Agreed(p, ClientTurn(p, y, o))
  {
    hide Slot, Linked, ServerAt, ServerPos, Msgs;
    FirstSlots(p);
    MsgsStep(p, ClientPos(p, y.c));
    ClientSends(p, y, o, ClientDo(p, y.c, y.s2c, o).0, Hs(Plain(ClientHello), 0));
  }

  lemma ClientEnterEarlyData(p: Params, y: System, o: Outcome)
    requires Agreed(p, y) && y.c.wait.Proceed? && !o.Fails? && y.c.state.EnterEarlyData?
    ensures Agreed(p, ClientTurn(p, y, o))
  {
    hide Slot, Linked, ServerAt, ServerPos, Msgs;
    FirstSlots(p);
    MsgsStep(p, ClientPos(p, y.c));
    ClientSkips(p, y, o, ClientDo(p, y.c, y.s2c, o).0);
  }

  lemma ClientReadServerHello(p: Params, y: System, o: Outcome)
    requires Agreed(p, y) && y.c.wait.Proceed? && !o.Fails? && y.c.state.ReadServerHello?
    ensures Agreed(p, ClientTurn(p, y, o))
  {
    hide Slot, Linked, ServerAt, ServerPos, Msgs, Read;
    FirstSlots(p);
    MsgsStep(p, ClientPos(p, y.c));
    ClientReads(p, y, o, ServerHello, if p.resumed then ReadSessionTicket else ReadServerCertificate);
  }

  lemma ClientReadServerCertificate(p: Params, y: System, o: Outcome)
    requires Agreed(p, y) && y.c.wait.Proceed? && !o.Fails? && y.c.state.ReadServerCertificate?
    ensures Agreed(p, ClientTurn(p, y, o))
  {
    hide Linked, ServerAt, ServerPos, Msgs, Read;
    MsgsStep(p, ClientPos(p, y.c));
    if p.certAuth {
      ClientReads(p, y, o, Certificate, ReadCertificateStatus);
    } else {
      ClientSkips(p, y, o, ClientDo(p, y.c, y.s2c, o).0);
    }
  }

  lemma ClientVerifyServerCertificate(p: Params, y: System, o: Outcome)
    requires Agreed(p, y) && y.c.wait.Proceed? && !o.Fails? && y.c.state.VerifyServerCertificate?
    ensures Agreed(p, ClientTurn(p, y, o))
  {
    hide Linked, ServerAt, ServerPos, Msgs;
    MsgsStep(p, ClientPos(p, y.c));
    if p.certAuth && o.NotYet? {
      ClientWaits(p, y, o, Later);
    } else {
      ClientSkips(p, y, o, ClientDo(p, y.c, y.s2c, o).0);
    }
  }

  lemma ClientReadServerHelloDone(p: Params, y: System, o: Outcome)
    requires Agreed(p, y) && y.c.wait.Proceed? && !o.Fails? && y.c.state.ReadServerHelloDone?
    ensures Agreed(p, ClientTurn(p, y, o))
  {
    hide Linked, ServerAt, ServerPos, Msgs, Read;
    MsgsStep(p, ClientPos(p, y.c));
    ClientReads(p, y, o, ServerHelloDone, SendClientCertificate);
  }

  lemma ClientSendClientCertificate(p: Params, y: System, o: Outcome)
    requires Agreed(p, y) && y.c.wait.Proceed? && !o.Fails? && y.c.state.SendClientCertificate?
    ensures Agreed(p, ClientTurn(p, y, o))
  {
    hide Linked, ServerAt, ServerPos, Msgs;
    MsgsStep(p, ClientPos(p, y.c));
    if !p.certReq {
      ClientSkips(p, y, o, ClientDo(p, y.c, y.s2c, o).0);
    } else if o.NotYet? {
      ClientWaits(p, y, o, Later);
    } else {
      ClientSends(p, y, o, ClientDo(p, y.c, y.s2c, o).0, Hs(Msg(Certificate, p.clientCert, []), 0));
    }
  }

  lemma ClientSendClientKeyExchange(p: Params, y: System, o: Outcome)
    requires Agreed(p, y) && y.c.wait.Proceed? && !o.Fails? && y.c.state.SendClientKeyExchange?
    ensures Agreed(p, ClientTurn(p, y, o))
  {
    hide Linked, ServerAt, ServerPos, Msgs;
    MsgsStep(p, ClientPos(p, y.c));
    ClientSends(p, y, o, ClientDo(p, y.c, y.s2c, o).0, Hs(Plain(ClientKeyExchange), 0));
  }

  lemma ClientSendClientCertificateVerify(p: Params, y: System, o: Outcome)
    requires Agreed(p, y) && y.c.wait.Proceed? && !o.Fails? && y.c.state.SendClientCertificateVerify?
    ensures Agreed(p, ClientTurn(p, y, o))
  {
    hide Linked, ServerAt, ServerPos, Msgs;
    MsgsStep(p, ClientPos(p, y.c));
    if !p.certReq || !p.clientCert {
      ClientSkips(p, y, o, ClientDo(p, y.c, y.s2c, o).0);
    } else if o.NotYet? {
      ClientWaits(p, y, o, Later);
    } else {
      ClientSends(p, y, o, ClientDo(p, y.c, y.s2c, o).0, Hs(Plain(CertificateVerify), 0));
    }
  }

  lemma ClientFinishFlight(p: Params, y: System, o: Outcome)
    requires Agreed(p, y) && y.c.wait.Proceed? && !o.Fails? && y.c.state.FinishFlight?
    ensures Agreed(p, ClientTurn(p, y, o))
  {
    hide Linked, ServerAt, ServerPos, Msgs;
    MsgsStep(p, ClientPos(p, y.c));
    ClientSkips(p, y, o, ClientDo(p, y.c, y.s2c, o).0);
  }

  lemma ClientProcessServerCcs(p: Params, y: System, o: Outcome)
    requires Agreed(p, y) && y.c.wait.Proceed? && !o.Fails? && y.c.state.ProcessServerCcs?
    ensures Agreed(p, ClientTurn(p, y, o))
  {
    hide Linked, ServerAt, ServerPos, Msgs;
    MsgsStep(p, ClientPos(p, y.c));
    ClientSkips(p, y, o, ClientDo(p, y.c, y.s2c, o).0);
  }

  lemma ClientFinishClient(p: Params, y: System, o: Outcome)
    requires Agreed(p, y) && y.c.wait.Proceed? && !o.Fails? && y.c.state.FinishClient?
    ensures Agreed(p, ClientTurn(p, y, o))
  {
    hide Linked, ServerAt, ServerPos, Msgs;
    MsgsStep(p, ClientPos(p, y.c));
    ClientSkips(p, y, o, ClientDo(p, y.c, y.s2c, o).0);
  }

  // A turn that takes the item at the client's position from its inbox.
  lemma ClientTakes(p: Params, y: System, o: Outcome, c': Client)
    requires Agreed(p, y) && y.c.state != ClientDone && y.s2c != []
    requires Slot(p, ClientPos(p, y.c)).Some? && Slot(p, ClientPos(p, y.c)).value.side == ServerSide
    requires ClientDo(p, y.c, y.s2c, o) == (c', y.s2c[1..]) && c'.pending == y.c.pending && ClientAt(p, c')
    requires ClientPos(p, c') == ClientPos(p, y.c) + 1
    ensures Agreed(p, ClientTurn(p, y, o))
  {
    hide Slot, Linked, ClientDo, ServerAt, ClientAt, ClientPos;
    ClientInbox(p, y);
  }

  // The head of the client's inbox comes from the first position that holds an item.
  lemma ClientHead(p: Params, y: System) returns (k: nat)
    requires Agreed(p, y) && y.s2c != []
    ensures ClientPos(p, y.c) <= k && Slot(p, k) == Some(Entry(ServerSide, y.s2c[0]))
    ensures forall j: nat | ClientPos(p, y.c) <= j < k :: Slot(p, j).None?
  {
    hide Slot, Linked, ClientAt, ServerAt, ClientPos;
    FrontOf(y.s2c, y.s.pending);
    k := HeadC(p, ClientPos(p, y.c), ServerPos(p, y.s), y.c2s + y.c.pending, y.s2c + y.s.pending);
  }

  // In the server's first flight, the head of the inbox is a plaintext message of the position
  // of the client or a later one.
  lemma FirstFlightHead(p: Params, y: System) returns (k: nat)
    requires Agreed(p, y) && y.s2c != [] && !p.resumed && 3 <= ClientPos(p, y.c) <= 6
    ensures ClientPos(p, y.c) <= k <= 6 && Slot(p, k) == Some(Entry(ServerSide, y.s2c[0]))
    ensures k > ClientPos(p, y.c) ==> Slot(p, ClientPos(p, y.c)).None?
    ensures y.s2c[0].Hs? && y.s2c[0].epoch == 0
    ensures y.s2c[0].msg.kind == match k
                                 case 3 => CertificateStatus
                                 case 4 => ServerKeyExchange
                                 case 5 => CertificateRequest
                                 case _ => ServerHelloDone
  {
    hide Linked, ClientAt, ServerAt, ClientPos, Agreed;
    k := ClientHead(p, y);
    assert Slot(p, 6).Some?;
  }

  lemma ClientReadCertificateStatus(p: Params, y: System, o: Outcome)
    requires Agreed(p, y) && y.c.wait.Proceed? && !o.Fails? && y.c.state.ReadCertificateStatus?
    ensures Agreed(p, ClientTurn(p, y, o))
  {
    hide Linked, ServerAt, ServerPos, Msgs;
    MsgsStep(p, ClientPos(p, y.c));
    if !p.ocsp {
      ClientSkips(p, y, o, ClientDo(p, y.c, y.s2c, o).0);
    } else if y.s2c == [] {
      ClientWaits(p, y, o, ReadMessage);
    } else {
      var k := FirstFlightHead(p, y);
      if k == 3 {
        ClientTakes(p, y, o, ClientDo(p, y.c, y.s2c, o).0);
      } else {
        ClientSkips(p, y, o, ClientDo(p, y.c, y.s2c, o).0);
      }
    }
  }

  lemma ClientReadServerKeyExchange(p: Params, y: System, o: Outcome)
    requires Agreed(p, y) && y.c.wait.Proceed? && !o.Fails? && y.c.state.ReadServerKeyExchange?
    ensures Agreed(p, ClientTurn(p, y, o))
  {
    hide Linked, ServerAt, ServerPos, Msgs;
    MsgsStep(p, ClientPos(p, y.c));
    if y.s2c == [] {
      ClientWaits(p, y, o, ReadMessage);
    } else {
      var k := FirstFlightHead(p, y);
      if k == 4 {
        ClientTakes(p, y, o, ClientDo(p, y.c, y.s2c, o).0);
      } else {
        ClientSkips(p, y, o, ClientDo(p, y.c, y.s2c, o).0);
      }
    }
  }

  lemma ClientReadCertificateRequest(p: Params, y: System, o: Outcome)
    requires Agreed(p, y) && y.c.wait.Proceed? && !o.Fails? && y.c.state.ReadCertificateRequest?
    ensures Agreed(p, ClientTurn(p, y, o))
  {
    hide Linked, ServerAt, ServerPos, Msgs;
    MsgsStep(p, ClientPos(p, y.c));
    if !p.certAuth {
      ClientSkips(p, y, o, ClientDo(p, y.c, y.s2c, o).0);
    } else if y.s2c == [] {
      ClientWaits(p, y, o, ReadMessage);
    } else {
      var k := FirstFlightHead(p, y);
      if k == 5 {
        ClientTakes(p, y, o, ClientDo(p, y.c, y.s2c, o).0);
      } else {
        ClientSkips(p, y, o, ClientDo(p, y.c, y.s2c, o).0);
      }
    }
  }

  lemma ClientReadSessionTicket(p: Params, y: System, o: Outcome)
    requires Agreed(p, y) && y.c.wait.Proceed? && !o.Fails? && y.c.state.ReadSessionTicket?
    ensures Agreed(p, ClientTurn(p, y, o))
  {
    hide Linked, ServerAt, ServerPos, Msgs;
    MsgsStep(p, ClientPos(p, y.c));
    if !p.ticket {
      ClientSkips(p, y, o, ClientDo(p, y.c, y.s2c, o).0);
    } else if y.s2c == [] {
      ClientWaits(p, y, o, ReadMessage);
    } else {
      ClientInbox(p, y);
      ClientTakes(p, y, o, ClientDo(p, y.c, y.s2c, o).0);
    }
  }

  lemma ReadsServerFinished(p: Params, e: Client, inbox: seq<Item>, o: Outcome)
    requires !o.Fails? && e.state.ReadServerFinished?
    ensures ClientDo(p, e, inbox, o) == ReadFinished(e, inbox, if p.resumed then SendClientFinished else FinishClient)
    ensures ClientReading(p, e.state)
    ensures var g := ClientPos(p, e);
            Slot(p, g) == Some(Entry(ServerSide, Hs(Msg(Finished, false, Msgs(p, g)), 1)))
  {
    hide Msgs, ReadFinished;
  }

  lemma ClientReadServerFinished(p: Params, y: System, o: Outcome)
    requires Agreed(p, y) && y.c.wait.Proceed? && !o.Fails? && y.c.state.ReadServerFinished?
    ensures Agreed(p, ClientTurn(p, y, o))
  {
    hide ClientDo, Slot, ClientReading, Linked, ServerAt, ServerPos, Msgs;
    ReadsServerFinished(p, y.c, y.s2c, o);
    MsgsStep(p, ClientPos(p, y.c));
    if y.s2c == [] {
      ClientWaits(p, y, o, ReadMessage);
    } else {
      ClientInbox(p, y);
      ClientTakes(p, y, o, ClientDo(p, y.c, y.s2c, o).0);
    }
  }

  function Opt(b: bool, x: Item): seq<Item> {
    if b then [x] else []
  }

  // The four positions of a client's last flight.
  lemma LastFlightC(p: Params, g: nat, gs: nat, a: seq<Item>, b: seq<Item>, fin: Item)
    requires Linked(p, g, gs, a, b)
    requires Slot(p, g) == Some(Entry(ClientSide, Ccs(0)))
    requires Slot(p, g + 1) == From(ClientSide, p.npn, Plain(NextProto), 1)
    requires Slot(p, g + 2) == From(ClientSide, p.channelId, Plain(ChannelId), 1)
    requires Slot(p, g + 3) == Some(Entry(ClientSide, fin))
    ensures Linked(p, g + 4, gs,
                   a + [Ccs(0)] + Opt(p.npn, Hs(Plain(NextProto), 1)) + Opt(p.channelId, Hs(Plain(ChannelId), 1)) + [fin], b)
  {
    hide Slot, Linked;
    WriteC(p, g, gs, a, b);
    var a1 := a + [Ccs(0)];
    var a2 := a1 + Opt(p.npn, Hs(Plain(NextProto), 1));
    if p.npn {
      WriteC(p, g + 1, gs, a1, b);
    } else {
      SkipC(p, g + 1, gs, a1, b);
      assert a2 == a1;
    }
    var a3 := a2 + Opt(p.channelId, Hs(Plain(ChannelId), 1));
    if p.channelId {
      WriteC(p, g + 2, gs, a2, b);
    } else {
      SkipC(p, g + 2, gs, a2, b);
      assert a3 == a2;
    }
    WriteC(p, g + 3, gs, a3, b);
  }

  function OptMsg(b: bool, m: Msg): seq<Msg> {
    if b then [m] else []
  }

  // The client after do_send_client_finished.
  function AfterLastFlight(p: Params, e: Client): Client {
    var t := e.transcript + OptMsg(p.npn, Plain(NextProto)) + OptMsg(p.channelId, Plain(ChannelId));
    var fin := Msg(Finished, false, t);
    e.(state := FinishFlight, wait := Flush, transcript := t + [fin], writeEpoch := 1,
       log := e.log + [SentCcs, WriteKey] + [SentFinished],
       pending := e.pending + [Ccs(0)] + Opt(p.npn, Hs(Plain(NextProto), 1)) + Opt(p.channelId, Hs(Plain(ChannelId), 1)) + [Hs(fin, 1)])
  }

  lemma SendsLastFlight(p: Params, e: Client, inbox: seq<Item>, o: Outcome)
    requires e.state.SendClientFinished? && e.writeEpoch == 0 && !o.Fails? && !(p.channelId && o.NotYet?)
    ensures ClientDo(p, e, inbox, o) == (AfterLastFlight(p, e), inbox)
  {
    var e1 := SwitchWrite(e);
    var e2 := EmitIf(e1, p.npn, Plain(NextProto));
    var e3 := EmitIf(e2, p.channelId, Plain(ChannelId));
    assert e2.transcript == e.transcript + OptMsg(p.npn, Plain(NextProto));
    assert e2.pending == e.pending + [Ccs(0)] + Opt(p.npn, Hs(Plain(NextProto), 1));
    assert e3.transcript == e2.transcript + OptMsg(p.channelId, Plain(ChannelId));
    assert e3.pending == e2.pending + Opt(p.channelId, Hs(Plain(ChannelId), 1));
  }

  lemma LastFlightAt(p: Params, e: Client)
    requires ClientAt(p, e) && e.state.SendClientFinished?
    ensures ClientAt(p, AfterLastFlight(p, e)) && ClientPos(p, AfterLastFlight(p, e)) == ClientPos(p, e) + 4
    ensures ClientPos(p, e) == (if p.resumed then 5 else 10) && e.writeEpoch == 0
    ensures AfterLastFlight(p, e).pending
         == e.pending + [Ccs(0)] + Opt(p.npn, Hs(Plain(NextProto), 1)) + Opt(p.channelId, Hs(Plain(ChannelId), 1))
            + [Hs(Msg(Finished, false, Msgs(p, ClientPos(p, e) + 3)), 1)]
  {
    hide Msgs, Slot;
    LastFlightMsgs(p, ClientPos(p, e));
  }

  lemma ClientSendClientFinished(p: Params, y: System, o: Outcome)
    requires Agreed(p, y) && y.c.wait.Proceed? && !o.Fails? && y.c.state.SendClientFinished?
    ensures Agreed(p, ClientTurn(p, y, o))
  {
    if p.channelId && o.NotYet? {
      hide Linked, ServerAt, ServerPos, Msgs, Slot, AfterLastFlight;
      ClientWaits(p, y, o, Later);
    } else {
      hide *;
      LastFlightTurn(p, y, o);
    }
  }

  lemma LastFlightTurn(p: Params, y: System, o: Outcome)
    requires Agreed(p, y) && y.c.wait.Proceed? && !o.Fails? && y.c.state.SendClientFinished?
    requires !(p.channelId && o.NotYet?)
    ensures Agreed(p, ClientTurn(p, y, o))
  {
    hide ClientDo, ClientPos, ClientAt, AfterLastFlight, Linked, ServerAt, ServerPos, Msgs, Opt;
    var g := ClientPos(p, y.c);
    var a, b := y.c2s + y.c.pending, y.s2c + y.s.pending;
    var fin := Msg(Finished, false, Msgs(p, g + 3));
    LastFlightAt(p, y.c);
    SendsLastFlight(p, y.c, y.s2c, o);
    LastFlightC(p, g, ServerPos(p, y.s), a, b, Hs(fin, 1));
    hide Slot;
    AppendFour(y.c2s, y.c.pending, [Ccs(0)], Opt(p.npn, Hs(Plain(NextProto), 1)), Opt(p.channelId, Hs(Plain(ChannelId), 1)), [Hs(fin, 1)]);
  }

  lemma AppendFour(a: seq<Item>, b: seq<Item>, w: seq<Item>, x: seq<Item>, y: seq<Item>, z: seq<Item>)
    ensures a + (b + w + x + y + z) == (a + b) + w + x + y + z
  {
  }

  lemma LastFlightMsgs(p: Params, g: nat)
    requires g == if p.resumed then 5 else 10
    ensures Msgs(p, g + 3) == Msgs(p, g) + OptMsg(p.npn, Plain(NextProto)) + OptMsg(p.channelId, Plain(ChannelId))
    ensures Msgs(p, g + 4) == Msgs(p, g + 3) + [Msg(Finished, false, Msgs(p, g + 3))]
  {
    hide Msgs;
    MsgsStep(p, g);
    MsgsStep(p, g + 1);
    MsgsStep(p, g + 2);
    MsgsStep(p, g + 3);
    assert Msgs(p, g + 1) == Msgs(p, g);
  }

  // ---------- the turns of the server ----------

  lemma ServerInbox(p: Params, y: System)
    requires Agreed(p, y)
    requires Slot(p, ServerPos(p, y.s)).Some? && Slot(p, ServerPos(p, y.s)).value.side == ClientSide
    ensures var g := ServerPos(p, y.s);
            y.c2s != [] ==>
              && y.c2s[0] == Slot(p, g).value.item
              && Linked(p, ClientPos(p, y.c), g + 1, y.c2s[1..] + y.c.pending, y.s2c + y.s.pending)
  {
    hide Slot, Linked, ClientAt, ServerAt;
    FrontOf(y.c2s, y.c.pending);
    ReadS(p, ClientPos(p, y.c), ServerPos(p, y.s), y.c2s + y.c.pending, y.s2c + y.s.pending);
  }

  function ServerTurn(p: Params, y: System, o: Outcome): System
    requires y.s.state != ServerDone
  {
    var (s', inbox') := ServerDo(p, y.s, y.c2s, o);
    y.(s := s', c2s := inbox')
  }

  lemma ServerSkips(p: Params, y: System, o: Outcome, s': Server)
    requires Agreed(p, y) && y.s.state != ServerDone
    requires ServerDo(p, y.s, y.c2s, o) == (s', y.c2s) && s'.pending == y.s.pending && ServerAt(p, s')
    requires ServerPos(p, s') == ServerPos(p, y.s)
          || (ServerPos(p, s') == ServerPos(p, y.s) + 1 && Slot(p, ServerPos(p, y.s)).None?)
    ensures Agreed(p, ServerTurn(p, y, o))
  {
    hide Slot, Linked, ServerDo, ServerAt, ClientAt, ServerPos;
    if ServerPos(p, s') != ServerPos(p, y.s) {
      SkipS(p, ClientPos(p, y.c), ServerPos(p, y.s), y.c2s + y.c.pending, y.s2c + y.s.pending);
    }
  }

  lemma ServerSends(p: Params, y: System, o: Outcome, s': Server, item: Item)
    requires Agreed(p, y) && y.s.state != ServerDone
    requires ServerDo(p, y.s, y.c2s, o) == (s', y.c2s) && s'.pending == y.s.pending + [item] && ServerAt(p, s')
    requires ServerPos(p, s') == ServerPos(p, y.s) + 1 && Slot(p, ServerPos(p, y.s)) == Some(Entry(ServerSide, item))
    ensures Agreed(p, ServerTurn(p, y, o))
  {
    hide Slot, Linked, ServerDo, ServerAt, ClientAt, ServerPos;
    WriteS(p, ClientPos(p, y.c), ServerPos(p, y.s), y.c2s + y.c.pending, y.s2c + y.s.pending);
    assert y.s2c + (y.s.pending + [item]) == (y.s2c + y.s.pending) + [item];
  }

  lemma ServerWaits(p: Params, y: System, o: Outcome, w: Wait)
    requires Agreed(p, y) && y.s.state != ServerDone && y.s.wait.Proceed?
    requires ServerDo(p, y.s, y.c2s, o) == (y.s.(wait := w), y.c2s)
    requires w == Failed(Refused) || (w.ReadMessage? && ServerReading(p, y.s.state)) || w.Later?
    requires y.s.state.ProcessClientCcs? ==> w.Failed?
    ensures Agreed(p, ServerTurn(p, y, o))
  {
    hide Slot, Linked, ServerDo, ClientAt;
    ServerSkips(p, y, o, y.s.(wait := w));
  }

  lemma ServerTakes(p: Params, y: System, o: Outcome, s': Server)
    requires Agreed(p, y) && y.s.state != ServerDone && y.c2s != []
    requires Slot(p, ServerPos(p, y.s)).Some? && Slot(p, ServerPos(p, y.s)).value.side == ClientSide
    requires ServerDo(p, y.s, y.c2s, o) == (s', y.c2s[1..]) && s'.pending == y.s.pending && ServerAt(p, s')
    requires ServerPos(p, s') == ServerPos(p, y.s) + 1
    ensures Agreed(p, ServerTurn(p, y, o))
  {
    hide Slot, Linked, ServerDo, ServerAt, ClientAt, ServerPos;
    ServerInbox(p, y);
  }

  lemma ServerStartAccept(p: Params, y: System, o: Outcome)
    requires Agreed(p, y) && y.s.wait.Proceed? && !o.Fails? && y.s.state.StartAccept?
    ensures Agreed(p, ServerTurn(p, y, o))
  {
    hide Slot, Linked, ClientAt, ClientPos, Msgs;
    FirstSlots(p);
    MsgsStep(p, ServerPos(p, y.s));
    ServerSkips(p, y, o, ServerDo(p, y.s, y.c2s, o).0);
  }

  lemma ServerReadClientHello(p: Params, y: System, o: Outcome)
    requires Agreed(p, y) && y.s.wait.Proceed? && !o.Fails? && y.s.state.ReadClientHello?
    ensures Agreed(p, ServerTurn(p, y, o))
  {
    hide Slot, Linked, ClientAt, ClientPos, Msgs;
    FirstSlots(p);
    MsgsStep(p, ServerPos(p, y.s));
    if y.c2s == [] {
      ServerWaits(p, y, o, ReadMessage);
    } else {
      ServerInbox(p, y);
      if o.NotYet? {
        ServerWaits(p, y, o, Later);
      } else {
        ServerSkips(p, y, o, ServerDo(p, y.s, y.c2s, o).0);
      }
    }
  }

  lemma ServerSelectCertificate(p: Params, y: System, o: Outcome)
    requires Agreed(p, y) && y.s.wait.Proceed? && !o.Fails? && y.s.state.SelectCertificate?
    ensures Agreed(p, ServerTurn(p, y, o))
  {
    hide Slot, Linked, ClientAt, ClientPos, Msgs;
    FirstSlots(p);
    MsgsStep(p, ServerPos(p, y.s));
    if y.c2s == [] {
      ServerWaits(p, y, o, ReadMessage);
    } else {
      ServerInbox(p, y);
      if o.NotYet? {
        ServerWaits(p, y, o, Later);
      } else {
        ServerSkips(p, y, o, ServerDo(p, y.s, y.c2s, o).0);
      }
    }
  }

  lemma ServerSelectParameters(p: Params, y: System, o: Outcome)
    requires Agreed(p, y) && y.s.wait.Proceed? && !o.Fails? && y.s.state.SelectParameters?
    ensures Agreed(p, ServerTurn(p, y, o))
  {
    hide Slot, Linked, ClientAt, ClientPos, Msgs;
    FirstSlots(p);
    MsgsStep(p, ServerPos(p, y.s));
    if y.c2s == [] {
      ServerWaits(p, y, o, ReadMessage);
    } else {
      ServerInbox(p, y);
      if o.NotYet? {
        ServerWaits(p, y, o, Later);
      } else {
        ServerTakes(p, y, o, ServerDo(p, y.s, y.c2s, o).0);
      }
    }
  }

  lemma ServerSendServerHello(p: Params, y: System, o: Outcome)
    requires Agreed(p, y) && y.s.wait.Proceed? && !o.Fails? && y.s.state.SendServerHello?
    ensures Agreed(p, ServerTurn(p, y, o))
  {
    hide Slot, Linked, ClientAt, ClientPos, Msgs;
    FirstSlots(p);
    MsgsStep(p, ServerPos(p, y.s));
    ServerSends(p, y, o, ServerDo(p, y.s, y.c2s, o).0, Hs(Plain(ServerHello), 0));
  }

  lemma ServerSendServerKeyExchange(p: Params, y: System, o: Outcome)
    requires Agreed(p, y) && y.s.wait.Proceed? && !o.Fails? && y.s.state.SendServerKeyExchange?
    ensures Agreed(p, ServerTurn(p, y, o))
  {
    hide Linked, ClientAt, ClientPos, Msgs;
    MsgsStep(p, ServerPos(p, y.s));
    if !SendsSke(p) {
      ServerSkips(p, y, o, ServerDo(p, y.s, y.c2s, o).0);
    } else if p.certAuth && o.NotYet? {
      ServerWaits(p, y, o, Later);
    } else {
      ServerSends(p, y, o, ServerDo(p, y.s, y.c2s, o).0, Hs(Plain(ServerKeyExchange), 0));
    }
  }

  lemma ServerReadClientCertificate(p: Params, y: System, o: Outcome)
    requires Agreed(p, y) && y.s.wait.Proceed? && !o.Fails? && y.s.state.ReadClientCertificate?
    ensures Agreed(p, ServerTurn(p, y, o))
  {
    hide Linked, ClientAt, ClientPos, Msgs;
    MsgsStep(p, ServerPos(p, y.s));
    if !(p.certReq) {
      ServerSkips(p, y, o, ServerDo(p, y.s, y.c2s, o).0);
    } else if y.c2s == [] {
      ServerWaits(p, y, o, ReadMessage);
    } else {
      ServerInbox(p, y);
      ServerTakes(p, y, o, ServerDo(p, y.s, y.c2s, o).0);
    }
  }

  lemma ServerVerifyClientCertificate(p: Params, y: System, o: Outcome)
    requires Agreed(p, y) && y.s.wait.Proceed? && !o.Fails? && y.s.state.VerifyClientCertificate?
    ensures Agreed(p, ServerTurn(p, y, o))
  {
    hide Linked, ClientAt, ClientPos, Msgs;
    MsgsStep(p, ServerPos(p, y.s));
    if y.s.peerCert && o.NotYet? {
      ServerWaits(p, y, o, Later);
    } else {
      ServerSkips(p, y, o, ServerDo(p, y.s, y.c2s, o).0);
    }
  }

  lemma ServerReadClientKeyExchange(p: Params, y: System, o: Outcome)
    requires Agreed(p, y) && y.s.wait.Proceed? && !o.Fails? && y.s.state.ReadClientKeyExchange?
    ensures Agreed(p, ServerTurn(p, y, o))
  {
    hide Linked, ClientAt, ClientPos, Msgs;
    MsgsStep(p, ServerPos(p, y.s));
    if y.c2s == [] {
      ServerWaits(p, y, o, ReadMessage);
    } else {
      ServerInbox(p, y);
      if o.NotYet? {
        ServerWaits(p, y, o, Later);
      } else {
        ServerTakes(p, y, o, ServerDo(p, y.s, y.c2s, o).0);
      }
    }
  }

  lemma ServerReadClientCertificateVerify(p: Params, y: System, o: Outcome)
    requires Agreed(p, y) && y.s.wait.Proceed? && !o.Fails? && y.s.state.ReadClientCertificateVerify?
    ensures Agreed(p, ServerTurn(p, y, o))
  {
    hide Linked, ClientAt, ClientPos, Msgs;
    MsgsStep(p, ServerPos(p, y.s));
    if !(p.certReq && p.clientCert) {
      ServerSkips(p, y, o, ServerDo(p, y.s, y.c2s, o).0);
    } else if y.c2s == [] {
      ServerWaits(p, y, o, ReadMessage);
    } else {
      ServerInbox(p, y);
      ServerTakes(p, y, o, ServerDo(p, y.s, y.c2s, o).0);
    }
  }

  lemma ServerReadClientCcs(p: Params, y: System, o: Outcome)
    requires Agreed(p, y) && y.s.wait.Proceed? && !o.Fails? && y.s.state.ReadClientCcs?
    ensures Agreed(p, ServerTurn(p, y, o))
  {
    hide Linked, ClientAt, ClientPos, Msgs;
    MsgsStep(p, ServerPos(p, y.s));
    ServerSkips(p, y, o, ServerDo(p, y.s, y.c2s, o).0);
  }

  lemma ServerProcessClientCcs(p: Params, y: System, o: Outcome)
    requires Agreed(p, y) && y.s.wait.Proceed? && !o.Fails? && y.s.state.ProcessClientCcs?
    ensures Agreed(p, ServerTurn(p, y, o))
  {
    hide Linked, ClientAt, ClientPos, Msgs;
    MsgsStep(p, ServerPos(p, y.s));
    ServerSkips(p, y, o, ServerDo(p, y.s, y.c2s, o).0);
  }

  lemma ServerReadNextProto(p: Params, y: System, o: Outcome)
    requires Agreed(p, y) && y.s.wait.Proceed? && !o.Fails? && y.s.state.ReadNextProto?
    ensures Agreed(p, ServerTurn(p, y, o))
  {
    hide Linked, ClientAt, ClientPos, Msgs;
    MsgsStep(p, ServerPos(p, y.s));
    if !(p.npn) {
      ServerSkips(p, y, o, ServerDo(p, y.s, y.c2s, o).0);
    } else if y.c2s == [] {
      ServerWaits(p, y, o, ReadMessage);
    } else {
      ServerInbox(p, y);
      ServerTakes(p, y, o, ServerDo(p, y.s, y.c2s, o).0);
    }
  }

  lemma ServerReadChannelId(p: Params, y: System, o: Outcome)
    requires Agreed(p, y) && y.s.wait.Proceed? && !o.Fails? && y.s.state.ReadChannelId?
    ensures Agreed(p, ServerTurn(p, y, o))
  {
    hide Linked, ClientAt, ClientPos, Msgs;
    MsgsStep(p, ServerPos(p, y.s));
    if !(p.channelId) {
      ServerSkips(p, y, o, ServerDo(p, y.s, y.c2s, o).0);
    } else if y.c2s == [] {
      ServerWaits(p, y, o, ReadMessage);
    } else {
      ServerInbox(p, y);
      ServerTakes(p, y, o, ServerDo(p, y.s, y.c2s, o).0);
    }
  }

  // The server once it has verified the client's Finished.
  function AfterClientFinished(p: Params, e: Server): Server {
    e.(transcript := e.transcript + [Msg(Finished, false, e.transcript)],
       state := if p.resumed then FinishServer else SendServerFinished, wait := Proceed, log := e.log + [VerifiedFinished])
  }

  lemma ClientFinishedSlot(p: Params)
    ensures var g := if p.resumed then 8 else 13;
            Slot(p, g) == Some(Entry(ClientSide, Hs(Msg(Finished, false, Msgs(p, g)), 1)))
  {
    hide Msgs;
  }

  lemma ClientFinishedAt(p: Params, e: Server)
    requires ServerAt(p, e) && e.state.ReadClientFinished?
    ensures ServerAt(p, AfterClientFinished(p, e)) && ServerPos(p, AfterClientFinished(p, e)) == ServerPos(p, e) + 1
    ensures Slot(p, ServerPos(p, e)) == Some(Entry(ClientSide, Hs(Msg(Finished, false, e.transcript), e.readEpoch)))
    ensures ServerReading(p, e.state)
  {
    hide Msgs, Slot;
    ClientFinishedSlot(p);
    MsgsStep(p, ServerPos(p, e));
  }

  lemma ServerReadClientFinished(p: Params, y: System, o: Outcome)
    requires Agreed(p, y) && y.s.wait.Proceed? && !o.Fails? && y.s.state.ReadClientFinished?
    ensures Agreed(p, ServerTurn(p, y, o))
  {
    hide Linked, ClientAt, ServerAt, ServerPos, ClientPos, Msgs, ReadFinished, ServerReading, Slot, ResumedServer;
    ClientFinishedAt(p, y.s);
    if y.c2s != [] {
      ServerInbox(p, y);
    }
    FinishedExpected(y.s, y.c2s, if p.resumed then FinishServer else SendServerFinished, Msg(Finished, false, y.s.transcript));
    if y.c2s == [] {
      ServerWaits(p, y, o, ReadMessage);
    } else {
      ServerTakes(p, y, o, AfterClientFinished(p, y.s));
    }
  }

  lemma ServerFinishServer(p: Params, y: System, o: Outcome)
    requires Agreed(p, y) && y.s.wait.Proceed? && !o.Fails? && y.s.state.FinishServer?
    ensures Agreed(p, ServerTurn(p, y, o))
  {
    hide Linked, ClientAt, ClientPos, Msgs;
    MsgsStep(p, ServerPos(p, y.s));
    ServerSkips(p, y, o, ServerDo(p, y.s, y.c2s, o).0);
  }

  // ---------- the flights of the server ----------

  // Positions that hold an optional item.
  lemma OptS(p: Params, gc: nat, gs: nat, a: seq<Item>, b: seq<Item>, on: bool, x: Item)
    requires Linked(p, gc, gs, a, b) && Slot(p, gs) == if on then Some(Entry(ServerSide, x)) else None
    ensures Linked(p, gc, gs + 1, a, b + Opt(on, x))
  {
    hide Slot, Linked;
    if on {
      WriteS(p, gc, gs, a, b);
    } else {
      SkipS(p, gc, gs, a, b);
      assert b + [] == b;
    }
  }

  lemma OptMsgs(p: Params, g: nat, on: bool, side: Side, m: Msg, epoch: nat)
    requires Slot(p, g) == if on then Some(Entry(side, Hs(m, epoch))) else None
    ensures Msgs(p, g + 1) == Msgs(p, g) + OptMsg(on, m)
  {
    hide Slot, Msgs;
    MsgsStep(p, g);
  }

  lemma AppendTwo(a: seq<Item>, b: seq<Item>, x: seq<Item>, y: seq<Item>)
    ensures a + (b + x + y) == (a + b) + x + y
  {
  }

  lemma EmitIfIs<S>(e: Endpoint<S>, on: bool, m: Msg)
    ensures EmitIf(e, on, m)
         == e.(pending := e.pending + Opt(on, Hs(m, e.writeEpoch)), transcript := e.transcript + OptMsg(on, m))
  {
    if !on {
      assert e.pending + [] == e.pending && e.transcript + [] == e.transcript;
    }
  }

  lemma CertificateSlots(p: Params)
    requires !p.resumed
    ensures Slot(p, 2) == if p.certAuth then Some(Entry(ServerSide, Hs(Msg(Certificate, true, []), 0))) else None
    ensures Slot(p, 3) == if p.certAuth && p.ocsp then Some(Entry(ServerSide, Hs(Plain(CertificateStatus), 0))) else None
  {
    hide Msgs;
  }

  lemma HelloDoneSlots(p: Params)
    requires !p.resumed
    ensures Slot(p, 5) == if p.certReq then Some(Entry(ServerSide, Hs(Plain(CertificateRequest), 0))) else None
    ensures Slot(p, 6) == Some(Entry(ServerSide, Hs(Plain(ServerHelloDone), 0)))
  {
    hide Msgs;
  }

  // The server after do_send_server_certificate.
  function AfterCertificates(p: Params, e: Server): Server {
    Goto(EmitIf(EmitIf(e, p.certAuth, Msg(Certificate, true, [])), p.certAuth && p.ocsp, Plain(CertificateStatus)), SendServerKeyExchange)
  }

  lemma SendsCertificates(p: Params, e: Server, inbox: seq<Item>, o: Outcome)
    requires !o.Fails? && e.state.SendServerCertificate?
    ensures ServerDo(p, e, inbox, o) == (AfterCertificates(p, e), inbox)
  {
    hide EmitIf;
  }

  lemma CertificateMsgs(p: Params)
    requires !p.resumed
    ensures Msgs(p, 4) == Msgs(p, 2) + OptMsg(p.certAuth, Msg(Certificate, true, [])) + OptMsg(p.certAuth && p.ocsp, Plain(CertificateStatus))
  {
    hide Msgs, Slot, OptMsg;
    CertificateSlots(p);
    OptMsgs(p, 2, p.certAuth, ServerSide, Msg(Certificate, true, []), 0);
    OptMsgs(p, 3, p.certAuth && p.ocsp, ServerSide, Plain(CertificateStatus), 0);
  }

  lemma EmitsCertificates(p: Params, e: Server)
    ensures AfterCertificates(p, e)
         == e.(state := SendServerKeyExchange, wait := Proceed,
               pending := e.pending + Opt(p.certAuth, Hs(Msg(Certificate, true, []), e.writeEpoch))
                          + Opt(p.certAuth && p.ocsp, Hs(Plain(CertificateStatus), e.writeEpoch)),
               transcript := e.transcript + OptMsg(p.certAuth, Msg(Certificate, true, []))
                             + OptMsg(p.certAuth && p.ocsp, Plain(CertificateStatus)))
  {
    hide EmitIf, Opt, OptMsg;
    EmitIfIs(e, p.certAuth, Msg(Certificate, true, []));
    EmitIfIs(EmitIf(e, p.certAuth, Msg(Certificate, true, [])), p.certAuth && p.ocsp, Plain(CertificateStatus));
  }

  lemma CertificatesAt(p: Params, e: Server)
    requires ServerAt(p, e) && e.state.SendServerCertificate? && e.wait.Proceed?
    ensures ServerAt(p, AfterCertificates(p, e)) && ServerPos(p, AfterCertificates(p, e)) == 4
    ensures ServerPos(p, e) == 2 && !p.resumed
    ensures AfterCertificates(p, e).pending
         == e.pending + Opt(p.certAuth, Hs(Msg(Certificate, true, []), 0)) + Opt(p.certAuth && p.ocsp, Hs(Plain(CertificateStatus), 0))
  {
    hide Msgs, Slot, AfterCertificates, Opt, OptMsg, ServerReading;
    CertificateMsgs(p);
    EmitsCertificates(p, e);
  }

  lemma ServerSendServerCertificate(p: Params, y: System, o: Outcome)
    requires Agreed(p, y) && y.s.wait.Proceed? && !o.Fails? && y.s.state.SendServerCertificate?
    ensures Agreed(p, ServerTurn(p, y, o))
  {
    hide ServerDo, ServerPos, ServerAt, AfterCertificates, Linked, ClientAt, ClientPos, Msgs, Opt, Slot;
    var x1, x2 := Opt(p.certAuth, Hs(Msg(Certificate, true, []), 0)), Opt(p.certAuth && p.ocsp, Hs(Plain(CertificateStatus), 0));
    var a, b := y.c2s + y.c.pending, y.s2c + y.s.pending;
    CertificatesAt(p, y.s);
    CertificateSlots(p);
    SendsCertificates(p, y.s, y.c2s, o);
    OptS(p, ClientPos(p, y.c), 2, a, b, p.certAuth, Hs(Msg(Certificate, true, []), 0));
    OptS(p, ClientPos(p, y.c), 3, a, b + x1, p.certAuth && p.ocsp, Hs(Plain(CertificateStatus), 0));
    AppendTwo(y.s2c, y.s.pending, x1, x2);
  }

  lemma ServerSendServerHelloDone(p: Params, y: System, o: Outcome)
    requires Agreed(p, y) && y.s.wait.Proceed? && !o.Fails? && y.s.state.SendServerHelloDone?
    ensures Agreed(p, ServerTurn(p, y, o))
  {
    hide Slot, Linked, ClientAt, ClientPos, Msgs, EmitIf, Opt, OptMsg;
    HelloDoneSlots(p);
    var m1, m2 := Plain(CertificateRequest), Plain(ServerHelloDone);
    var a, b := y.c2s + y.c.pending, y.s2c + y.s.pending;
    OptMsgs(p, 5, p.certReq, ServerSide, m1, 0);
    MsgsStep(p, 6);
    OptS(p, ClientPos(p, y.c), 5, a, b, p.certReq, Hs(m1, 0));
    WriteS(p, ClientPos(p, y.c), 6, a, b + Opt(p.certReq, Hs(m1, 0)));
    EmitIfIs(y.s, p.certReq, m1);
    AppendTwo(y.s2c, y.s.pending, Opt(p.certReq, Hs(m1, 0)), [Hs(m2, 0)]);
  }

  // The server after do_send_server_finished.
  function AfterServerFlight(p: Params, e: Server): Server {
    var t := e.transcript + OptMsg(p.ticket, Plain(NewSessionTicket));
    var fin := Msg(Finished, false, t);
    e.(state := if p.resumed then ReadClientCcs else FinishServer, wait := Flush, transcript := t + [fin], writeEpoch := 1,
       log := e.log + [SentCcs, WriteKey] + [SentFinished],
       pending := e.pending + Opt(p.ticket, Hs(Plain(NewSessionTicket), 0)) + [Ccs(0)] + [Hs(fin, 1)])
  }

  lemma SendsServerFlight(p: Params, e: Server, inbox: seq<Item>, o: Outcome)
    requires e.state.SendServerFinished? && e.writeEpoch == 0 && !o.Fails?
    ensures ServerDo(p, e, inbox, o) == (AfterServerFlight(p, e), inbox)
  {
    hide EmitIf;
    EmitIfIs(e, p.ticket, Plain(NewSessionTicket));
  }

  // The transcript over the positions of the server's last flight.
  lemma FlightMsgs(p: Params, g: nat)
    requires g == if p.resumed then 2 else 14
    ensures Msgs(p, g + 2) == Msgs(p, g) + OptMsg(p.ticket, Plain(NewSessionTicket))
    ensures Msgs(p, g + 3) == Msgs(p, g + 2) + [Msg(Finished, false, Msgs(p, g + 2))]
  {
    hide Msgs;
    OptMsgs(p, g, p.ticket, ServerSide, Plain(NewSessionTicket), 0);
    MsgsStep(p, g + 1);
    MsgsStep(p, g + 2);
    assert Msgs(p, g + 1) + [] == Msgs(p, g + 1);
  }

  lemma ServerFlightAt(p: Params, e: Server)
    requires ServerAt(p, e) && e.state.SendServerFinished?
    ensures ServerAt(p, AfterServerFlight(p, e)) && ServerPos(p, AfterServerFlight(p, e)) == ServerPos(p, e) + 3
    ensures ServerPos(p, e) == (if p.resumed then 2 else 14) && e.writeEpoch == 0
    ensures AfterServerFlight(p, e).pending
         == e.pending + Opt(p.ticket, Hs(Plain(NewSessionTicket), 0)) + [Ccs(0)]
            + [Hs(Msg(Finished, false, Msgs(p, ServerPos(p, e) + 2)), 1)]
  {
    hide Msgs, Slot, OptMsg, Opt;
    FlightMsgs(p, ServerPos(p, e));
  }

  lemma ServerFlightLinks(p: Params, gc: nat, g: nat, a: seq<Item>, b: seq<Item>)
    requires Linked(p, gc, g, a, b) && g == if p.resumed then 2 else 14
    ensures Linked(p, gc, g + 3, a,
                   b + Opt(p.ticket, Hs(Plain(NewSessionTicket), 0)) + [Ccs(0)] + [Hs(Msg(Finished, false, Msgs(p, g + 2)), 1)])
  {
    hide Linked, Msgs, Opt;
    var b1 := b + Opt(p.ticket, Hs(Plain(NewSessionTicket), 0));
    OptS(p, gc, g, a, b, p.ticket, Hs(Plain(NewSessionTicket), 0));
    WriteS(p, gc, g + 1, a, b1);
    WriteS(p, gc, g + 2, a, b1 + [Ccs(0)]);
  }

  lemma AppendThree(a: seq<Item>, b: seq<Item>, x: seq<Item>, y: seq<Item>, z: seq<Item>)
    ensures a + (b + x + y + z) == (a + b) + x + y + z
  {
  }

  lemma ServerSendServerFinished(p: Params, y: System, o: Outcome)
    requires Agreed(p, y) && y.s.wait.Proceed? && !o.Fails? && y.s.state.SendServerFinished?
    ensures Agreed(p, ServerTurn(p, y, o))
  {
    hide ServerDo, ServerPos, ServerAt, AfterServerFlight, Linked, ClientAt, ClientPos, Msgs, Opt, Slot;
    var g := ServerPos(p, y.s);
    ServerFlightAt(p, y.s);
    SendsServerFlight(p, y.s, y.c2s, o);
    ServerFlightLinks(p, ClientPos(p, y.c), g, y.c2s + y.c.pending, y.s2c + y.s.pending);
    AppendThree(y.s2c, y.s.pending, Opt(p.ticket, Hs(Plain(NewSessionTicket), 0)), [Ccs(0)],
                [Hs(Msg(Finished, false, Msgs(p, g + 2)), 1)]);
  }

  // ---------- waits ----------

  predicate Peeking(s: ClientState) {
    s.ReadCertificateStatus? || s.ReadServerKeyExchange? || s.ReadCertificateRequest?
  }

  lemma PeekingAt(p: Params, e: Client)
    requires ClientAt(p, e) && Peeking(e.state)
    ensures !p.resumed && 3 <= ClientPos(p, e) <= 5 && e.readEpoch == 0
  {
    hide Msgs, ClientReading;
  }

  lemma ReadingAt(p: Params, e: Client)
    requires ClientAt(p, e) && ClientReading(p, e.state) && !Peeking(e.state)
    ensures var x := Slot(p, ClientPos(p, e));
            x.Some? && x.value.side == ServerSide && x.value.item.Hs? && x.value.item.epoch == e.readEpoch
  {
    hide Msgs;
  }

  // The message that a reading client finds is of its epoch.
  lemma ClientFindsMessage(p: Params, y: System)
    requires Agreed(p, y) && ClientReading(p, y.c.state) && y.s2c != []
    ensures Available(y.c, y.s2c)
  {
    hide Linked, ClientAt, ServerAt, ClientPos, ServerPos, Slot, ClientReading, Peeking;
    if Peeking(y.c.state) {
      PeekingAt(p, y.c);
      var k := FirstFlightHead(p, y);
    } else {
      ReadingAt(p, y.c);
      ClientInbox(p, y);
    }
  }

  lemma ServerFindsMessage(p: Params, y: System)
    requires Agreed(p, y) && ServerReading(p, y.s.state) && y.c2s != []
    ensures Available(y.s, y.c2s)
  {
    hide Linked, ClientAt, ClientPos, Msgs, ClientPos;
    ServerInbox(p, y);
  }

  lemma ClientFindsCcs(p: Params, y: System)
    requires Agreed(p, y) && y.c.wait.ReadCcs? && y.s2c != []
    ensures y.s2c[0] == Ccs(y.c.readEpoch)
    ensures var c' := y.c.(wait := Proceed, log := y.c.log + [GotCcs]);
            ClientAt(p, c') && ClientPos(p, c') == ClientPos(p, y.c) + 1
    ensures Linked(p, ClientPos(p, y.c) + 1, ServerPos(p, y.s), y.c2s + y.c.pending, y.s2c[1..] + y.s.pending)
  {
    hide Linked, ServerAt, ServerPos, Msgs, ServerPos;
    MsgsStep(p, ClientPos(p, y.c));
    ClientInbox(p, y);
  }

  lemma ServerFindsCcs(p: Params, y: System)
    requires Agreed(p, y) && y.s.wait.ReadCcs? && y.c2s != []
    ensures y.c2s[0] == Ccs(y.s.readEpoch)
    ensures var s' := y.s.(wait := Proceed, log := y.s.log + [GotCcs]);
            ServerAt(p, s') && ServerPos(p, s') == ServerPos(p, y.s) + 1
    ensures Linked(p, ClientPos(p, y.c), ServerPos(p, y.s) + 1, y.c2s[1..] + y.c.pending, y.s2c + y.s.pending)
  {
    hide Linked, ClientAt, ClientPos, Msgs, ClientPos;
    MsgsStep(p, ServerPos(p, y.s));
    ServerInbox(p, y);
  }

  // Waits that change nothing but themselves.
  lemma ClientUnwaits(p: Params, e: Client)
    requires ClientAt(p, e) && !e.wait.ReadCcs? && !e.wait.Failed?
    ensures ClientAt(p, e.(wait := Proceed)) && ClientPos(p, e.(wait := Proceed)) == ClientPos(p, e)
    ensures ClientAt(p, e.(wait := Proceed, pending := []))
         && ClientPos(p, e.(wait := Proceed, pending := [])) == ClientPos(p, e)
    ensures e.wait.ReadMessage? ==> ClientReading(p, e.state)
  {
    hide Msgs;
  }

  lemma ServerUnwaits(p: Params, e: Server)
    requires ServerAt(p, e) && !e.wait.ReadCcs? && !e.wait.Failed?
    ensures ServerAt(p, e.(wait := Proceed)) && ServerPos(p, e.(wait := Proceed)) == ServerPos(p, e)
    ensures ServerAt(p, e.(wait := Proceed, pending := []))
         && ServerPos(p, e.(wait := Proceed, pending := [])) == ServerPos(p, e)
    ensures e.wait.ReadMessage? ==> ServerReading(p, e.state)
  {
    hide Msgs;
  }

  lemma FlushKeeps(a: seq<Item>, b: seq<Item>)
    ensures (a + b) + [] == a + b && a + [] == a
  {
  }

  // ---------- every step, every interleaving ----------

  datatype Move = ClientMove(o: Outcome) | ServerMove(o: Outcome)

  function SystemStep(p: Params, y: System, m: Move): System {
    match m
    case ClientMove(o) =>
      var (c', s2c', out) := ClientStep(p, y.c, y.s2c, o);
      y.(c := c', s2c := s2c', c2s := y.c2s + out)
    case ServerMove(o) =>
      var (s', c2s', out) := ServerStep(p, y.s, y.c2s, o);
      y.(s := s', c2s := c2s', s2c := y.s2c + out)
  }

  lemma ClientResolves(p: Params, y: System, o: Outcome)
    requires Agreed(p, y) && !(y.c.wait.Proceed? && y.c.state != ClientDone)
    ensures Agreed(p, SystemStep(p, y, ClientMove(o)))
  {
    hide Linked, ClientAt, ServerAt, ClientPos, ServerPos, ClientDo, ClientReading, Available;
    FlushKeeps(y.c2s, y.c.pending);
    FlushKeeps(y.c2s, []);
    if !y.c.wait.ReadCcs? && !y.c.wait.Failed? {
      ClientUnwaits(p, y.c);
    }
    match y.c.wait
    case ReadMessage =>
      if y.s2c != [] {
        ClientFindsMessage(p, y);
      }
    case ReadCcs =>
      if y.s2c != [] {
        ClientFindsCcs(p, y);
      }
    case _ =>
  }

  lemma ServerResolves(p: Params, y: System, o: Outcome)
    requires Agreed(p, y) && !(y.s.wait.Proceed? && y.s.state != ServerDone)
    ensures Agreed(p, SystemStep(p, y, ServerMove(o)))
  {
    hide Linked, ClientAt, ServerAt, ClientPos, ServerPos, ServerDo, ServerReading, Available;
    FlushKeeps(y.s2c, y.s.pending);
    FlushKeeps(y.s2c, []);
    if !y.s.wait.ReadCcs? && !y.s.wait.Failed? {
      ServerUnwaits(p, y.s);
    }
    match y.s.wait
    case ReadMessage =>
      if y.c2s != [] {
        ServerFindsMessage(p, y);
      }
    case ReadCcs =>
      if y.c2s != [] {
        ServerFindsCcs(p, y);
      }
    case _ =>
  }

  lemma ClientTurns(p: Params, y: System, o: Outcome)
    requires Agreed(p, y) && y.c.wait.Proceed? && y.c.state != ClientDone
    ensures Agreed(p, ClientTurn(p, y, o))
  {
    if o.Fails? {
      hide Linked, ServerAt, ServerPos, Msgs, Slot;
      ClientWaits(p, y, o, Failed(Refused));
    } else {
      hide *;
      match y.c.state
      case StartConnect => ClientStartConnect(p, y, o);
      case EnterEarlyData => ClientEnterEarlyData(p, y, o);
      case ReadServerHello => ClientReadServerHello(p, y, o);
      case ReadServerCertificate => ClientReadServerCertificate(p, y, o);
      case ReadCertificateStatus => ClientReadCertificateStatus(p, y, o);
      case VerifyServerCertificate => ClientVerifyServerCertificate(p, y, o);
      case ReadServerKeyExchange => ClientReadServerKeyExchange(p, y, o);
      case ReadCertificateRequest => ClientReadCertificateRequest(p, y, o);
      case ReadServerHelloDone => ClientReadServerHelloDone(p, y, o);
      case SendClientCertificate => ClientSendClientCertificate(p, y, o);
      case SendClientKeyExchange => ClientSendClientKeyExchange(p, y, o);
      case SendClientCertificateVerify => ClientSendClientCertificateVerify(p, y, o);
      case SendClientFinished => ClientSendClientFinished(p, y, o);
      case FinishFlight => ClientFinishFlight(p, y, o);
      case ReadSessionTicket => ClientReadSessionTicket(p, y, o);
      case ProcessServerCcs => ClientProcessServerCcs(p, y, o);
      case ReadServerFinished => ClientReadServerFinished(p, y, o);
      case FinishClient => ClientFinishClient(p, y, o);
    }
  }

  lemma ServerTurns(p: Params, y: System, o: Outcome)
    requires Agreed(p, y) && y.s.wait.Proceed? && y.s.state != ServerDone
    ensures Agreed(p, ServerTurn(p, y, o))
  {
    if o.Fails? {
      hide Linked, ClientAt, ClientPos, Msgs, Slot;
      ServerWaits(p, y, o, Failed(Refused));
    } else {
      hide *;
      match y.s.state
      case StartAccept => ServerStartAccept(p, y, o);
      case ReadClientHello => ServerReadClientHello(p, y, o);
      case SelectCertificate => ServerSelectCertificate(p, y, o);
      case SelectParameters => ServerSelectParameters(p, y, o);
      case SendServerHello => ServerSendServerHello(p, y, o);
      case SendServerCertificate => ServerSendServerCertificate(p, y, o);
      case SendServerKeyExchange => ServerSendServerKeyExchange(p, y, o);
      case SendServerHelloDone => ServerSendServerHelloDone(p, y, o);
      case ReadClientCertificate => ServerReadClientCertificate(p, y, o);
      case VerifyClientCertificate => ServerVerifyClientCertificate(p, y, o);
      case ReadClientKeyExchange => ServerReadClientKeyExchange(p, y, o);
      case ReadClientCertificateVerify => ServerReadClientCertificateVerify(p, y, o);
      case ReadClientCcs => ServerReadClientCcs(p, y, o);
      case ProcessClientCcs => ServerProcessClientCcs(p, y, o);
      case ReadNextProto => ServerReadNextProto(p, y, o);
      case ReadChannelId => ServerReadChannelId(p, y, o);
      case ReadClientFinished => ServerReadClientFinished(p, y, o);
      case SendServerFinished => ServerSendServerFinished(p, y, o);
      case FinishServer => ServerFinishServer(p, y, o);
    }
  }

  lemma StepAgrees(p: Params, y: System, m: Move)
    requires Agreed(p, y)
    ensures Agreed(p, SystemStep(p, y, m))
  {
    hide Agreed, ClientDo, ServerDo, Resolve;
    match m
    case ClientMove(o) =>
      if y.c.wait.Proceed? && y.c.state != ClientDone {
        ClientTurns(p, y, o);
        FlushKeeps(y.c2s, []);
      } else {
        ClientResolves(p, y, o);
      }
    case ServerMove(o) =>
      if y.s.wait.Proceed? && y.s.state != ServerDone {
        ServerTurns(p, y, o);
        FlushKeeps(y.s2c, []);
      } else {
        ServerResolves(p, y, o);
      }
  }

  function SystemRun(p: Params, y: System, moves: seq<Move>): System
    decreases |moves|
  {
    if moves == [] then y else SystemRun(p, SystemStep(p, y, moves[0]), moves[1..])
  }

  lemma {:induction false} RunAgrees(p: Params, y: System, moves: seq<Move>)
    requires Agreed(p, y)
    ensures Agreed(p, SystemRun(p, y, moves))
    decreases |moves|
  {
    if moves != [] {
      hide Agreed, SystemStep;
      StepAgrees(p, y, moves[0]);
      RunAgrees(p, SystemStep(p, y, moves[0]), moves[1..]);
    }
  }

  const START: System := System(NEW_CLIENT, NEW_SERVER, [], [])

  // In every interleaving, whatever waits and retries occur, neither side meets a message it does
  // not expect or a Finished that does not match: a failure is always a local refusal.
  lemma NeverOutOfOrder(p: Params, moves: seq<Move>)
    requires ParamsOk(p)
    ensures var y := SystemRun(p, START, moves);
            && (y.c.wait.Failed? ==> y.c.wait.fault == Refused)
            && (y.s.wait.Failed? ==> y.s.wait.fault == Refused)
  {
    hide SystemRun, Linked, ClientPos, ServerPos;
    StartAgreed(p);
    RunAgrees(p, START, moves);
  }

  lemma {:induction false} MsgsPrefix(p: Params, j: nat, i: nat)
    requires j <= i
    ensures Msgs(p, j) <= Msgs(p, i)
    decreases i
  {
    hide Slot;
    if j < i {
      MsgsPrefix(p, j, i - 1);
    }
  }

  // At every moment the transcript of one side is a prefix of the other's; when a Finished is
  // checked, both sides have hashed the same messages up to it; at the end they are equal.
  lemma TranscriptsAgree(p: Params, moves: seq<Move>)
    requires ParamsOk(p)
    ensures var y := SystemRun(p, START, moves);
            && (y.c.transcript <= y.s.transcript || y.s.transcript <= y.c.transcript)
            && (y.c.state.ReadServerFinished? && y.s2c != [] ==>
                  y.s2c[0] == Hs(Msg(Finished, false, y.c.transcript), y.c.readEpoch))
            && (y.s.state.ReadClientFinished? && y.c2s != [] ==>
                  y.c2s[0] == Hs(Msg(Finished, false, y.s.transcript), y.s.readEpoch))
            && (y.c.state.ClientDone? && y.s.state.ServerDone? ==> y.c.transcript == y.s.transcript)
  {
    hide SystemRun, Linked, Msgs;
    StartAgreed(p);
    RunAgrees(p, START, moves);
    var y := SystemRun(p, START, moves);
    var gc, gs := ClientPos(p, y.c), ServerPos(p, y.s);
    if gc <= gs {
      MsgsPrefix(p, gc, gs);
    } else {
      MsgsPrefix(p, gs, gc);
    }
    if y.c.state.ReadServerFinished? {
      ClientInbox(p, y);
    }
    if y.s.state.ReadClientFinished? {
      ServerInbox(p, y);
    }
  }
}
