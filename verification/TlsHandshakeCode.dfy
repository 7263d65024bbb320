// The handshake loops of handshake_client.cc and handshake_server.cc over mutable state.
module TlsHandshakeCode {
  import opened TlsHandshake

  // SSL_HANDSHAKE and the parts of SSL that it drives.
  class Handshake<S> {
    var state: S
    var wait: Wait
    var certRequest: bool
    var peerCert: bool
    var transcript: seq<Msg>
    var readEpoch: nat
    var writeEpoch: nat
    var pending: seq<Item>      // the flight that flush_flight sends
    var inbox: seq<Item>        // what has arrived and was not consumed
    ghost var log: seq<Event>

    ghost function Snap(): Endpoint<S>
      reads this
    {
      Endpoint(state, wait, certRequest, peerCert, transcript, readEpoch, writeEpoch, pending, log)
    }

    constructor (start: S)
      ensures Snap() == Endpoint(start, Proceed, false, false, [], 0, 0, [], []) && inbox == []
    {
      state, wait, certRequest, peerCert, transcript := start, Proceed, false, false, [];
      readEpoch, writeEpoch, pending, inbox, log := 0, 0, [], [], [];
    }

    method GetMessage() returns (ok: bool, msg: Msg)
      ensures ok <==> Available(Snap(), inbox)
      ensures ok ==> msg == inbox[0].msg
    {
      ok := inbox != [] && inbox[0].Hs? && inbox[0].epoch == readEpoch;
      msg := if ok then inbox[0].msg else Plain(ClientHello);
    }

    // ssl_hash_message.
    method HashMessage(msg: Msg)
      modifies this`transcript
      ensures transcript == old(transcript) + [msg]
    {
      transcript := transcript + [msg];
    }

    method NextMessage()
      requires inbox != []
      modifies this`inbox
      ensures inbox == old(inbox[1..])
    {
      inbox := inbox[1..];
    }

    // add_message: the message joins the flight and the transcript.
    method AddMessage(msg: Msg)
      modifies this`pending, this`transcript
      ensures Snap() == Emit(old(Snap()), msg)
    {
      pending := pending + [Hs(msg, writeEpoch)];
      transcript := transcript + [msg];
    }

    // add_change_cipher_spec and tls1_change_cipher_state for writing.
    method ChangeWriteState()
      modifies this`pending, this`writeEpoch, this`log
      ensures Snap() == SwitchWrite(old(Snap()))
    {
      pending := pending + [Ccs(writeEpoch)];
      writeEpoch := writeEpoch + 1;
      log := log + [SentCcs, WriteKey];
    }

    // tls1_change_cipher_state for reading.
    method ChangeReadState()
      modifies this`readEpoch, this`log
      ensures Snap() == SwitchRead(old(Snap()))
    {
      readEpoch := readEpoch + 1;
      log := log + [ReadKey];
    }

    // ssl_send_finished.
    method AddFinished()
      modifies this`pending, this`transcript, this`log
      ensures Snap() == SendFinished(old(Snap()))
    {
      var mac := transcript;
      AddMessage(Msg(Finished, false, mac));
      log := log + [SentFinished];
    }

    // A message of kind k, hashed and consumed; the state becomes next.
    method Expect(k: Kind, next: S) returns (w: Wait)
      modifies this`transcript, this`inbox, this`state
      ensures var r := Read(old(Snap()), old(inbox), k, next);
              Snap().(wait := w) == r.0 && inbox == r.1
    {
      var ok, msg := GetMessage();
      if !ok {
        return ReadMessage;
      }
      if msg.kind != k {
        return Failed(Unexpected);
      }
      HashMessage(msg);
      NextMessage();
      state := next;
      return Proceed;
    }

    // ssl_get_finished.
    method GetFinished(next: S) returns (w: Wait)
      modifies this`transcript, this`inbox, this`state, this`log
      ensures var r := ReadFinished(old(Snap()), old(inbox), next);
              Snap().(wait := w) == r.0 && inbox == r.1
    {
      var ok, msg := GetMessage();
      if !ok {
        return ReadMessage;
      }
      if msg.kind != Finished {
        return Failed(Unexpected);
      }
      // The expected value does not cover the message itself.
      var finished := transcript;
      HashMessage(msg);
      if msg.covered != finished {
        return Failed(BadFinished);
      }
      NextMessage();
      log := log + [VerifiedFinished];
      state := next;
      return Proceed;
    }

    // The switch of ssl_run_handshake on what the machine waits for.
    method ResolveWait() returns (out: seq<Item>)
      modifies this
      ensures (Snap(), inbox, out) == Resolve(old(Snap()), old(inbox))
    {
      out := [];
      match wait {
        case Proceed =>
        case Flush =>
          out := pending;
          pending := [];
          wait := Proceed;
        case ReadMessage =>
          if inbox != [] {
            var ok, _ := GetMessage();
            wait := if ok then Proceed else Failed(Unexpected);
          }
        case ReadCcs =>
          if inbox != [] {
            if inbox[0] == Ccs(readEpoch) {
              inbox := inbox[1..];
              log := log + [GotCcs];
              wait := Proceed;
            } else {
              wait := Failed(Unexpected);
            }
          }
        case Later =>
          wait := Proceed;
        case Failed(_) =>
      }
    }
  }

  // ---------- the client ----------

  method DoReadCertificateStatus(p: Params, hs: Handshake<ClientState>) returns (w: Wait)
    requires hs.state.ReadCertificateStatus?
    modifies hs
    ensures var r := ClientDo(p, old(hs.Snap()), old(hs.inbox), Works);
            hs.Snap().(wait := w) == r.0 && hs.inbox == r.1
  {
    w := Proceed;
    if !p.ocsp {
      hs.state := VerifyServerCertificate;
      return;
    }
    var ok, msg := hs.GetMessage();
    if !ok {
      return ReadMessage;
    }
    if msg.kind == CertificateStatus {
      hs.HashMessage(msg);
      hs.NextMessage();
    }
    hs.state := VerifyServerCertificate;
  }

  method DoReadServerKeyExchange(p: Params, hs: Handshake<ClientState>) returns (w: Wait)
    requires hs.state.ReadServerKeyExchange?
    modifies hs
    ensures var r := ClientDo(p, old(hs.Snap()), old(hs.inbox), Works);
            hs.Snap().(wait := w) == r.0 && hs.inbox == r.1
  {
    w := Proceed;
    var ok, msg := hs.GetMessage();
    if !ok {
      return ReadMessage;
    }
    if msg.kind != ServerKeyExchange {
      // Some ciphers have an optional ServerKeyExchange.
      if p.ecdhe {
        return Failed(Unexpected);
      }
      hs.state := ReadCertificateRequest;
      return;
    }
    hs.HashMessage(msg);
    if !p.ecdhe && !p.psk {
      return Failed(Unexpected);
    }
    hs.NextMessage();
    hs.state := ReadCertificateRequest;
  }

  method DoReadCertificateRequest(p: Params, hs: Handshake<ClientState>) returns (w: Wait)
    requires hs.state.ReadCertificateRequest?
    modifies hs
    ensures var r := ClientDo(p, old(hs.Snap()), old(hs.inbox), Works);
            hs.Snap().(wait := w) == r.0 && hs.inbox == r.1
  {
    w := Proceed;
    if !p.certAuth {
      hs.state := ReadServerHelloDone;
      return;
    }
    var ok, msg := hs.GetMessage();
    if ok && msg.kind == ServerHelloDone {
      hs.state := ReadServerHelloDone;
      return;
    }
    w := hs.Expect(CertificateRequest, ReadServerHelloDone);
    if w == Proceed {
      hs.certRequest := true;
    }
  }

  method DoSendClientFinished(p: Params, hs: Handshake<ClientState>, o: Outcome) returns (w: Wait)
    requires hs.state.SendClientFinished? && !o.Fails?
    modifies hs
    ensures var r := ClientDo(p, old(hs.Snap()), old(hs.inbox), o);
            hs.Snap().(wait := w) == r.0 && hs.inbox == r.1
  {
    // Channel ID comes first, before any non-idempotent operations.
    if p.channelId && o.NotYet? {
      return Later;
    }
    hs.ChangeWriteState();
    if p.npn {
      hs.AddMessage(Plain(NextProto));
    }
    if p.channelId {
      hs.AddMessage(Plain(ChannelId));
    }
    hs.AddFinished();
    hs.state := FinishFlight;
    return Flush;
  }

  // The states that read one message, or none.
  method DoClientRead(p: Params, hs: Handshake<ClientState>) returns (w: Wait)
    requires hs.state.ReadServerHello? || hs.state.ReadServerCertificate? || hs.state.ReadServerHelloDone?
          || hs.state.ReadSessionTicket? || hs.state.ReadServerFinished?
    modifies hs
    ensures var r := ClientDo(p, old(hs.Snap()), old(hs.inbox), Works);
            hs.Snap().(wait := w) == r.0 && hs.inbox == r.1
  {
    hide Read, ReadFinished;
    w := Proceed;
    match hs.state {
      case ReadServerHello =>
        w := hs.Expect(ServerHello, if p.resumed then ReadSessionTicket else ReadServerCertificate);
      case ReadServerCertificate =>
        if p.certAuth {
          w := hs.Expect(Certificate, ReadCertificateStatus);
        } else {
          hs.state := ReadCertificateStatus;
        }
      case ReadServerHelloDone =>
        w := hs.Expect(ServerHelloDone, SendClientCertificate);
      case ReadSessionTicket =>
        if p.ticket {
          w := hs.Expect(NewSessionTicket, ProcessServerCcs);
          if w == Proceed {
            w := ReadCcs;
          }
        } else {
          hs.state := ProcessServerCcs;
          w := ReadCcs;
        }
      case ReadServerFinished =>
        w := hs.GetFinished(if p.resumed then SendClientFinished else FinishClient);
    }
  }

  // The states that send one message, or none.
  method DoClientSend(p: Params, hs: Handshake<ClientState>, o: Outcome) returns (w: Wait)
    requires hs.state.StartConnect? || hs.state.SendClientCertificate? || hs.state.SendClientKeyExchange?
          || hs.state.SendClientCertificateVerify?
    requires !o.Fails?
    modifies hs
    ensures var r := ClientDo(p, old(hs.Snap()), old(hs.inbox), o);
            hs.Snap().(wait := w) == r.0 && hs.inbox == r.1
  {
    w := Proceed;
    match hs.state {
      case StartConnect =>
        hs.AddMessage(Plain(ClientHello));
        hs.state := EnterEarlyData;
        w := Flush;
      case SendClientCertificate =>
        // Nothing is sent without a request.
        if hs.certRequest {
          if o.NotYet? {
            return Later;
          }
          hs.AddMessage(Msg(Certificate, p.clientCert, []));
        }
        hs.state := SendClientKeyExchange;
      case SendClientKeyExchange =>
        hs.AddMessage(Plain(ClientKeyExchange));
        hs.state := SendClientCertificateVerify;
      case SendClientCertificateVerify =>
        if hs.certRequest && p.clientCert {
          if o.NotYet? {
            return Later;
          }
          hs.AddMessage(Plain(CertificateVerify));
        }
        hs.state := SendClientFinished;
    }
  }

  // The states without a message.
  method DoClientPass(p: Params, hs: Handshake<ClientState>, o: Outcome) returns (w: Wait)
    requires hs.state.EnterEarlyData? || hs.state.VerifyServerCertificate? || hs.state.FinishFlight?
          || hs.state.ProcessServerCcs? || hs.state.FinishClient?
    requires !o.Fails?
    modifies hs
    ensures var r := ClientDo(p, old(hs.Snap()), old(hs.inbox), o);
            hs.Snap().(wait := w) == r.0 && hs.inbox == r.1
  {
    w := Proceed;
    match hs.state {
      case EnterEarlyData =>
        hs.state := ReadServerHello;
      case VerifyServerCertificate =>
        if p.certAuth && o.NotYet? {
          return Later;
        }
        hs.state := ReadServerKeyExchange;
      case FinishFlight =>
        hs.state := if p.resumed then FinishClient else ReadSessionTicket;
      case ProcessServerCcs =>
        hs.ChangeReadState();
        hs.state := ReadServerFinished;
      case FinishClient =>
        hs.state := ClientDone;
    }
  }

  // The switch of ssl_client_handshake.
  method ClientDispatch(p: Params, hs: Handshake<ClientState>, o: Outcome) returns (w: Wait)
    requires hs.state != ClientDone
    modifies hs
    ensures var r := ClientDo(p, old(hs.Snap()), old(hs.inbox), o);
            hs.Snap().(wait := w) == r.0 && hs.inbox == r.1
  {
    if o.Fails? {
      return Failed(Refused);
    }
    if !ClientMayWait(hs.state) {
      ReadsIgnore(p, hs.Snap(), hs.inbox, o);
    }
    hide ClientDo;
    w := Proceed;
    match hs.state {
      case StartConnect => w := DoClientSend(p, hs, o);
      case SendClientCertificate => w := DoClientSend(p, hs, o);
      case SendClientKeyExchange => w := DoClientSend(p, hs, o);
      case SendClientCertificateVerify => w := DoClientSend(p, hs, o);
      case ReadCertificateStatus => w := DoReadCertificateStatus(p, hs);
      case ReadServerKeyExchange => w := DoReadServerKeyExchange(p, hs);
      case ReadCertificateRequest => w := DoReadCertificateRequest(p, hs);
      case SendClientFinished => w := DoSendClientFinished(p, hs, o);
      case EnterEarlyData => w := DoClientPass(p, hs, o);
      case VerifyServerCertificate => w := DoClientPass(p, hs, o);
      case FinishFlight => w := DoClientPass(p, hs, o);
      case ProcessServerCcs => w := DoClientPass(p, hs, o);
      case FinishClient => w := DoClientPass(p, hs, o);
      case ReadServerHello => w := DoClientRead(p, hs);
      case ReadServerCertificate => w := DoClientRead(p, hs);
      case ReadServerHelloDone => w := DoClientRead(p, hs);
      case ReadSessionTicket => w := DoClientRead(p, hs);
      case ReadServerFinished => w := DoClientRead(p, hs);
      case ClientDone =>
    }
  }

  // Whether the state has a local operation that can be put off.
  predicate ClientMayWait(s: ClientState) {
    s.VerifyServerCertificate? || s.SendClientCertificate? || s.SendClientCertificateVerify? || s.SendClientFinished?
  }

  lemma ReadsIgnore(p: Params, e: Client, inbox: seq<Item>, o: Outcome)
    requires e.state != ClientDone && !o.Fails? && !ClientMayWait(e.state)
    ensures ClientDo(p, e, inbox, o) == ClientDo(p, e, inbox, Works)
  {
    hide Read, ReadFinished, Emit;
  }

  // The turns of the loop from e on, with the local outcomes in order.
  function ClientLoop(p: Params, e: Client, inbox: seq<Item>, outcomes: nat -> Outcome, i: nat): (Client, seq<Item>)
    requires p.resumed ==> ResumedClient(e.state)
    decreases 23 - ClientRank(e.state, p.resumed)
  {
    if e.state == ClientDone then (e, inbox)
    else
      var (e', inbox') := ClientDo(p, e, inbox, outcomes(i));
      ClientRankRises(p, e, inbox, outcomes(i));
      if e'.wait.Proceed? then ClientLoop(p, e', inbox', outcomes, i + 1) else (e', inbox')
  }

  // ssl_client_handshake. The loop ends: every turn that goes on raises the rank of the state.
  method ClientHandshake(p: Params, hs: Handshake<ClientState>, outcomes: nat -> Outcome)
    requires p.resumed ==> ResumedClient(hs.state)
    requires hs.state.ClientDone? ==> hs.wait.Proceed?
    modifies hs
    ensures (hs.Snap(), hs.inbox) == ClientLoop(p, old(hs.Snap()), old(hs.inbox), outcomes, 0)
    ensures p.resumed ==> ResumedClient(hs.state)
    ensures hs.wait.Proceed? ==> hs.state == ClientDone
  {
    hide ClientDo;
    var i := 0;
    while hs.state != ClientDone
      invariant p.resumed ==> ResumedClient(hs.state)
      invariant hs.state.ClientDone? ==> hs.wait.Proceed?
      invariant ClientLoop(p, hs.Snap(), hs.inbox, outcomes, i) == ClientLoop(p, old(hs.Snap()), old(hs.inbox), outcomes, 0)
      decreases 23 - ClientRank(hs.state, p.resumed)
    {
      ghost var e, inbox := hs.Snap(), hs.inbox;
      ClientRankRises(p, e, inbox, outcomes(i));
      var ret := ClientDispatch(p, hs, outcomes(i));
      hs.wait := ret;
      if ret != Proceed {
        return;
      }
      i := i + 1;
    }
  }

  // ---------- the server ----------

  // The states that look at the ClientHello; the last of them hashes and consumes it.
  method DoServerHelloRead(p: Params, hs: Handshake<ServerState>, o: Outcome) returns (w: Wait)
    requires hs.state.ReadClientHello? || hs.state.SelectCertificate? || hs.state.SelectParameters?
    requires !o.Fails?
    modifies hs
    ensures var r := ServerDo(p, old(hs.Snap()), old(hs.inbox), o);
            hs.Snap().(wait := w) == r.0 && hs.inbox == r.1
  {
    var ok, msg := hs.GetMessage();
    if !ok {
      return ReadMessage;
    }
    if hs.state.ReadClientHello? && msg.kind != ClientHello {
      return Failed(Unexpected);
    }
    if o.NotYet? {
      return Later;
    }
    match hs.state {
      case ReadClientHello =>
        hs.state := SelectCertificate;
      case SelectCertificate =>
        hs.state := SelectParameters;
      case SelectParameters =>
        hs.HashMessage(msg);
        hs.NextMessage();
        hs.state := SendServerHello;
    }
    return Proceed;
  }

  method DoServerRead(p: Params, hs: Handshake<ServerState>, o: Outcome) returns (w: Wait)
    requires hs.state.ReadClientCertificate? || hs.state.ReadClientKeyExchange? || hs.state.ReadClientCertificateVerify?
          || hs.state.ReadNextProto? || hs.state.ReadChannelId? || hs.state.ReadClientFinished?
    requires !o.Fails?
    modifies hs
    ensures var r := ServerDo(p, old(hs.Snap()), old(hs.inbox), o);
            hs.Snap().(wait := w) == r.0 && hs.inbox == r.1
  {
    hide Read, ReadFinished;
    w := Proceed;
    var ok, msg := hs.GetMessage();
    match hs.state {
      case ReadClientCertificate =>
        if p.certReq {
          w := hs.Expect(Certificate, VerifyClientCertificate);
          if w == Proceed {
            assert old(hs.inbox)[0].Hs? && ok by { ReadProceeds(old(hs.Snap()), old(hs.inbox), Certificate, VerifyClientCertificate); }
            hs.peerCert := msg.present;
          }
        } else {
          hs.state := VerifyClientCertificate;
        }
      case ReadClientKeyExchange =>
        if ok && msg.kind == ClientKeyExchange && o.NotYet? {
          return Later;
        }
        w := hs.Expect(ClientKeyExchange, ReadClientCertificateVerify);
      case ReadClientCertificateVerify =>
        if hs.peerCert {
          w := hs.Expect(CertificateVerify, ReadClientCcs);
        } else {
          hs.state := ReadClientCcs;
        }
      case ReadNextProto =>
        if p.npn {
          w := hs.Expect(NextProto, ReadChannelId);
        } else {
          hs.state := ReadChannelId;
        }
      case ReadChannelId =>
        if p.channelId {
          w := hs.Expect(ChannelId, ReadClientFinished);
        } else {
          hs.state := ReadClientFinished;
        }
      case ReadClientFinished =>
        w := hs.GetFinished(if p.resumed then FinishServer else SendServerFinished);
    }
  }

  lemma ReadProceeds<S>(e: Endpoint<S>, inbox: seq<Item>, k: Kind, s: S)
    ensures Read(e, inbox, k, s).0.wait.Proceed? ==> Available(e, inbox)
  {
  }

  method DoServerSend(p: Params, hs: Handshake<ServerState>, o: Outcome) returns (w: Wait)
    requires hs.state.SendServerHello? || hs.state.SendServerCertificate? || hs.state.SendServerKeyExchange?
          || hs.state.SendServerHelloDone?
    requires !o.Fails?
    modifies hs
    ensures var r := ServerDo(p, old(hs.Snap()), old(hs.inbox), o);
            hs.Snap().(wait := w) == r.0 && hs.inbox == r.1
  {
    w := Proceed;
    match hs.state {
      case SendServerHello =>
        hs.AddMessage(Plain(ServerHello));
        hs.state := if p.resumed then SendServerFinished else SendServerCertificate;
      case SendServerCertificate =>
        if p.certAuth {
          hs.AddMessage(Msg(Certificate, true, []));
          if p.ocsp {
            hs.AddMessage(Plain(CertificateStatus));
          }
        }
        hs.state := SendServerKeyExchange;
      case SendServerKeyExchange =>
        if SendsSke(p) {
          if p.certAuth && o.NotYet? {
            return Later;
          }
          hs.AddMessage(Plain(ServerKeyExchange));
        }
        hs.state := SendServerHelloDone;
      case SendServerHelloDone =>
        if p.certReq {
          hs.AddMessage(Plain(CertificateRequest));
        }
        hs.AddMessage(Plain(ServerHelloDone));
        hs.state := ReadClientCertificate;
        w := Flush;
    }
  }

  method DoSendServerFinished(p: Params, hs: Handshake<ServerState>) returns (w: Wait)
    requires hs.state.SendServerFinished?
    modifies hs
    ensures var r := ServerDo(p, old(hs.Snap()), old(hs.inbox), Works);
            hs.Snap().(wait := w) == r.0 && hs.inbox == r.1
  {
    if p.ticket {
      hs.AddMessage(Plain(NewSessionTicket));
    }
    hs.ChangeWriteState();
    hs.AddFinished();
    hs.state := if p.resumed then ReadClientCcs else FinishServer;
    return Flush;
  }

  method DoServerPass(p: Params, hs: Handshake<ServerState>, o: Outcome) returns (w: Wait)
    requires hs.state.StartAccept? || hs.state.VerifyClientCertificate? || hs.state.ReadClientCcs?
          || hs.state.ProcessClientCcs? || hs.state.FinishServer?
    requires !o.Fails?
    modifies hs
    ensures var r := ServerDo(p, old(hs.Snap()), old(hs.inbox), o);
            hs.Snap().(wait := w) == r.0 && hs.inbox == r.1
  {
    w := Proceed;
    match hs.state {
      case StartAccept =>
        hs.state := ReadClientHello;
      case VerifyClientCertificate =>
        if hs.peerCert && o.NotYet? {
          return Later;
        }
        hs.state := ReadClientKeyExchange;
      case ReadClientCcs =>
        hs.state := ProcessClientCcs;
        w := ReadCcs;
      case ProcessClientCcs =>
        hs.ChangeReadState();
        hs.state := ReadNextProto;
      case FinishServer =>
        hs.state := ServerDone;
    }
  }

  // The switch of ssl_server_handshake.
  method ServerDispatch(p: Params, hs: Handshake<ServerState>, o: Outcome) returns (w: Wait)
    requires hs.state != ServerDone
    modifies hs
    ensures var r := ServerDo(p, old(hs.Snap()), old(hs.inbox), o);
            hs.Snap().(wait := w) == r.0 && hs.inbox == r.1
  {
    if o.Fails? {
      return Failed(Refused);
    }
    if hs.state.SendServerFinished? {
      FinishedIgnores(p, hs.Snap(), hs.inbox, o);
    }
    hide ServerDo;
    w := Proceed;
    match hs.state {
      case StartAccept => w := DoServerPass(p, hs, o);
      case VerifyClientCertificate => w := DoServerPass(p, hs, o);
      case ReadClientCcs => w := DoServerPass(p, hs, o);
      case ProcessClientCcs => w := DoServerPass(p, hs, o);
      case FinishServer => w := DoServerPass(p, hs, o);
      case ReadClientHello => w := DoServerHelloRead(p, hs, o);
      case SelectCertificate => w := DoServerHelloRead(p, hs, o);
      case SelectParameters => w := DoServerHelloRead(p, hs, o);
      case SendServerHello => w := DoServerSend(p, hs, o);
      case SendServerCertificate => w := DoServerSend(p, hs, o);
      case SendServerKeyExchange => w := DoServerSend(p, hs, o);
      case SendServerHelloDone => w := DoServerSend(p, hs, o);
      case SendServerFinished => w := DoSendServerFinished(p, hs);
      case ReadClientCertificate => w := DoServerRead(p, hs, o);
      case ReadClientKeyExchange => w := DoServerRead(p, hs, o);
      case ReadClientCertificateVerify => w := DoServerRead(p, hs, o);
      case ReadNextProto => w := DoServerRead(p, hs, o);
      case ReadChannelId => w := DoServerRead(p, hs, o);
      case ReadClientFinished => w := DoServerRead(p, hs, o);
      case ServerDone =>
    }
  }

  lemma FinishedIgnores(p: Params, e: Server, inbox: seq<Item>, o: Outcome)
    requires e.state.SendServerFinished? && !o.Fails?
    ensures ServerDo(p, e, inbox, o) == ServerDo(p, e, inbox, Works)
  {
    hide SendFinished, SwitchWrite, EmitIf;
  }

  function ServerLoop(p: Params, e: Server, inbox: seq<Item>, outcomes: nat -> Outcome, i: nat): (Server, seq<Item>)
    requires p.resumed ==> ResumedServer(e.state)
    decreases 19 - ServerRank(e.state, p.resumed)
  {
    if e.state == ServerDone then (e, inbox)
    else
      var (e', inbox') := ServerDo(p, e, inbox, outcomes(i));
      ServerRankRises(p, e, inbox, outcomes(i));
      if e'.wait.Proceed? then ServerLoop(p, e', inbox', outcomes, i + 1) else (e', inbox')
  }

  // ssl_server_handshake.
  method ServerHandshake(p: Params, hs: Handshake<ServerState>, outcomes: nat -> Outcome)
    requires p.resumed ==> ResumedServer(hs.state)
    requires hs.state.ServerDone? ==> hs.wait.Proceed?
    modifies hs
    ensures (hs.Snap(), hs.inbox) == ServerLoop(p, old(hs.Snap()), old(hs.inbox), outcomes, 0)
    ensures p.resumed ==> ResumedServer(hs.state)
    ensures hs.wait.Proceed? ==> hs.state == ServerDone
  {
    hide ServerDo;
    var i := 0;
    while hs.state != ServerDone
      invariant p.resumed ==> ResumedServer(hs.state)
      invariant hs.state.ServerDone? ==> hs.wait.Proceed?
      invariant ServerLoop(p, hs.Snap(), hs.inbox, outcomes, i) == ServerLoop(p, old(hs.Snap()), old(hs.inbox), outcomes, 0)
      decreases 19 - ServerRank(hs.state, p.resumed)
    {
      ghost var e, inbox := hs.Snap(), hs.inbox;
      ServerRankRises(p, e, inbox, outcomes(i));
      var ret := ServerDispatch(p, hs, outcomes(i));
      hs.wait := ret;
      if ret != Proceed {
        return;
      }
      i := i + 1;
    }
  }
}
