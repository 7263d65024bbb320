// The client and server handshake state machines below TLS 1.3, with message bodies abstract.
module TlsHandshake {

  datatype Kind =
    | ClientHello | ServerHello | Certificate | CertificateStatus | ServerKeyExchange | CertificateRequest
    | ServerHelloDone | ClientKeyExchange | CertificateVerify | NextProto | ChannelId | NewSessionTicket | Finished

  // present tells whether a Certificate message holds a certificate; covered is the transcript
  // that the MAC of a Finished message was computed over.
  datatype Msg = Msg(kind: Kind, present: bool, covered: seq<Msg>)

  // A handshake message or a ChangeCipherSpec, under the keys of its epoch (0 is plaintext).
  datatype Item = Hs(msg: Msg, epoch: nat) | Ccs(epoch: nat)

  // What the hellos and the configurations settle.
  datatype Params = Params(
    resumed: bool,     // ssl->session != NULL
    certAuth: bool,    // ssl_cipher_uses_certificate_auth
    ocsp: bool,        // certificate_status_expected
    ecdhe: bool,       // ssl_cipher_requires_server_key_exchange
    psk: bool,         // algorithm_auth & SSL_aPSK
    hint: bool,        // psk_identity_hint
    certReq: bool,     // the server asks for a certificate
    clientCert: bool,  // the client has one
    ticket: bool,      // ticket_expected
    npn: bool,         // next_proto_neg_seen
    channelId: bool)   // tlsext_channel_id_valid

  // do_select_parameters clears cert_request for ciphers without certificates.
  predicate ParamsOk(p: Params) {
    p.certReq ==> p.certAuth
  }

  // Whether the server sends a ServerKeyExchange.
  predicate SendsSke(p: Params) {
    p.ecdhe || (p.psk && p.hint)
  }

  datatype Fault = Unexpected | BadFinished | Refused

  // ssl_hs_wait_t; Later stands for the operations that the caller has to retry.
  datatype Wait = Proceed | Flush | ReadMessage | ReadCcs | Later | Failed(fault: Fault)

  // What a local operation that this model leaves out does.
  datatype Outcome = Works | NotYet | Fails

  datatype Event = SentCcs | WriteKey | SentFinished | GotCcs | ReadKey | VerifiedFinished

  datatype ClientState =
    | StartConnect | EnterEarlyData | ReadServerHello | ReadServerCertificate | ReadCertificateStatus
    | VerifyServerCertificate | ReadServerKeyExchange | ReadCertificateRequest | ReadServerHelloDone
    | SendClientCertificate | SendClientKeyExchange | SendClientCertificateVerify | SendClientFinished
    | FinishFlight | ReadSessionTicket | ProcessServerCcs | ReadServerFinished | FinishClient | ClientDone

  datatype ServerState =
    | StartAccept | ReadClientHello | SelectCertificate | SelectParameters | SendServerHello | SendServerCertificate
    | SendServerKeyExchange | SendServerHelloDone | ReadClientCertificate | VerifyClientCertificate
    | ReadClientKeyExchange | ReadClientCertificateVerify | ReadClientCcs | ProcessClientCcs | ReadNextProto
    | ReadChannelId | ReadClientFinished | SendServerFinished | FinishServer | ServerDone

  // One side of a connection. certRequest and peerCert are what it learned from messages.
  datatype Endpoint<S> = Endpoint(
    state: S, wait: Wait, certRequest: bool, peerCert: bool, transcript: seq<Msg>,
    readEpoch: nat, writeEpoch: nat, pending: seq<Item>, log: seq<Event>)

  type Client = Endpoint<ClientState>
  type Server = Endpoint<ServerState>

  // ---------- operations of both sides ----------

  // get_message has a message to give.
  predicate Available<S>(e: Endpoint<S>, inbox: seq<Item>) {
    inbox != [] && inbox[0].Hs? && inbox[0].epoch == e.readEpoch
  }

  function Goto<S>(e: Endpoint<S>, s: S): Endpoint<S> {
    e.(state := s, wait := Proceed)
  }

  function Emit<S>(e: Endpoint<S>, m: Msg): (r: Endpoint<S>)
    ensures r.state == e.state && r.log == e.log
    ensures r.readEpoch == e.readEpoch && r.writeEpoch == e.writeEpoch
  {
    e.(pending := e.pending + [Hs(m, e.writeEpoch)], transcript := e.transcript + [m])
  }

  function EmitIf<S>(e: Endpoint<S>, b: bool, m: Msg): (r: Endpoint<S>)
    ensures r.state == e.state && r.log == e.log
    ensures r.readEpoch == e.readEpoch && r.writeEpoch == e.writeEpoch
  {
    if b then Emit(e, m) else e
  }

  function Plain(k: Kind): Msg {
    Msg(k, false, [])
  }

  // add_change_cipher_spec and the write keys of the next epoch.
  function SwitchWrite<S>(e: Endpoint<S>): (r: Endpoint<S>)
    ensures r.state == e.state && r.log == e.log + [SentCcs, WriteKey]
    ensures r.readEpoch == e.readEpoch && r.writeEpoch == e.writeEpoch + 1
  {
    e.(pending := e.pending + [Ccs(e.writeEpoch)], writeEpoch := e.writeEpoch + 1, log := e.log + [SentCcs, WriteKey])
  }

  function SwitchRead<S>(e: Endpoint<S>): (r: Endpoint<S>)
    ensures r.state == e.state && r.log == e.log + [ReadKey]
    ensures r.readEpoch == e.readEpoch + 1 && r.writeEpoch == e.writeEpoch
  {
    e.(readEpoch := e.readEpoch + 1, log := e.log + [ReadKey])
  }

  // ssl_send_finished.
  function SendFinished<S>(e: Endpoint<S>): (r: Endpoint<S>)
    ensures r.state == e.state && r.log == e.log + [SentFinished]
    ensures r.readEpoch == e.readEpoch && r.writeEpoch == e.writeEpoch
  {
    var e' := Emit(e, Msg(Finished, false, e.transcript));
    e'.(log := e.log + [SentFinished])
  }

  // Hashing the message at the head of the inbox and moving on.
  function Hash<S>(e: Endpoint<S>, inbox: seq<Item>): (r: Endpoint<S>)
    requires Available(e, inbox)
    ensures r.state == e.state && r.log == e.log
    ensures r.readEpoch == e.readEpoch && r.writeEpoch == e.writeEpoch
  {
    e.(transcript := e.transcript + [inbox[0].msg])
  }

  // A state that reads a message of the given kind and goes to s.
  function Read<S>(e: Endpoint<S>, inbox: seq<Item>, k: Kind, s: S): (r: (Endpoint<S>, seq<Item>))
    ensures r.0.state == if r.0.wait.Proceed? then s else e.state
    ensures r.0.log == e.log && (r.0.wait.Proceed? || r.0.wait.ReadMessage? || r.0.wait.Failed?)
    ensures r.0.wait.Proceed? ==> inbox != [] && inbox[0].Hs?
    ensures r.0.readEpoch == e.readEpoch && r.0.writeEpoch == e.writeEpoch
  {
    if !Available(e, inbox) then (e.(wait := ReadMessage), inbox)
    else if inbox[0].msg.kind != k then (e.(wait := Failed(Unexpected)), inbox)
    else (Goto(Hash(e, inbox), s), inbox[1..])
  }

  // ssl_get_finished: the MAC is compared with one over the transcript before this message.
  function ReadFinished<S>(e: Endpoint<S>, inbox: seq<Item>, s: S): (r: (Endpoint<S>, seq<Item>))
    ensures r.0.state == if r.0.wait.Proceed? then s else e.state
    ensures r.0.log == e.log + if r.0.wait.Proceed? then [VerifiedFinished] else []
    ensures r.0.wait.Proceed? || r.0.wait.ReadMessage? || r.0.wait.Failed?
    ensures r.0.readEpoch == e.readEpoch && r.0.writeEpoch == e.writeEpoch
  {
    if !Available(e, inbox) then (e.(wait := ReadMessage), inbox)
    else if inbox[0].msg.kind != Finished then (e.(wait := Failed(Unexpected)), inbox)
    else if inbox[0].msg.covered != e.transcript then (Hash(e, inbox).(wait := Failed(BadFinished)), inbox)
    else (Goto(Hash(e, inbox), s).(log := e.log + [VerifiedFinished]), inbox[1..])
  }

  // ---------- the client ----------

  // One turn of the loop of ssl_client_handshake.
  function ClientDo(p: Params, e: Client, inbox: seq<Item>, o: Outcome): (Client, seq<Item>)
    requires e.state != ClientDone
  {
    if o.Fails? then (e.(wait := Failed(Refused)), inbox)
    else
      match e.state
      case StartConnect => (Emit(e, Plain(ClientHello)).(state := EnterEarlyData, wait := Flush), inbox)
      case EnterEarlyData => (Goto(e, ReadServerHello), inbox)
      case ReadServerHello => Read(e, inbox, ServerHello, if p.resumed then ReadSessionTicket else ReadServerCertificate)
      case ReadServerCertificate =>
        if !p.certAuth then (Goto(e, ReadCertificateStatus), inbox)
        else Read(e, inbox, Certificate, ReadCertificateStatus)
      case ReadCertificateStatus =>
        if !p.ocsp then (Goto(e, VerifyServerCertificate), inbox)
        else if !Available(e, inbox) then (e.(wait := ReadMessage), inbox)
        else if inbox[0].msg.kind != CertificateStatus then (Goto(e, VerifyServerCertificate), inbox)
        else (Goto(Hash(e, inbox), VerifyServerCertificate), inbox[1..])
      case VerifyServerCertificate =>
        if !p.certAuth then (Goto(e, ReadServerKeyExchange), inbox)
        else if o.NotYet? then (e.(wait := Later), inbox)
        else (Goto(e, ReadServerKeyExchange), inbox)
      case ReadServerKeyExchange =>
        if !Available(e, inbox) then (e.(wait := ReadMessage), inbox)
        else if inbox[0].msg.kind != ServerKeyExchange then
          if p.ecdhe then (e.(wait := Failed(Unexpected)), inbox) else (Goto(e, ReadCertificateRequest), inbox)
        else if !p.ecdhe && !p.psk then (Hash(e, inbox).(wait := Failed(Unexpected)), inbox)
        else (Goto(Hash(e, inbox), ReadCertificateRequest), inbox[1..])
      case ReadCertificateRequest =>
        if !p.certAuth then (Goto(e, ReadServerHelloDone), inbox)
        else if Available(e, inbox) && inbox[0].msg.kind == ServerHelloDone then (Goto(e, ReadServerHelloDone), inbox)
        else
          var (e', inbox') := Read(e, inbox, CertificateRequest, ReadServerHelloDone);
          (if e'.wait.Proceed? then e'.(certRequest := true) else e', inbox')
      case ReadServerHelloDone => Read(e, inbox, ServerHelloDone, SendClientCertificate)
      case SendClientCertificate =>
        if !e.certRequest then (Goto(e, SendClientKeyExchange), inbox)
        else if o.NotYet? then (e.(wait := Later), inbox)
        else (Goto(Emit(e, Msg(Certificate, p.clientCert, [])), SendClientKeyExchange), inbox)
      case SendClientKeyExchange => (Goto(Emit(e, Plain(ClientKeyExchange)), SendClientCertificateVerify), inbox)
      case SendClientCertificateVerify =>
        if !e.certRequest || !p.clientCert then (Goto(e, SendClientFinished), inbox)
        else if o.NotYet? then (e.(wait := Later), inbox)
        else (Goto(Emit(e, Plain(CertificateVerify)), SendClientFinished), inbox)
      case SendClientFinished =>
        if p.channelId && o.NotYet? then (e.(wait := Later), inbox)
        else
          var e1 := EmitIf(EmitIf(SwitchWrite(e), p.npn, Plain(NextProto)), p.channelId, Plain(ChannelId));
          (SendFinished(e1).(state := FinishFlight, wait := Flush), inbox)
      case FinishFlight => (Goto(e, if p.resumed then FinishClient else ReadSessionTicket), inbox)
      case ReadSessionTicket =>
        if !p.ticket then (e.(state := ProcessServerCcs, wait := ReadCcs), inbox)
        else
          var (e', inbox') := Read(e, inbox, NewSessionTicket, ProcessServerCcs);
          (if e'.wait.Proceed? then e'.(wait := ReadCcs) else e', inbox')
      case ProcessServerCcs => (Goto(SwitchRead(e), ReadServerFinished), inbox)
      case ReadServerFinished => ReadFinished(e, inbox, if p.resumed then SendClientFinished else FinishClient)
      case FinishClient => (Goto(e, ClientDone), inbox)
  }

  // ---------- the server ----------

  // One turn of the loop of ssl_server_handshake.
  function ServerDo(p: Params, e: Server, inbox: seq<Item>, o: Outcome): (Server, seq<Item>)
    requires e.state != ServerDone
  {
    if o.Fails? then (e.(wait := Failed(Refused)), inbox)
    else
      match e.state
      case StartAccept => (Goto(e, ReadClientHello), inbox)
      case ReadClientHello =>
        if !Available(e, inbox) then (e.(wait := ReadMessage), inbox)
        else if inbox[0].msg.kind != ClientHello then (e.(wait := Failed(Unexpected)), inbox)
        else if o.NotYet? then (e.(wait := Later), inbox)
        else (Goto(e, SelectCertificate), inbox)
      case SelectCertificate =>
        if !Available(e, inbox) then (e.(wait := ReadMessage), inbox)
        else if o.NotYet? then (e.(wait := Later), inbox)
        else (Goto(e, SelectParameters), inbox)
      case SelectParameters =>
        if !Available(e, inbox) then (e.(wait := ReadMessage), inbox)
        else if o.NotYet? then (e.(wait := Later), inbox)
        else (Goto(Hash(e, inbox), SendServerHello), inbox[1..])
      case SendServerHello =>
        (Goto(Emit(e, Plain(ServerHello)), if p.resumed then SendServerFinished else SendServerCertificate), inbox)
      case SendServerCertificate =>
        var e1 := EmitIf(EmitIf(e, p.certAuth, Msg(Certificate, true, [])), p.certAuth && p.ocsp, Plain(CertificateStatus));
        (Goto(e1, SendServerKeyExchange), inbox)
      case SendServerKeyExchange =>
        if !SendsSke(p) then (Goto(e, SendServerHelloDone), inbox)
        else if p.certAuth && o.NotYet? then (e.(wait := Later), inbox)
        else (Goto(Emit(e, Plain(ServerKeyExchange)), SendServerHelloDone), inbox)
      case SendServerHelloDone =>
        var e1 := Emit(EmitIf(e, p.certReq, Plain(CertificateRequest)), Plain(ServerHelloDone));
        (e1.(state := ReadClientCertificate, wait := Flush), inbox)
      case ReadClientCertificate =>
        if !p.certReq then (Goto(e, VerifyClientCertificate), inbox)
        else
          var (e', inbox') := Read(e, inbox, Certificate, VerifyClientCertificate);
          (if e'.wait.Proceed? then e'.(peerCert := inbox[0].msg.present) else e', inbox')
      case VerifyClientCertificate =>
        if e.peerCert && o.NotYet? then (e.(wait := Later), inbox)
        else (Goto(e, ReadClientKeyExchange), inbox)
      case ReadClientKeyExchange =>
        if Available(e, inbox) && inbox[0].msg.kind == ClientKeyExchange && o.NotYet? then (e.(wait := Later), inbox)
        else Read(e, inbox, ClientKeyExchange, ReadClientCertificateVerify)
      case ReadClientCertificateVerify =>
        if !e.peerCert then (Goto(e, ReadClientCcs), inbox)
        else Read(e, inbox, CertificateVerify, ReadClientCcs)
      case ReadClientCcs => (e.(state := ProcessClientCcs, wait := ReadCcs), inbox)
      case ProcessClientCcs => (Goto(SwitchRead(e), ReadNextProto), inbox)
      case ReadNextProto =>
        if !p.npn then (Goto(e, ReadChannelId), inbox) else Read(e, inbox, NextProto, ReadChannelId)
      case ReadChannelId =>
        if !p.channelId then (Goto(e, ReadClientFinished), inbox) else Read(e, inbox, ChannelId, ReadClientFinished)
      case ReadClientFinished => ReadFinished(e, inbox, if p.resumed then FinishServer else SendServerFinished)
      case SendServerFinished =>
        var e1 := SendFinished(SwitchWrite(EmitIf(e, p.ticket, Plain(NewSessionTicket))));
        (e1.(state := if p.resumed then ReadClientCcs else FinishServer, wait := Flush), inbox)
      case FinishServer => (Goto(e, ServerDone), inbox)
  }

  // ---------- the driver ----------

  // ssl_run_handshake resolves what the machine waits for: the endpoint, what is left of the
  // inbox and what goes out on the wire.
  function Resolve<S>(e: Endpoint<S>, inbox: seq<Item>): (Endpoint<S>, seq<Item>, seq<Item>) {
    match e.wait
    case Proceed => (e, inbox, [])
    case Flush => (e.(wait := Proceed, pending := []), inbox, e.pending)
    case ReadMessage =>
      if inbox == [] then (e, inbox, [])
      else if Available(e, inbox) then (e.(wait := Proceed), inbox, [])
      else (e.(wait := Failed(Unexpected)), inbox, [])
    case ReadCcs =>
      if inbox == [] then (e, inbox, [])
      else if inbox[0] == Ccs(e.readEpoch) then (e.(wait := Proceed, log := e.log + [GotCcs]), inbox[1..], [])
      else (e.(wait := Failed(Unexpected)), inbox, [])
    case Later => (e.(wait := Proceed), inbox, [])
    case Failed(_) => (e, inbox, [])
  }

  // ---------- termination ----------

  // The order of the states depends on resumption: the server finishes first when resuming.
  function ClientRank(s: ClientState, resumed: bool): nat {
    match s
    case StartConnect => 0
    case EnterEarlyData => 1
    case ReadServerHello => 2
    case ReadServerCertificate => 3
    case ReadCertificateStatus => 4
    case VerifyServerCertificate => 5
    case ReadServerKeyExchange => 6
    case ReadCertificateRequest => 7
    case ReadServerHelloDone => 8
    case SendClientCertificate => 9
    case SendClientKeyExchange => 10
    case SendClientCertificateVerify => 11
    case SendClientFinished => if resumed then 20 else 12
    case FinishFlight => if resumed then 21 else 13
    case ReadSessionTicket => 14
    case ProcessServerCcs => 15
    case ReadServerFinished => 16
    case FinishClient => 22
    case ClientDone => 23
  }

  function ServerRank(s: ServerState, resumed: bool): nat {
    match s
    case StartAccept => 0
    case ReadClientHello => 1
    case SelectCertificate => 2
    case SelectParameters => 3
    case SendServerHello => 4
    case SendServerCertificate => 5
    case SendServerKeyExchange => 6
    case SendServerHelloDone => 7
    case ReadClientCertificate => 8
    case VerifyClientCertificate => 9
    case ReadClientKeyExchange => 10
    case ReadClientCertificateVerify => 11
    case ReadClientCcs => 12
    case ProcessClientCcs => 13
    case ReadNextProto => 14
    case ReadChannelId => 15
    case ReadClientFinished => 16
    case SendServerFinished => if resumed then 11 else 17
    case FinishServer => 18
    case ServerDone => 19
  }

  // The state that follows s; each state has one successor for given parameters.
  function ClientNext(p: Params, s: ClientState): ClientState
    requires s != ClientDone
  {
    match s
    case StartConnect => EnterEarlyData
    case EnterEarlyData => ReadServerHello
    case ReadServerHello => if p.resumed then ReadSessionTicket else ReadServerCertificate
    case ReadServerCertificate => ReadCertificateStatus
    case ReadCertificateStatus => VerifyServerCertificate
    case VerifyServerCertificate => ReadServerKeyExchange
    case ReadServerKeyExchange => ReadCertificateRequest
    case ReadCertificateRequest => ReadServerHelloDone
    case ReadServerHelloDone => SendClientCertificate
    case SendClientCertificate => SendClientKeyExchange
    case SendClientKeyExchange => SendClientCertificateVerify
    case SendClientCertificateVerify => SendClientFinished
    case SendClientFinished => FinishFlight
    case FinishFlight => if p.resumed then FinishClient else ReadSessionTicket
    case ReadSessionTicket => ProcessServerCcs
    case ProcessServerCcs => ReadServerFinished
    case ReadServerFinished => if p.resumed then SendClientFinished else FinishClient
    case FinishClient => ClientDone
  }

  function ServerNext(p: Params, s: ServerState): ServerState
    requires s != ServerDone
  {
    match s
    case StartAccept => ReadClientHello
    case ReadClientHello => SelectCertificate
    case SelectCertificate => SelectParameters
    case SelectParameters => SendServerHello
    case SendServerHello => if p.resumed then SendServerFinished else SendServerCertificate
    case SendServerCertificate => SendServerKeyExchange
    case SendServerKeyExchange => SendServerHelloDone
    case SendServerHelloDone => ReadClientCertificate
    case ReadClientCertificate => VerifyClientCertificate
    case VerifyClientCertificate => ReadClientKeyExchange
    case ReadClientKeyExchange => ReadClientCertificateVerify
    case ReadClientCertificateVerify => ReadClientCcs
    case ReadClientCcs => ProcessClientCcs
    case ProcessClientCcs => ReadNextProto
    case ReadNextProto => ReadChannelId
    case ReadChannelId => ReadClientFinished
    case ReadClientFinished => if p.resumed then FinishServer else SendServerFinished
    case SendServerFinished => if p.resumed then ReadClientCcs else FinishServer
    case FinishServer => ServerDone
  }

  lemma ClientMoves(p: Params, e: Client, inbox: seq<Item>, o: Outcome)
    requires e.state != ClientDone
    ensures var e' := ClientDo(p, e, inbox, o).0;
            (e'.wait.Proceed? ==> e'.state == ClientNext(p, e.state)) && (e'.state == e.state || e'.state == ClientNext(p, e.state))
  {
    hide Available, Emit, EmitIf, SendFinished, SwitchWrite, SwitchRead, Hash, Read, ReadFinished;
  }

  lemma ServerMoves(p: Params, e: Server, inbox: seq<Item>, o: Outcome)
    requires e.state != ServerDone
    ensures var e' := ServerDo(p, e, inbox, o).0;
            (e'.wait.Proceed? ==> e'.state == ServerNext(p, e.state)) && (e'.state == e.state || e'.state == ServerNext(p, e.state))
  {
    hide Available, Emit, EmitIf, SendFinished, SwitchWrite, SwitchRead, Hash, Read, ReadFinished;
  }

  // Every turn that changes the state, and so every turn that lets the loop go on, raises the rank.
  lemma ClientRankRises(p: Params, e: Client, inbox: seq<Item>, o: Outcome)
    requires e.state != ClientDone && (p.resumed ==> ResumedClient(e.state))
    ensures var e' := ClientDo(p, e, inbox, o).0;
            && (e'.wait.Proceed? || e'.state != e.state ==> ClientRank(e'.state, p.resumed) > ClientRank(e.state, p.resumed))
            && (p.resumed ==> ResumedClient(e'.state))
  {
    hide ClientDo;
    ClientMoves(p, e, inbox, o);
  }

  lemma ServerRankRises(p: Params, e: Server, inbox: seq<Item>, o: Outcome)
    requires e.state != ServerDone && (p.resumed ==> ResumedServer(e.state))
    ensures var e' := ServerDo(p, e, inbox, o).0;
            && (e'.wait.Proceed? || e'.state != e.state ==> ServerRank(e'.state, p.resumed) > ServerRank(e.state, p.resumed))
            && (p.resumed ==> ResumedServer(e'.state))
  {
    hide ServerDo;
    ServerMoves(p, e, inbox, o);
  }

  // The states of a resumed handshake.
  predicate ResumedClient(s: ClientState) {
    !(s.ReadServerCertificate? || s.ReadCertificateStatus? || s.VerifyServerCertificate? || s.ReadServerKeyExchange?
      || s.ReadCertificateRequest? || s.ReadServerHelloDone? || s.SendClientCertificate? || s.SendClientKeyExchange?
      || s.SendClientCertificateVerify?)
  }

  predicate ResumedServer(s: ServerState) {
    !(s.SendServerCertificate? || s.SendServerKeyExchange? || s.SendServerHelloDone? || s.ReadClientCertificate?
      || s.VerifyClientCertificate? || s.ReadClientKeyExchange? || s.ReadClientCertificateVerify?)
  }

  // ---------- the Finished discipline ----------

  const SENDS: seq<Event> := [SentCcs, WriteKey, SentFinished]
  const GETS: seq<Event> := [GotCcs, ReadKey, VerifiedFinished]

  // What has happened when the client stands in state s; waiting is true before the server's
  // ChangeCipherSpec is in.
  function ClientLog(s: ClientState, waiting: bool, resumed: bool): seq<Event> {
    var before := if resumed then [] else SENDS;
    match s
    case SendClientFinished => if resumed then GETS else []
    case FinishFlight => if resumed then GETS + SENDS else SENDS
    case ReadSessionTicket => before
    case ProcessServerCcs => if waiting then before else before + [GotCcs]
    case ReadServerFinished => before + [GotCcs, ReadKey]
    case FinishClient => if resumed then GETS + SENDS else SENDS + GETS
    case ClientDone => if resumed then GETS + SENDS else SENDS + GETS
    case _ => []
  }

  function ServerLog(s: ServerState, waiting: bool, resumed: bool): seq<Event> {
    var before := if resumed then SENDS else [];
    match s
    case ReadClientCcs => before
    case ProcessClientCcs => if waiting then before else before + [GotCcs]
    case ReadNextProto => before + [GotCcs, ReadKey]
    case ReadChannelId => before + [GotCcs, ReadKey]
    case ReadClientFinished => before + [GotCcs, ReadKey]
    case SendServerFinished => if resumed then [] else GETS
    case FinishServer => if resumed then SENDS + GETS else GETS + SENDS
    case ServerDone => if resumed then SENDS + GETS else GETS + SENDS
    case _ => []
  }

  predicate ClientLogged(p: Params, e: Client) {
    && (p.resumed ==> ResumedClient(e.state))
    && (!e.wait.Failed? ==> e.log == ClientLog(e.state, e.wait.ReadCcs?, p.resumed))
    && (e.wait.ReadCcs? ==> e.state.ProcessServerCcs?)
    && (e.state.ProcessServerCcs? ==> e.wait.ReadCcs? || e.wait.Proceed? || e.wait.Failed?)
    && (e.state.ClientDone? ==> e.wait.Proceed?)
  }

  predicate ServerLogged(p: Params, e: Server) {
    && (p.resumed ==> ResumedServer(e.state))
    && (!e.wait.Failed? ==> e.log == ServerLog(e.state, e.wait.ReadCcs?, p.resumed))
    && (e.wait.ReadCcs? ==> e.state.ProcessClientCcs?)
    && (e.state.ProcessClientCcs? ==> e.wait.ReadCcs? || e.wait.Proceed? || e.wait.Failed?)
    && (e.state.ServerDone? ==> e.wait.Proceed?)
  }

  // What a turn of the client adds to the log.
  function ClientAdds(s: ClientState): seq<Event> {
    if s.SendClientFinished? then SENDS
    else if s.ProcessServerCcs? then [ReadKey]
    else if s.ReadServerFinished? then [VerifiedFinished]
    else []
  }

  function ServerAdds(s: ServerState): seq<Event> {
    if s.SendServerFinished? then SENDS
    else if s.ProcessClientCcs? then [ReadKey]
    else if s.ReadClientFinished? then [VerifiedFinished]
    else []
  }

  lemma ClientDelta(p: Params, e: Client, inbox: seq<Item>, o: Outcome)
    requires e.state != ClientDone
    ensures var e' := ClientDo(p, e, inbox, o).0;
            && (!e'.wait.Failed? ==> e'.log == if e'.state != e.state then e.log + ClientAdds(e.state) else e.log)
            && (e'.wait.ReadCcs? <==> e'.state.ProcessServerCcs? && e.state.ReadSessionTicket?)
            && (e.state.ProcessServerCcs? && e'.state == e.state ==> e'.wait.Failed?)
            && (e'.state.ClientDone? ==> e'.wait.Proceed?)
  {
    hide Available, Emit, EmitIf, SendFinished, SwitchWrite, SwitchRead, Hash, Read, ReadFinished, ClientAdds;
    ClientDoAdds(p, e, inbox, o);
  }

  lemma ClientDoAdds(p: Params, e: Client, inbox: seq<Item>, o: Outcome)
    requires e.state != ClientDone
    ensures var e' := ClientDo(p, e, inbox, o).0;
            !e'.wait.Failed? ==> e'.log == if e'.state != e.state then e.log + ClientAdds(e.state) else e.log
  {
    hide Available, Emit, EmitIf, SendFinished, SwitchWrite, SwitchRead, Hash, Read, ReadFinished;
  }

  lemma ServerDelta(p: Params, e: Server, inbox: seq<Item>, o: Outcome)
    requires e.state != ServerDone
    ensures var e' := ServerDo(p, e, inbox, o).0;
            && (!e'.wait.Failed? ==> e'.log == if e'.state != e.state then e.log + ServerAdds(e.state) else e.log)
            && (e'.wait.ReadCcs? <==> e'.state.ProcessClientCcs? && e.state.ReadClientCcs?)
            && (e.state.ProcessClientCcs? && e'.state == e.state ==> e'.wait.Failed?)
            && (e'.state.ServerDone? ==> e'.wait.Proceed?)
  {
    hide Available, Emit, EmitIf, SendFinished, SwitchWrite, SwitchRead, Hash, Read, ReadFinished, ServerAdds;
    ServerDoAdds(p, e, inbox, o);
  }

  lemma ServerDoAdds(p: Params, e: Server, inbox: seq<Item>, o: Outcome)
    requires e.state != ServerDone
    ensures var e' := ServerDo(p, e, inbox, o).0;
            !e'.wait.Failed? ==> e'.log == if e'.state != e.state then e.log + ServerAdds(e.state) else e.log
  {
    hide Available, Emit, EmitIf, SendFinished, SwitchWrite, SwitchRead, Hash, Read, ReadFinished;
  }

  lemma ClientDoLogs(p: Params, e: Client, inbox: seq<Item>, o: Outcome)
    requires ClientLogged(p, e) && e.wait.Proceed? && e.state != ClientDone
    ensures ClientLogged(p, ClientDo(p, e, inbox, o).0)
  {
    hide ClientDo, ClientLog, ClientAdds, ClientNext, ResumedClient;
    ClientMoves(p, e, inbox, o);
    ClientDelta(p, e, inbox, o);
    ClientLogNext(p, e.state);
  }

  // The log that belongs to the next state.
  lemma ClientLogNext(p: Params, s: ClientState)
    requires s != ClientDone && (p.resumed ==> ResumedClient(s))
    ensures p.resumed ==> ResumedClient(ClientNext(p, s))
    ensures ClientNext(p, s).ProcessServerCcs? <==> s.ReadSessionTicket?
    ensures ClientLog(ClientNext(p, s), s.ReadSessionTicket?, p.resumed) == ClientLog(s, false, p.resumed) + ClientAdds(s)
  {
  }

  lemma ServerDoLogs(p: Params, e: Server, inbox: seq<Item>, o: Outcome)
    requires ServerLogged(p, e) && e.wait.Proceed? && e.state != ServerDone
    ensures ServerLogged(p, ServerDo(p, e, inbox, o).0)
  {
    hide ServerDo, ServerLog, ServerAdds, ServerNext, ResumedServer;
    ServerMoves(p, e, inbox, o);
    ServerDelta(p, e, inbox, o);
    ServerLogNext(p, e.state);
  }

  // The log that belongs to the next state.
  lemma ServerLogNext(p: Params, s: ServerState)
    requires s != ServerDone && (p.resumed ==> ResumedServer(s))
    ensures p.resumed ==> ResumedServer(ServerNext(p, s))
    ensures ServerNext(p, s).ProcessClientCcs? <==> s.ReadClientCcs?
    ensures ServerLog(ServerNext(p, s), s.ReadClientCcs?, p.resumed) == ServerLog(s, false, p.resumed) + ServerAdds(s)
  {
  }

  // One step of an endpoint: a turn of its machine, or its driver resolving a wait. The results
  // are the endpoint, what is left of the inbox and what goes out.
  function ClientStep(p: Params, e: Client, inbox: seq<Item>, o: Outcome): (Client, seq<Item>, seq<Item>) {
    if e.wait.Proceed? && e.state != ClientDone then
      var (e', inbox') := ClientDo(p, e, inbox, o);
      (e', inbox', [])
    else Resolve(e, inbox)
  }

  function ServerStep(p: Params, e: Server, inbox: seq<Item>, o: Outcome): (Server, seq<Item>, seq<Item>) {
    if e.wait.Proceed? && e.state != ServerDone then
      var (e', inbox') := ServerDo(p, e, inbox, o);
      (e', inbox', [])
    else Resolve(e, inbox)
  }

  const NEW_CLIENT: Client := Endpoint(StartConnect, Proceed, false, false, [], 0, 0, [], [])
  const NEW_SERVER: Server := Endpoint(StartAccept, Proceed, false, false, [], 0, 0, [], [])

  // What the world does in one step: the items that have arrived, in any way at all, and the
  // outcome of the local operation.
  datatype World = World(inbox: seq<Item>, outcome: Outcome)

  function ClientRun(p: Params, e: Client, ws: seq<World>): Client
    decreases |ws|
  {
    if ws == [] then e else ClientRun(p, ClientStep(p, e, ws[0].inbox, ws[0].outcome).0, ws[1..])
  }

  function ServerRun(p: Params, e: Server, ws: seq<World>): Server
    decreases |ws|
  {
    if ws == [] then e else ServerRun(p, ServerStep(p, e, ws[0].inbox, ws[0].outcome).0, ws[1..])
  }

  lemma ClientStepLogs(p: Params, e: Client, inbox: seq<Item>, o: Outcome)
    requires ClientLogged(p, e)
    ensures ClientLogged(p, ClientStep(p, e, inbox, o).0)
  {
    if e.wait.Proceed? && e.state != ClientDone {
      ClientDoLogs(p, e, inbox, o);
      hide ClientDo, ClientLogged;
    } else {
      hide Available, ClientDo;
    }
  }

  lemma ServerStepLogs(p: Params, e: Server, inbox: seq<Item>, o: Outcome)
    requires ServerLogged(p, e)
    ensures ServerLogged(p, ServerStep(p, e, inbox, o).0)
  {
    if e.wait.Proceed? && e.state != ServerDone {
      ServerDoLogs(p, e, inbox, o);
      hide ServerDo, ServerLogged;
    } else {
      hide Available, ServerDo;
    }
  }

  lemma {:induction false} ClientRunLogs(p: Params, e: Client, ws: seq<World>)
    requires ClientLogged(p, e)
    ensures ClientLogged(p, ClientRun(p, e, ws))
    decreases |ws|
  {
    if ws != [] {
      hide ClientLogged, ClientStep;
      ClientStepLogs(p, e, ws[0].inbox, ws[0].outcome);
      ClientRunLogs(p, ClientStep(p, e, ws[0].inbox, ws[0].outcome).0, ws[1..]);
    }
  }

  lemma {:induction false} ServerRunLogs(p: Params, e: Server, ws: seq<World>)
    requires ServerLogged(p, e)
    ensures ServerLogged(p, ServerRun(p, e, ws))
    decreases |ws|
  {
    if ws != [] {
      hide ServerLogged, ServerStep;
      ServerStepLogs(p, e, ws[0].inbox, ws[0].outcome);
      ServerRunLogs(p, ServerStep(p, e, ws[0].inbox, ws[0].outcome).0, ws[1..]);
    }
  }

  // Whatever the peer sends, a client that reaches the end sent one Finished, after its
  // ChangeCipherSpec and the switch of its write keys, and verified one, after the peer's
  // ChangeCipherSpec and the switch of its read keys: its own first in a full handshake, the
  // server's first in a resumed one.
  lemma ClientFinishedDiscipline(p: Params, ws: seq<World>)
    requires ClientRun(p, NEW_CLIENT, ws).state == ClientDone
    ensures ClientRun(p, NEW_CLIENT, ws).log == if p.resumed then GETS + SENDS else SENDS + GETS
  {
    hide ClientRun;
    ClientRunLogs(p, NEW_CLIENT, ws);
  }

  lemma ServerFinishedDiscipline(p: Params, ws: seq<World>)
    requires ServerRun(p, NEW_SERVER, ws).state == ServerDone
    ensures ServerRun(p, NEW_SERVER, ws).log == if p.resumed then SENDS + GETS else GETS + SENDS
  {
    hide ServerRun;
    ServerRunLogs(p, NEW_SERVER, ws);
  }
}
