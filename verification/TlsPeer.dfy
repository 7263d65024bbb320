// What either side has seen when it completes a handshake, whatever its peer and the network send.
module TlsPeer {
  import opened TlsHandshake

  function Kinds(t: seq<Msg>): (r: seq<Kind>)
    ensures |r| == |t|
  {
    seq(|t|, i requires 0 <= i < |t| => t[i].kind)
  }

  lemma KindsAppend(t: seq<Msg>, m: Msg)
    ensures Kinds(t + [m]) == Kinds(t) + [m.kind]
  {
  }

  // Every Finished covers exactly the messages before it.
  ghost predicate Covers(t: seq<Msg>) {
    forall n: nat | n < |t| && t[n].kind == Finished :: t[n].covered == t[..n]
  }

  lemma CoversAppend(t: seq<Msg>, m: Msg)
    requires Covers(t) && (m.kind == Finished ==> m.covered == t)
    ensures Covers(t + [m])
  {
    forall n: nat | n < |t + [m]| && (t + [m])[n].kind == Finished
      ensures (t + [m])[n].covered == (t + [m])[..n]
    {
      if n < |t| {
        assert t[n] == (t + [m])[n] && (t + [m])[..n] == t[..n];
      } else {
        assert (t + [m])[..n] == t;
      }
    }
  }

  function Opt(b: bool, k: Kind): seq<Kind> {
    if b then [k] else []
  }

  // ---------- the client ----------

  // What the server chose to send of the messages that it may leave out.
  datatype Choice = Choice(status: bool, keyExchange: bool, request: bool)

  // A stapled response only when it was negotiated; a key exchange when the cipher needs it, and
  // otherwise only with a pre-shared key; a certificate request only with certificates.
  predicate ChoiceOk(p: Params, c: Choice) {
    && (c.status ==> p.ocsp)
    && (p.ecdhe ==> c.keyExchange) && (c.keyExchange ==> p.ecdhe || p.psk)
    && (c.request ==> p.certAuth)
  }

  function ServerFlight(p: Params, c: Choice): seq<Kind> {
    [ClientHello, ServerHello] + Opt(p.certAuth, Certificate) + Opt(c.status, CertificateStatus)
    + Opt(c.keyExchange, ServerKeyExchange) + Opt(c.request, CertificateRequest) + [ServerHelloDone]
  }

  // The client's view of a complete handshake (section 7.3 of RFC 5246).
  function ClientSequence(p: Params, c: Choice): seq<Kind> {
    if p.resumed then
      [ClientHello, ServerHello] + Opt(p.ticket, NewSessionTicket) + [Finished]
      + Opt(p.npn, NextProto) + Opt(p.channelId, ChannelId) + [Finished]
    else
      ServerFlight(p, c) + Opt(c.request, Certificate) + [ClientKeyExchange] + Opt(c.request && p.clientCert, CertificateVerify)
      + Opt(p.npn, NextProto) + Opt(p.channelId, ChannelId) + [Finished]
      + Opt(p.ticket, NewSessionTicket) + [Finished]
  }

  // The part of it that the client has hashed when it stands in a state.
  function ClientSeen(p: Params, c: Choice, s: ClientState): seq<Kind> {
    var hellos := [ClientHello, ServerHello];
    var certs := hellos + Opt(p.certAuth, Certificate);
    var status := certs + Opt(c.status, CertificateStatus);
    var keys := status + Opt(c.keyExchange, ServerKeyExchange);
    var asked := keys + Opt(c.request, CertificateRequest);
    var done := ServerFlight(p, c);
    var answered := done + Opt(c.request, Certificate);
    var exchanged := answered + [ClientKeyExchange];
    var verified := exchanged + Opt(c.request && p.clientCert, CertificateVerify);
    var resumed := hellos + Opt(p.ticket, NewSessionTicket);
    var flight := (if p.resumed then resumed + [Finished] else verified)
                  + Opt(p.npn, NextProto) + Opt(p.channelId, ChannelId) + [Finished];
    match s
    case StartConnect => []
    case EnterEarlyData => [ClientHello]
    case ReadServerHello => [ClientHello]
    case ReadServerCertificate => hellos
    case ReadCertificateStatus => certs
    case VerifyServerCertificate => status
    case ReadServerKeyExchange => status
    case ReadCertificateRequest => keys
    case ReadServerHelloDone => asked
    case SendClientCertificate => done
    case SendClientKeyExchange => answered
    case SendClientCertificateVerify => exchanged
    case SendClientFinished => if p.resumed then resumed + [Finished] else verified
    case FinishFlight => flight
    case ReadSessionTicket => if p.resumed then hellos else flight
    case ProcessServerCcs => if p.resumed then resumed else flight + Opt(p.ticket, NewSessionTicket)
    case ReadServerFinished => if p.resumed then resumed else flight + Opt(p.ticket, NewSessionTicket)
    case _ => ClientSequence(p, c)
  }

  // The key exchange is behind the client.
  predicate PastKeys(s: ClientState) {
    !(s.StartConnect? || s.EnterEarlyData? || s.ReadServerHello? || s.ReadServerCertificate? || s.ReadCertificateStatus?
      || s.VerifyServerCertificate? || s.ReadServerKeyExchange?)
  }

  predicate PastRequest(s: ClientState) {
    PastKeys(s) && !s.ReadCertificateRequest?
  }

  ghost predicate ClientShape(p: Params, e: Client, c: Choice) {
    && Kinds(e.transcript) == ClientSeen(p, c, e.state) && Covers(e.transcript)
    && e.certRequest == c.request && (p.resumed ==> ResumedClient(e.state))
    && (c.status ==> p.ocsp) && (c.keyExchange ==> p.ecdhe || p.psk) && (c.request ==> p.certAuth)
    && (PastKeys(e.state) && !p.resumed && p.ecdhe ==> c.keyExchange)
    && (e.certRequest ==> PastRequest(e.state))
  }

  // What the server chose, after a turn of the client.
  function Chosen(e: Client, e': Client, c: Choice): Choice {
    Choice(if e.state.ReadCertificateStatus? then |e'.transcript| > |e.transcript| else c.status,
           if e.state.ReadServerKeyExchange? then |e'.transcript| > |e.transcript| else c.keyExchange,
           e'.certRequest)
  }

  // Reading one message of a kind other than Finished.
  lemma ReadShape<S>(e: Endpoint<S>, inbox: seq<Item>, k: Kind, s: S)
    requires k != Finished && Covers(e.transcript)
    ensures var e' := Read(e, inbox, k, s).0;
            && (e'.wait.Proceed? ==> e'.state == s && Kinds(e'.transcript) == Kinds(e.transcript) + [k] && Covers(e'.transcript))
            && (!e'.wait.Proceed? ==> e'.state == e.state && e'.transcript == e.transcript)
            && e.transcript <= e'.transcript && e'.certRequest == e.certRequest && e'.peerCert == e.peerCert
  {
    if Read(e, inbox, k, s).0.wait.Proceed? {
      KindsAppend(e.transcript, inbox[0].msg);
      CoversAppend(e.transcript, inbox[0].msg);
    }
  }

  lemma ReadFinishedShape<S>(e: Endpoint<S>, inbox: seq<Item>, s: S)
    requires Covers(e.transcript)
    ensures var e' := ReadFinished(e, inbox, s).0;
            && (e'.wait.Proceed? ==> e'.state == s && Kinds(e'.transcript) == Kinds(e.transcript) + [Finished] && Covers(e'.transcript))
            && (!e'.wait.Proceed? && !e'.wait.Failed? ==> e'.state == e.state && e'.transcript == e.transcript)
            && e.transcript <= e'.transcript && e'.certRequest == e.certRequest && e'.peerCert == e.peerCert
  {
    if ReadFinished(e, inbox, s).0.wait.Proceed? {
      KindsAppend(e.transcript, inbox[0].msg);
      CoversAppend(e.transcript, inbox[0].msg);
    }
  }

  // Sending one message of a kind other than Finished.
  lemma EmitShape<S>(e: Endpoint<S>, on: bool, m: Msg)
    requires m.kind != Finished && Covers(e.transcript)
    ensures var e' := EmitIf(e, on, m);
            && Kinds(e'.transcript) == Kinds(e.transcript) + Opt(on, m.kind) && Covers(e'.transcript)
            && e.transcript <= e'.transcript && e'.certRequest == e.certRequest && e'.peerCert == e.peerCert
            && (on ==> EmitIf(e, on, m) == Emit(e, m))
  {
    if on {
      KindsAppend(e.transcript, m);
      CoversAppend(e.transcript, m);
    } else {
      assert Kinds(e.transcript) + [] == Kinds(e.transcript);
    }
  }

  lemma SendFinishedShape<S>(e: Endpoint<S>)
    requires Covers(e.transcript)
    ensures var e' := SendFinished(e);
            && Kinds(e'.transcript) == Kinds(e.transcript) + [Finished] && Covers(e'.transcript)
            && e.transcript <= e'.transcript && e'.certRequest == e.certRequest && e'.peerCert == e.peerCert
  {
    KindsAppend(e.transcript, Msg(Finished, false, e.transcript));
    CoversAppend(e.transcript, Msg(Finished, false, e.transcript));
  }

  lemma SwitchShape<S>(e: Endpoint<S>)
    ensures SwitchWrite(e).transcript == e.transcript
    ensures SwitchWrite(e).certRequest == e.certRequest && SwitchWrite(e).peerCert == e.peerCert
    ensures SwitchRead(e).transcript == e.transcript
    ensures SwitchRead(e).certRequest == e.certRequest && SwitchRead(e).peerCert == e.peerCert
  {
  }

  // A message that was only looked at is hashed.
  lemma HashShape<S>(e: Endpoint<S>, inbox: seq<Item>)
    requires Available(e, inbox) && inbox[0].msg.kind != Finished && Covers(e.transcript)
    ensures Kinds(Hash(e, inbox).transcript) == Kinds(e.transcript) + [inbox[0].msg.kind] && Covers(Hash(e, inbox).transcript)
    ensures |Hash(e, inbox).transcript| == |e.transcript| + 1
    ensures Hash(e, inbox).certRequest == e.certRequest && Hash(e, inbox).peerCert == e.peerCert
  {
    KindsAppend(e.transcript, inbox[0].msg);
    CoversAppend(e.transcript, inbox[0].msg);
  }

  // What a turn in a state adds to the transcript when it moves on.
  function ClientHashes(p: Params, c: Choice, s: ClientState): seq<Kind> {
    match s
    case StartConnect => [ClientHello]
    case ReadServerHello => [ServerHello]
    case ReadServerCertificate => Opt(p.certAuth, Certificate)
    case ReadCertificateStatus => Opt(c.status, CertificateStatus)
    case ReadServerKeyExchange => Opt(c.keyExchange, ServerKeyExchange)
    case ReadCertificateRequest => Opt(c.request, CertificateRequest)
    case ReadServerHelloDone => [ServerHelloDone]
    case SendClientCertificate => Opt(c.request, Certificate)
    case SendClientKeyExchange => [ClientKeyExchange]
    case SendClientCertificateVerify => Opt(c.request && p.clientCert, CertificateVerify)
    case SendClientFinished => Opt(p.npn, NextProto) + Opt(p.channelId, ChannelId) + [Finished]
    case ReadSessionTicket => Opt(p.ticket, NewSessionTicket)
    case ReadServerFinished => [Finished]
    case _ => []
  }

  lemma ClientSeenNext(p: Params, c: Choice, s: ClientState)
    requires s != ClientDone && (p.resumed ==> ResumedClient(s))
    ensures ClientSeen(p, c, ClientNext(p, s)) == ClientSeen(p, c, s) + ClientHashes(p, c, s)
  {
    hide *;
    if p.resumed {
      ClientSeenResumed(p, c, s);
    } else {
      ClientSeenFull(p, c, s);
    }
  }

  lemma ClientSeenResumed(p: Params, c: Choice, s: ClientState)
    requires p.resumed && s != ClientDone && ResumedClient(s)
    ensures ClientSeen(p, c, ClientNext(p, s)) == ClientSeen(p, c, s) + ClientHashes(p, c, s)
  {
    hide Opt;
    var seen := ClientSeen(p, c, s);
    assert seen + [] == seen;
    ThreeMore(seen, Opt(p.npn, NextProto), Opt(p.channelId, ChannelId), [Finished]);
    assert [] + [ClientHello] == [ClientHello] && [ClientHello] + [ServerHello] == [ClientHello, ServerHello];
    ClientSeenEnd(p, c);
  }

  lemma ClientSeenFull(p: Params, c: Choice, s: ClientState)
    requires !p.resumed && s != ClientDone
    ensures ClientSeen(p, c, ClientNext(p, s)) == ClientSeen(p, c, s) + ClientHashes(p, c, s)
  {
    hide *;
    if ClientRank(s, false) <= 8 {
      ClientSeenEarly(p, c, s);
    } else {
      ClientSeenLate(p, c, s);
    }
  }

  lemma ClientSeenEarly(p: Params, c: Choice, s: ClientState)
    requires !p.resumed && ClientRank(s, false) <= 8
    ensures ClientSeen(p, c, ClientNext(p, s)) == ClientSeen(p, c, s) + ClientHashes(p, c, s)
  {
    hide Opt, ClientSequence;
    var seen := ClientSeen(p, c, s);
    assert seen + [] == seen;
    assert [] + [ClientHello] == [ClientHello] && [ClientHello] + [ServerHello] == [ClientHello, ServerHello];
  }

  lemma ClientSeenLate(p: Params, c: Choice, s: ClientState)
    requires !p.resumed && s != ClientDone && ClientRank(s, false) > 8
    ensures ClientSeen(p, c, ClientNext(p, s)) == ClientSeen(p, c, s) + ClientHashes(p, c, s)
  {
    var seen := ClientSeen(p, c, s);
    hide Opt, ServerFlight, ClientSequence;
    assert seen + [] == seen;
    ThreeMore(seen, Opt(p.npn, NextProto), Opt(p.channelId, ChannelId), [Finished]);
    ClientSeenEnd(p, c);
  }

  lemma ThreeMore(a: seq<Kind>, x: seq<Kind>, y: seq<Kind>, z: seq<Kind>)
    ensures a + (x + y + z) == a + x + y + z
  {
  }

  lemma ClientSeenEnd(p: Params, c: Choice)
    ensures p.resumed ==> ClientSeen(p, c, FinishFlight) == ClientSequence(p, c)
    ensures !p.resumed ==> ClientSeen(p, c, ReadServerFinished) + [Finished] == ClientSequence(p, c)
  {
    hide Opt;
  }

  // Later choices do not matter to what has been seen.
  lemma ClientSeenBefore(p: Params, c: Choice, d: Choice, s: ClientState)
    requires d.status == c.status || s.ReadCertificateStatus?
    requires d.keyExchange == c.keyExchange || s.ReadServerKeyExchange?
    requires d.request == c.request || s.ReadCertificateRequest?
    requires p.resumed ==> ResumedClient(s)
    ensures ClientSeen(p, d, s) == ClientSeen(p, c, s)
  {
  }

  // The effect of a turn on the transcript.
  ghost predicate Hashes(e: Client, e': Client, add: seq<Kind>) {
    Kinds(e'.transcript) == Kinds(e.transcript) + add && Covers(e'.transcript)
  }

  lemma ClientReadsHash(p: Params, e: Client, c: Choice, inbox: seq<Item>, o: Outcome)
    requires e.wait.Proceed? && !o.Fails? && Covers(e.transcript) && e.certRequest == c.request
    requires e.state.ReadServerHello? || e.state.ReadServerCertificate? || e.state.ReadServerHelloDone? || e.state.ReadSessionTicket?
             || (e.state.ReadCertificateRequest? && !c.request)
    ensures var e' := ClientDo(p, e, inbox, o).0;
            && (!e'.wait.Failed? && e'.state != e.state ==> Hashes(e, e', ClientHashes(p, Chosen(e, e', c), e.state)))
            && (!e'.wait.Failed? && e'.state == e.state ==> e'.transcript == e.transcript)
            && (e'.certRequest == e.certRequest || (e.state.ReadCertificateRequest? && p.certAuth && e'.state != e.state))
  {
    hide Read, Covers, Kinds, Available, Hash;
    assert Kinds(e.transcript) + [] == Kinds(e.transcript);
    match e.state {
      case ReadServerHello => ReadShape(e, inbox, ServerHello, if p.resumed then ReadSessionTicket else ReadServerCertificate);
      case ReadServerCertificate => ReadShape(e, inbox, Certificate, ReadCertificateStatus);
      case ReadCertificateRequest => ReadShape(e, inbox, CertificateRequest, ReadServerHelloDone);
      case ReadServerHelloDone => ReadShape(e, inbox, ServerHelloDone, SendClientCertificate);
      case ReadSessionTicket => ReadShape(e, inbox, NewSessionTicket, ProcessServerCcs);
    }
  }

  lemma ClientPeeksHash(p: Params, e: Client, c: Choice, inbox: seq<Item>, o: Outcome)
    requires e.wait.Proceed? && !o.Fails? && Covers(e.transcript) && e.certRequest == c.request
    requires e.state.ReadCertificateStatus? || e.state.ReadServerKeyExchange?
    ensures var e', d := ClientDo(p, e, inbox, o).0, Chosen(e, ClientDo(p, e, inbox, o).0, c);
            && (!e'.wait.Failed? && e'.state != e.state ==> Hashes(e, e', ClientHashes(p, d, e.state)) && d.request == c.request)
            && (!e'.wait.Failed? && e'.state == e.state ==> e'.transcript == e.transcript && e'.certRequest == e.certRequest)
            && (!e'.wait.Failed? && e'.state != e.state && e.state.ReadCertificateStatus? ==> (d.status ==> p.ocsp))
            && (!e'.wait.Failed? && e'.state != e.state && e.state.ReadServerKeyExchange? ==>
                  (p.ecdhe ==> d.keyExchange) && (d.keyExchange ==> p.ecdhe || p.psk))
  {
    hide Covers, Kinds, Hash;
    assert Kinds(e.transcript) + [] == Kinds(e.transcript);
    if Available(e, inbox) {
      if inbox[0].msg.kind != Finished {
        HashShape(e, inbox);
      }
    }
  }

  lemma ClientSendsHash(p: Params, e: Client, c: Choice, inbox: seq<Item>, o: Outcome)
    requires e.wait.Proceed? && !o.Fails? && Covers(e.transcript) && e.certRequest == c.request
    requires e.state.StartConnect? || e.state.SendClientCertificate? || e.state.SendClientKeyExchange?
             || e.state.SendClientCertificateVerify?
    ensures var e' := ClientDo(p, e, inbox, o).0;
            && (!e'.wait.Failed? && e'.state != e.state ==> Hashes(e, e', ClientHashes(p, Chosen(e, e', c), e.state)))
            && (!e'.wait.Failed? && e'.state == e.state ==> e'.transcript == e.transcript)
            && e'.certRequest == e.certRequest
  {
    hide Covers, Kinds, Emit;
    assert Kinds(e.transcript) + [] == Kinds(e.transcript);
    EmitShape(e, true, Plain(ClientHello));
    EmitShape(e, true, Msg(Certificate, p.clientCert, []));
    EmitShape(e, true, Plain(ClientKeyExchange));
    EmitShape(e, true, Plain(CertificateVerify));
  }

  // The end of a flight: the extensions and the Finished.
  lemma FlightShape<S>(e: Endpoint<S>, npn: bool, channelId: bool)
    requires Covers(e.transcript)
    ensures var e' := SendFinished(EmitIf(EmitIf(SwitchWrite(e), npn, Plain(NextProto)), channelId, Plain(ChannelId)));
            && Kinds(e'.transcript) == Kinds(e.transcript) + (Opt(npn, NextProto) + Opt(channelId, ChannelId) + [Finished])
            && Covers(e'.transcript) && e'.certRequest == e.certRequest
  {
    hide Covers, Kinds, EmitIf, SendFinished, SwitchWrite;
    var e0 := SwitchWrite(e);
    var e1 := EmitIf(e0, npn, Plain(NextProto));
    SwitchShape(e);
    EmitShape(e0, npn, Plain(NextProto));
    EmitShape(e1, channelId, Plain(ChannelId));
    SendFinishedShape(EmitIf(e1, channelId, Plain(ChannelId)));
    var a, b := Opt(npn, NextProto), Opt(channelId, ChannelId);
    assert ((Kinds(e.transcript) + a) + b) + [Finished] == Kinds(e.transcript) + (a + b + [Finished]);
  }

  lemma ClientFinishesHash(p: Params, e: Client, c: Choice, inbox: seq<Item>, o: Outcome)
    requires e.wait.Proceed? && !o.Fails? && Covers(e.transcript) && e.certRequest == c.request
    requires e.state.SendClientFinished? || e.state.ReadServerFinished?
    ensures var e' := ClientDo(p, e, inbox, o).0;
            && (!e'.wait.Failed? && e'.state != e.state ==> Hashes(e, e', ClientHashes(p, Chosen(e, e', c), e.state)))
            && (!e'.wait.Failed? && e'.state == e.state ==> e'.transcript == e.transcript)
            && e'.certRequest == e.certRequest
  {
    hide Covers, Kinds, EmitIf, SendFinished, SwitchWrite, ReadFinished;
    FlightShape(e, p.npn, p.channelId);
    ReadFinishedShape(e, inbox, if p.resumed then SendClientFinished else FinishClient);
  }

  // The states in which nothing is hashed.
  predicate ClientQuiet(s: ClientState) {
    s.EnterEarlyData? || s.VerifyServerCertificate? || s.FinishFlight? || s.ProcessServerCcs? || s.FinishClient?
  }

  lemma ClientQuietHash(p: Params, e: Client, c: Choice, inbox: seq<Item>, o: Outcome)
    requires e.wait.Proceed? && !o.Fails? && Covers(e.transcript) && ClientQuiet(e.state)
    ensures var e' := ClientDo(p, e, inbox, o).0;
            && Hashes(e, e', ClientHashes(p, c, e.state))
            && e'.transcript == e.transcript && e'.certRequest == e.certRequest
  {
    hide Covers, Kinds, SwitchRead;
    assert Kinds(e.transcript) + [] == Kinds(e.transcript);
    SwitchShape(e);
  }

  // What the server may choose in the three states in which it has a choice.
  predicate ChoiceStep(p: Params, s: ClientState, c: Choice, d: Choice) {
    && (if s.ReadCertificateStatus? then d.status ==> p.ocsp else d.status == c.status)
    && (if s.ReadServerKeyExchange? then (p.ecdhe ==> d.keyExchange) && (d.keyExchange ==> p.ecdhe || p.psk)
        else d.keyExchange == c.keyExchange)
    && (if s.ReadCertificateRequest? then d.request ==> p.certAuth else d.request == c.request)
  }

  // One turn of the client: nothing is hashed while it waits, and otherwise what the state says.
  ghost predicate ClientTurned(p: Params, e: Client, c: Choice, e': Client) {
    if e'.state == e.state then e'.transcript == e.transcript && e'.certRequest == e.certRequest
    else
      var d := Chosen(e, e', c);
      Hashes(e, e', ClientHashes(p, d, e.state)) && e'.certRequest == d.request && ChoiceStep(p, e.state, c, d)
  }

  lemma ClientHashesAll(p: Params, e: Client, c: Choice, inbox: seq<Item>, o: Outcome)
    requires Covers(e.transcript) && e.certRequest == c.request && e.wait.Proceed? && e.state != ClientDone
    requires c.request ==> !e.state.ReadCertificateRequest?
    ensures var e' := ClientDo(p, e, inbox, o).0;
            !e'.wait.Failed? ==> ClientTurned(p, e, c, e')
  {
    var e' := ClientDo(p, e, inbox, o).0;
    if o.Fails? {
      ClientFails(p, e, inbox, o);
    } else if !e'.wait.Failed? {
      hide ClientDo, ClientHashes, Covers, Kinds, Hashes;
      var s := e.state;
      if s.ReadCertificateStatus? || s.ReadServerKeyExchange? {
        ClientPeeksHash(p, e, c, inbox, o);
      } else if ClientQuiet(s) {
        ClientQuietHash(p, e, c, inbox, o);
      } else if s.SendClientFinished? || s.ReadServerFinished? {
        ClientFinishesHash(p, e, c, inbox, o);
      } else if s.StartConnect? || s.SendClientCertificate? || s.SendClientKeyExchange? || s.SendClientCertificateVerify? {
        ClientSendsHash(p, e, c, inbox, o);
      } else {
        ClientReadsHash(p, e, c, inbox, o);
      }
    }
  }

  lemma ClientMovesShape(p: Params, e: Client, c: Choice, e': Client)
    requires ClientShape(p, e, c) && e.state != ClientDone && ClientTurned(p, e, c, e')
    requires e'.state == ClientNext(p, e.state) && e'.state != e.state
    ensures ClientShape(p, e', Chosen(e, e', c))
  {
    hide ClientSeen, ClientHashes, Covers, Kinds, ClientNext, ResumedClient, PastKeys, PastRequest;
    var d := Chosen(e, e', c);
    ClientSeenBefore(p, c, d, e.state);
    ClientSeenNext(p, d, e.state);
    ClientNextShape(p, e.state);
  }

  lemma ClientStaysShape(p: Params, e: Client, c: Choice, e': Client)
    requires ClientShape(p, e, c) && ClientTurned(p, e, c, e') && e'.state == e.state
    ensures ClientShape(p, e', c)
  {
    hide ClientSeen, Covers, Kinds;
  }

  lemma ShapeReady(p: Params, e: Client, c: Choice)
    requires ClientShape(p, e, c)
    ensures Covers(e.transcript) && e.certRequest == c.request && (c.request ==> !e.state.ReadCertificateRequest?)
  {
    hide ClientSeen, Covers, Kinds;
  }

  // One turn of the client keeps the shape.
  lemma ClientDoShape(p: Params, e: Client, c: Choice, inbox: seq<Item>, o: Outcome)
    requires ClientShape(p, e, c) && e.wait.Proceed? && e.state != ClientDone
    ensures var e' := ClientDo(p, e, inbox, o).0;
            !e'.wait.Failed? ==> ClientShape(p, e', if e'.state == e.state then c else Chosen(e, e', c))
  {
    hide *;
    var e' := ClientDo(p, e, inbox, o).0;
    ClientMoves(p, e, inbox, o);
    ShapeReady(p, e, c);
    ClientHashesAll(p, e, c, inbox, o);
    if !e'.wait.Failed? {
      if e'.state == e.state {
        ClientStaysShape(p, e, c, e');
      } else {
        ClientMovesShape(p, e, c, e');
      }
    }
  }

  lemma ClientFails(p: Params, e: Client, inbox: seq<Item>, o: Outcome)
    requires e.state != ClientDone && o.Fails?
    ensures ClientDo(p, e, inbox, o).0 == e.(wait := Failed(Refused))
  {
  }

  lemma ClientNextShape(p: Params, s: ClientState)
    requires s != ClientDone
    ensures p.resumed && ResumedClient(s) ==> ResumedClient(ClientNext(p, s))
    ensures PastKeys(ClientNext(p, s)) && !p.resumed ==> PastKeys(s) || s.ReadServerKeyExchange?
    ensures PastRequest(s) || s.ReadCertificateRequest? ==> PastRequest(ClientNext(p, s))
  {
  }

  lemma ResolveShape<S>(e: Endpoint<S>, inbox: seq<Item>)
    ensures var e' := Resolve(e, inbox).0;
            && e'.state == e.state && e'.transcript == e.transcript && e'.certRequest == e.certRequest && e'.peerCert == e.peerCert
            && (e.wait.Failed? ==> e' == e)
  {
  }

  lemma ClientStepShape(p: Params, e: Client, c: Choice, inbox: seq<Item>, o: Outcome) returns (d: Choice)
    requires e.wait.Failed? || ClientShape(p, e, c)
    ensures var e' := ClientStep(p, e, inbox, o).0;
            e'.wait.Failed? || ClientShape(p, e', d)
  {
    hide ClientDo, ClientSeen, Covers, Kinds, Resolve;
    d := c;
    if e.wait.Proceed? && e.state != ClientDone {
      ClientDoShape(p, e, c, inbox, o);
      var e' := ClientDo(p, e, inbox, o).0;
      d := if e'.state == e.state then c else Chosen(e, e', c);
    } else {
      ResolveShape(e, inbox);
    }
  }

  lemma {:induction false} ClientRunShape(p: Params, e: Client, c: Choice, ws: seq<World>) returns (d: Choice)
    requires e.wait.Failed? || ClientShape(p, e, c)
    ensures var e' := ClientRun(p, e, ws);
            e'.wait.Failed? || ClientShape(p, e', d)
    decreases |ws|
  {
    d := c;
    if ws != [] {
      hide ClientShape, ClientStep;
      d := ClientStepShape(p, e, c, ws[0].inbox, ws[0].outcome);
      d := ClientRunShape(p, ClientStep(p, e, ws[0].inbox, ws[0].outcome).0, d, ws[1..]);
    }
  }

  // Whatever the server and the network send, a client that completes the handshake has hashed
  // exactly one of the legal sequences of messages, and both Finished messages in it cover exactly
  // what was hashed before them.
  lemma ClientCompletes(p: Params, ws: seq<World>)
    requires ClientRun(p, NEW_CLIENT, ws).state == ClientDone
    ensures var e := ClientRun(p, NEW_CLIENT, ws);
            && Covers(e.transcript)
            && exists c: Choice :: (p.resumed || ChoiceOk(p, c)) && Kinds(e.transcript) == ClientSequence(p, c)
  {
    hide ClientRun, Covers;
    var c := Choice(false, false, false);
    assert Kinds([]) == [] && Covers([]) by { NothingSeen(); }
    var d := ClientRunShape(p, NEW_CLIENT, c, ws);
    ClientRunLogs(p, NEW_CLIENT, ws);
    assert Kinds(ClientRun(p, NEW_CLIENT, ws).transcript) == ClientSequence(p, d);
  }

  lemma NothingSeen()
    ensures Kinds([]) == [] && Covers([])
  {
  }

  // ---------- the server ----------

  // What the server sends of the messages that may be left out.
  function OwnChoice(p: Params): Choice {
    Choice(p.certAuth && p.ocsp, p.ecdhe || (p.psk && p.hint), p.certReq)
  }

  // The server's view of a complete handshake; cert tells whether the client presented a certificate.
  function ServerSequence(p: Params, cert: bool): seq<Kind> {
    if p.resumed then
      [ClientHello, ServerHello] + Opt(p.ticket, NewSessionTicket) + [Finished]
      + Opt(p.npn, NextProto) + Opt(p.channelId, ChannelId) + [Finished]
    else
      ServerFlight(p, OwnChoice(p)) + Opt(p.certReq, Certificate) + [ClientKeyExchange] + Opt(cert, CertificateVerify)
      + Opt(p.npn, NextProto) + Opt(p.channelId, ChannelId) + [Finished]
      + Opt(p.ticket, NewSessionTicket) + [Finished]
  }

  function ServerSeen(p: Params, cert: bool, s: ServerState): seq<Kind> {
    var hellos := [ClientHello, ServerHello];
    var status := hellos + Opt(p.certAuth, Certificate) + Opt(OwnChoice(p).status, CertificateStatus);
    var keys := status + Opt(OwnChoice(p).keyExchange, ServerKeyExchange);
    var flight := ServerFlight(p, OwnChoice(p));
    var answered := flight + Opt(p.certReq, Certificate);
    var exchanged := answered + [ClientKeyExchange];
    var before := if p.resumed then hellos + Opt(p.ticket, NewSessionTicket) + [Finished]
                  else exchanged + Opt(cert, CertificateVerify);
    var proto := before + Opt(p.npn, NextProto);
    var channel := proto + Opt(p.channelId, ChannelId);
    match s
    case StartAccept => []
    case ReadClientHello => []
    case SelectCertificate => []
    case SelectParameters => []
    case SendServerHello => [ClientHello]
    case SendServerCertificate => hellos
    case SendServerKeyExchange => status
    case SendServerHelloDone => keys
    case ReadClientCertificate => flight
    case VerifyClientCertificate => answered
    case ReadClientKeyExchange => answered
    case ReadClientCertificateVerify => exchanged
    case ReadClientCcs => before
    case ProcessClientCcs => before
    case ReadNextProto => before
    case ReadChannelId => proto
    case ReadClientFinished => channel
    case SendServerFinished => if p.resumed then hellos else channel + [Finished]
    case _ => ServerSequence(p, cert)
  }

  // What a turn in a state adds to the transcript when it moves on.
  function ServerHashes(p: Params, cert: bool, s: ServerState): seq<Kind> {
    match s
    case SelectParameters => [ClientHello]
    case SendServerHello => [ServerHello]
    case SendServerCertificate => Opt(p.certAuth, Certificate) + Opt(OwnChoice(p).status, CertificateStatus)
    case SendServerKeyExchange => Opt(OwnChoice(p).keyExchange, ServerKeyExchange)
    case SendServerHelloDone => Opt(p.certReq, CertificateRequest) + [ServerHelloDone]
    case ReadClientCertificate => Opt(p.certReq, Certificate)
    case ReadClientKeyExchange => [ClientKeyExchange]
    case ReadClientCertificateVerify => Opt(cert, CertificateVerify)
    case ReadNextProto => Opt(p.npn, NextProto)
    case ReadChannelId => Opt(p.channelId, ChannelId)
    case ReadClientFinished => [Finished]
    case SendServerFinished => Opt(p.ticket, NewSessionTicket) + [Finished]
    case _ => []
  }

  lemma TwoMore(a: seq<Kind>, x: seq<Kind>, y: seq<Kind>)
    ensures a + (x + y) == a + x + y
  {
  }

  lemma ServerSeenNext(p: Params, cert: bool, s: ServerState)
    requires s != ServerDone && (p.resumed ==> ResumedServer(s))
    ensures ServerSeen(p, cert, ServerNext(p, s)) == ServerSeen(p, cert, s) + ServerHashes(p, cert, s)
  {
    hide *;
    if p.resumed {
      ServerSeenResumed(p, cert, s);
    } else {
      ServerSeenFull(p, cert, s);
    }
  }

  lemma ServerSeenResumed(p: Params, cert: bool, s: ServerState)
    requires p.resumed && s != ServerDone && ResumedServer(s)
    ensures ServerSeen(p, cert, ServerNext(p, s)) == ServerSeen(p, cert, s) + ServerHashes(p, cert, s)
  {
    hide Opt, OwnChoice;
    var seen := ServerSeen(p, cert, s);
    assert seen + [] == seen;
    assert [] + [ClientHello] == [ClientHello] && [ClientHello] + [ServerHello] == [ClientHello, ServerHello];
    TwoMore(seen, Opt(p.ticket, NewSessionTicket), [Finished]);
    ServerSeenEnd(p, cert);
  }

  lemma ServerSeenFull(p: Params, cert: bool, s: ServerState)
    requires !p.resumed && s != ServerDone
    ensures ServerSeen(p, cert, ServerNext(p, s)) == ServerSeen(p, cert, s) + ServerHashes(p, cert, s)
  {
    hide *;
    if ServerRank(s, false) <= 7 {
      ServerSeenEarly(p, cert, s);
    } else {
      ServerSeenLate(p, cert, s);
    }
  }

  lemma ServerSeenEarly(p: Params, cert: bool, s: ServerState)
    requires !p.resumed && ServerRank(s, false) <= 7
    ensures ServerSeen(p, cert, ServerNext(p, s)) == ServerSeen(p, cert, s) + ServerHashes(p, cert, s)
  {
    hide Opt, OwnChoice, ServerSequence;
    var seen := ServerSeen(p, cert, s);
    assert OwnChoice(p).request == p.certReq by { OwnRequest(p); }
    assert seen + [] == seen;
    assert [] + [ClientHello] == [ClientHello] && [ClientHello] + [ServerHello] == [ClientHello, ServerHello];
    TwoMore(seen, Opt(p.certAuth, Certificate), Opt(OwnChoice(p).status, CertificateStatus));
    TwoMore(seen, Opt(p.certReq, CertificateRequest), [ServerHelloDone]);
  }

  lemma OwnRequest(p: Params)
    ensures OwnChoice(p).request == p.certReq
  {
  }

  lemma ServerSeenLate(p: Params, cert: bool, s: ServerState)
    requires !p.resumed && s != ServerDone && ServerRank(s, false) > 7
    ensures ServerSeen(p, cert, ServerNext(p, s)) == ServerSeen(p, cert, s) + ServerHashes(p, cert, s)
  {
    hide Opt, OwnChoice, ServerFlight, ServerSequence;
    var seen := ServerSeen(p, cert, s);
    assert seen + [] == seen;
    TwoMore(seen, Opt(p.ticket, NewSessionTicket), [Finished]);
    ServerSeenEnd(p, cert);
  }

  lemma ServerSeenEnd(p: Params, cert: bool)
    ensures p.resumed ==> ServerSeen(p, cert, ReadClientFinished) + [Finished] == ServerSequence(p, cert)
    ensures !p.resumed ==>
              ServerSeen(p, cert, SendServerFinished) + Opt(p.ticket, NewSessionTicket) + [Finished] == ServerSequence(p, cert)
  {
    hide Opt;
  }

  lemma ServerSeenBefore(p: Params, cert: bool, cert': bool, s: ServerState)
    requires cert == cert' || s.ReadClientCertificate?
    ensures ServerSeen(p, cert', s) == ServerSeen(p, cert, s)
  {
  }

  // The client has answered the request for a certificate.
  predicate Answered(s: ServerState) {
    !(s.StartAccept? || s.ReadClientHello? || s.SelectCertificate? || s.SelectParameters? || s.SendServerHello?
      || s.SendServerCertificate? || s.SendServerKeyExchange? || s.SendServerHelloDone? || s.ReadClientCertificate?)
  }

  // The client's Certificate message follows the server's flight.
  predicate Presented(p: Params, e: Server) {
    |ServerFlight(p, OwnChoice(p))| < |e.transcript| && e.transcript[|ServerFlight(p, OwnChoice(p))|].present == e.peerCert
  }

  ghost predicate ServerShape(p: Params, e: Server) {
    && Kinds(e.transcript) == ServerSeen(p, e.peerCert, e.state) && Covers(e.transcript)
    && (p.resumed ==> ResumedServer(e.state))
    && (e.peerCert ==> !p.resumed && p.certReq && Answered(e.state))
    && (Answered(e.state) && !p.resumed && p.certReq ==> Presented(p, e))
  }

  // One turn of the server.
  ghost predicate ServerTurned(p: Params, e: Server, e': Server) {
    if e'.state == e.state then e'.transcript == e.transcript && e'.peerCert == e.peerCert
    else
      && Kinds(e'.transcript) == Kinds(e.transcript) + ServerHashes(p, e'.peerCert, e.state) && Covers(e'.transcript)
      && e.transcript <= e'.transcript
      && (if e.state.ReadClientCertificate? && p.certReq
          then |e'.transcript| > |e.transcript| && e'.transcript[|e.transcript|].present == e'.peerCert
          else e'.peerCert == e.peerCert)
  }

  lemma ServerReadsHash(p: Params, e: Server, inbox: seq<Item>, o: Outcome)
    requires e.wait.Proceed? && !o.Fails? && Covers(e.transcript)
    requires e.state.ReadClientKeyExchange? || e.state.ReadClientCertificateVerify? || e.state.ReadNextProto? || e.state.ReadChannelId?
             || e.state.ReadClientFinished?
    ensures var e' := ServerDo(p, e, inbox, o).0;
            !e'.wait.Failed? ==> ServerTurned(p, e, e')
  {
    hide Read, ReadFinished, Covers, Kinds, Available, Hash;
    assert Kinds(e.transcript) + [] == Kinds(e.transcript);
    match e.state {
      case ReadClientKeyExchange => ReadShape(e, inbox, ClientKeyExchange, ReadClientCertificateVerify);
      case ReadClientCertificateVerify => ReadShape(e, inbox, CertificateVerify, ReadClientCcs);
      case ReadNextProto => ReadShape(e, inbox, NextProto, ReadChannelId);
      case ReadChannelId => ReadShape(e, inbox, ChannelId, ReadClientFinished);
      case ReadClientFinished => ReadFinishedShape(e, inbox, if p.resumed then FinishServer else SendServerFinished);
    }
  }

  lemma ServerAnswerHash(p: Params, e: Server, inbox: seq<Item>, o: Outcome)
    requires e.wait.Proceed? && !o.Fails? && Covers(e.transcript)
    requires e.state.ReadClientCertificate? || e.state.SelectParameters?
    requires e.state.SelectParameters? && Available(e, inbox) ==> inbox[0].msg.kind == ClientHello
    ensures var e' := ServerDo(p, e, inbox, o).0;
            !e'.wait.Failed? ==> ServerTurned(p, e, e')
  {
    hide Covers, Kinds;
    assert Kinds(e.transcript) + [] == Kinds(e.transcript);
    ReadShape(e, inbox, Certificate, VerifyClientCertificate);
    if Available(e, inbox) && inbox[0].msg.kind != Finished {
      HashShape(e, inbox);
    }
  }

  // Two messages, each of which may be left out.
  lemma EmitTwoShape<S>(e: Endpoint<S>, a: bool, m: Msg, b: bool, n: Msg)
    requires m.kind != Finished && n.kind != Finished && Covers(e.transcript)
    ensures var e' := EmitIf(EmitIf(e, a, m), b, n);
            && Kinds(e'.transcript) == Kinds(e.transcript) + (Opt(a, m.kind) + Opt(b, n.kind)) && Covers(e'.transcript)
            && e.transcript <= e'.transcript && e'.peerCert == e.peerCert
  {
    hide Covers, Kinds, EmitIf;
    EmitShape(e, a, m);
    EmitShape(EmitIf(e, a, m), b, n);
    TwoMore(Kinds(e.transcript), Opt(a, m.kind), Opt(b, n.kind));
  }

  lemma ServerSendsOneHash(p: Params, e: Server, inbox: seq<Item>, o: Outcome)
    requires e.wait.Proceed? && !o.Fails? && Covers(e.transcript)
    requires e.state.SendServerHello? || e.state.SendServerKeyExchange?
    ensures var e' := ServerDo(p, e, inbox, o).0;
            !e'.wait.Failed? ==> ServerTurned(p, e, e')
  {
    hide Covers, Kinds, Emit;
    assert Kinds(e.transcript) + [] == Kinds(e.transcript);
    EmitShape(e, true, Plain(ServerHello));
    EmitShape(e, true, Plain(ServerKeyExchange));
  }

  lemma ServerSendsTwoHash(p: Params, e: Server, inbox: seq<Item>, o: Outcome)
    requires e.wait.Proceed? && !o.Fails? && Covers(e.transcript)
    requires e.state.SendServerCertificate? || e.state.SendServerHelloDone?
    ensures var e' := ServerDo(p, e, inbox, o).0;
            !e'.wait.Failed? ==> ServerTurned(p, e, e')
  {
    hide Covers, Kinds, Emit, EmitIf, Opt;
    EmitTwoShape(e, p.certAuth, Msg(Certificate, true, []), p.certAuth && p.ocsp, Plain(CertificateStatus));
    var e1 := EmitIf(e, p.certReq, Plain(CertificateRequest));
    EmitTwoShape(e, p.certReq, Plain(CertificateRequest), true, Plain(ServerHelloDone));
    assert EmitIf(e1, true, Plain(ServerHelloDone)) == Emit(e1, Plain(ServerHelloDone)) by { EmitsAlways(e1, Plain(ServerHelloDone)); }
    assert Opt(true, ServerHelloDone) == [ServerHelloDone] by { OptAlways(ServerHelloDone); }
  }

  lemma EmitsAlways<S>(e: Endpoint<S>, m: Msg)
    ensures EmitIf(e, true, m) == Emit(e, m)
  {
  }

  lemma OptAlways(k: Kind)
    ensures Opt(true, k) == [k]
  {
  }

  lemma ServerFlightShape<S>(e: Endpoint<S>, ticket: bool)
    requires Covers(e.transcript)
    ensures var e' := SendFinished(SwitchWrite(EmitIf(e, ticket, Plain(NewSessionTicket))));
            && Kinds(e'.transcript) == Kinds(e.transcript) + (Opt(ticket, NewSessionTicket) + [Finished]) && Covers(e'.transcript)
            && e.transcript <= e'.transcript && e'.peerCert == e.peerCert
  {
    hide Covers, Kinds, EmitIf, SendFinished, SwitchWrite;
    var e1 := EmitIf(e, ticket, Plain(NewSessionTicket));
    EmitShape(e, ticket, Plain(NewSessionTicket));
    SwitchShape(e1);
    SendFinishedShape(SwitchWrite(e1));
    TwoMore(Kinds(e.transcript), Opt(ticket, NewSessionTicket), [Finished]);
  }

  lemma ServerQuietHash(p: Params, e: Server, inbox: seq<Item>, o: Outcome)
    requires e.wait.Proceed? && !o.Fails? && Covers(e.transcript)
    requires e.state.StartAccept? || e.state.ReadClientHello? || e.state.SelectCertificate? || e.state.VerifyClientCertificate?
             || e.state.ReadClientCcs? || e.state.ProcessClientCcs? || e.state.FinishServer? || e.state.SendServerFinished?
    ensures var e' := ServerDo(p, e, inbox, o).0;
            !e'.wait.Failed? ==> ServerTurned(p, e, e')
  {
    hide Covers, Kinds, SwitchRead, SendFinished, SwitchWrite, EmitIf, Available;
    assert Kinds(e.transcript) + [] == Kinds(e.transcript);
    SwitchShape(e);
    ServerFlightShape(e, p.ticket);
  }

  lemma ServerFails(p: Params, e: Server, inbox: seq<Item>, o: Outcome)
    requires e.state != ServerDone && o.Fails?
    ensures ServerDo(p, e, inbox, o).0 == e.(wait := Failed(Refused))
  {
  }

  lemma ServerHashesAll(p: Params, e: Server, inbox: seq<Item>, o: Outcome)
    requires Covers(e.transcript) && e.wait.Proceed? && e.state != ServerDone
    requires e.state.SelectParameters? && Available(e, inbox) ==> inbox[0].msg.kind == ClientHello
    ensures var e' := ServerDo(p, e, inbox, o).0;
            !e'.wait.Failed? ==> ServerTurned(p, e, e')
  {
    if o.Fails? {
      ServerFails(p, e, inbox, o);
    } else {
      hide ServerDo, ServerTurned, Covers;
      var s := e.state;
      if s.ReadClientCertificate? || s.SelectParameters? {
        ServerAnswerHash(p, e, inbox, o);
      } else if s.SendServerHello? || s.SendServerKeyExchange? {
        ServerSendsOneHash(p, e, inbox, o);
      } else if s.SendServerCertificate? || s.SendServerHelloDone? {
        ServerSendsTwoHash(p, e, inbox, o);
      } else if s.ReadClientKeyExchange? || s.ReadClientCertificateVerify? || s.ReadNextProto? || s.ReadChannelId? || s.ReadClientFinished? {
        ServerReadsHash(p, e, inbox, o);
      } else {
        ServerQuietHash(p, e, inbox, o);
      }
    }
  }

  lemma ServerNextShape(p: Params, s: ServerState)
    requires s != ServerDone
    ensures p.resumed && ResumedServer(s) ==> ResumedServer(ServerNext(p, s))
    ensures !p.resumed ==> (Answered(ServerNext(p, s)) <==> Answered(s) || s.ReadClientCertificate?)
    ensures Answered(s) && (p.resumed ==> ResumedServer(s)) ==> Answered(ServerNext(p, s)) || p.resumed
    ensures s.ReadClientCertificate? ==> !Answered(s) && Answered(ServerNext(p, s)) && !ResumedServer(s)
  {
  }

  lemma SeenFlight(p: Params, cert: bool)
    ensures ServerSeen(p, cert, ReadClientCertificate) == ServerFlight(p, OwnChoice(p))
  {
  }

  lemma ServerMovesShape(p: Params, e: Server, e': Server)
    requires ServerShape(p, e) && e.state != ServerDone && ServerTurned(p, e, e')
    requires e'.state == ServerNext(p, e.state) && e'.state != e.state
    ensures ServerShape(p, e')
  {
    hide ServerSeen, ServerHashes, Covers, Kinds, ServerNext, ResumedServer, Answered, ServerFlight, OwnChoice;
    ServerSeenBefore(p, e.peerCert, e'.peerCert, e.state);
    ServerSeenNext(p, e'.peerCert, e.state);
    ServerNextShape(p, e.state);
    SeenFlight(p, e.peerCert);
  }

  lemma ServerStaysShape(p: Params, e: Server, e': Server)
    requires ServerShape(p, e) && ServerTurned(p, e, e') && e'.state == e.state
    ensures ServerShape(p, e')
  {
    hide ServerSeen, Covers, Kinds, ServerFlight;
  }

  lemma ServerReady(p: Params, e: Server)
    requires ServerShape(p, e)
    ensures Covers(e.transcript)
  {
  }

  // One turn of the server keeps the shape.
  lemma ServerDoShape(p: Params, e: Server, inbox: seq<Item>, o: Outcome)
    requires ServerShape(p, e) && e.wait.Proceed? && e.state != ServerDone
    requires e.state.SelectParameters? && Available(e, inbox) ==> inbox[0].msg.kind == ClientHello
    ensures var e' := ServerDo(p, e, inbox, o).0;
            !e'.wait.Failed? ==> ServerShape(p, e')
  {
    var e' := ServerDo(p, e, inbox, o).0;
    hide *;
    ServerMoves(p, e, inbox, o);
    ServerReady(p, e);
    ServerHashesAll(p, e, inbox, o);
    if !e'.wait.Failed? {
      if e'.state == e.state {
        ServerStaysShape(p, e, e');
      } else {
        ServerMovesShape(p, e, e');
      }
    }
  }

  // The message that the server has recognised as a ClientHello, and not yet consumed.
  predicate HelloFirst(e: Server, inbox: seq<Item>) {
    e.state.SelectCertificate? || e.state.SelectParameters? ==>
      inbox != [] && inbox[0].Hs? && inbox[0].msg.kind == ClientHello
  }

  lemma HelloKept(p: Params, e: Server, inbox: seq<Item>, o: Outcome)
    requires e.wait.Proceed? && e.state != ServerDone && HelloFirst(e, inbox)
    ensures var (e', inbox') := ServerDo(p, e, inbox, o);
            !e'.wait.Failed? ==> HelloFirst(e', inbox')
  {
    hide Emit, EmitIf, SendFinished, SwitchWrite, SwitchRead, Hash, Read, ReadFinished;
  }

  lemma HelloResolved(e: Server, inbox: seq<Item>)
    requires HelloFirst(e, inbox) && (e.wait.ReadCcs? ==> e.state.ProcessClientCcs?)
    ensures HelloFirst(Resolve(e, inbox).0, Resolve(e, inbox).1)
  {
    hide Available;
  }

  // A server whose peer may send anything: what arrives before a turn stands behind what has not
  // been consumed.
  function ServerFeed(p: Params, e: Server, inbox: seq<Item>, ws: seq<World>): (Server, seq<Item>)
    decreases |ws|
  {
    if ws == [] then (e, inbox)
    else
      var (e', inbox', _) := ServerStep(p, e, inbox + ws[0].inbox, ws[0].outcome);
      ServerFeed(p, e', inbox', ws[1..])
  }

  ghost predicate ServerFed(p: Params, e: Server, inbox: seq<Item>) {
    ServerLogged(p, e) && (e.wait.Failed? || (ServerShape(p, e) && HelloFirst(e, inbox)))
  }

  lemma ServerStepFed(p: Params, e: Server, inbox: seq<Item>, o: Outcome)
    requires ServerFed(p, e, inbox)
    ensures ServerFed(p, ServerStep(p, e, inbox, o).0, ServerStep(p, e, inbox, o).1)
  {
    ServerStepLogs(p, e, inbox, o);
    assert e.wait.ReadCcs? ==> e.state.ProcessClientCcs?;
    if e.wait.Failed? || !e.wait.Proceed? || e.state == ServerDone {
      hide ServerDo, ServerLogged, Resolve, ServerSeen, Covers, Kinds;
      ResolveShape(e, inbox);
      if !e.wait.Failed? {
        HelloResolved(e, inbox);
      }
    } else {
      hide ServerDo, ServerLogged, ServerShape;
      HelloFor(e, inbox);
      ServerDoShape(p, e, inbox, o);
      HelloKept(p, e, inbox, o);
    }
  }

  lemma HelloFor(e: Server, inbox: seq<Item>)
    requires HelloFirst(e, inbox)
    ensures e.state.SelectParameters? && Available(e, inbox) ==> inbox[0].msg.kind == ClientHello
  {
  }

  lemma FedMore(p: Params, e: Server, inbox: seq<Item>, more: seq<Item>)
    requires ServerFed(p, e, inbox)
    ensures ServerFed(p, e, inbox + more)
  {
    hide ServerShape, ServerLogged;
  }

  lemma {:induction false} ServerFeeds(p: Params, e: Server, inbox: seq<Item>, ws: seq<World>)
    requires ServerFed(p, e, inbox)
    ensures ServerFed(p, ServerFeed(p, e, inbox, ws).0, ServerFeed(p, e, inbox, ws).1)
    decreases |ws|
  {
    if ws != [] {
      hide ServerFed, ServerStep;
      FedMore(p, e, inbox, ws[0].inbox);
      ServerStepFed(p, e, inbox + ws[0].inbox, ws[0].outcome);
      var r := ServerStep(p, e, inbox + ws[0].inbox, ws[0].outcome);
      ServerFeeds(p, r.0, r.1, ws[1..]);
    }
  }

  // Whatever the client sends, a server that completes the handshake has hashed exactly the legal
  // sequence, with a CertificateVerify if and only if the client presented a certificate, and both
  // Finished messages in it cover exactly what was hashed before them.
  lemma ServerCompletes(p: Params, ws: seq<World>)
    requires ServerFeed(p, NEW_SERVER, [], ws).0.state == ServerDone
    ensures var e := ServerFeed(p, NEW_SERVER, [], ws).0;
            && Covers(e.transcript) && Kinds(e.transcript) == ServerSequence(p, e.peerCert)
            && (e.peerCert ==> !p.resumed && p.certReq)
            && (p.certReq && !p.resumed ==> Presented(p, e))
  {
    hide ServerFeed, Covers, Kinds, Presented, ServerSequence;
    assert Kinds([]) == [] && Covers([]) by { NothingSeen(); }
    ServerFeeds(p, NEW_SERVER, [], ws);
  }

  // ---------- the Finished of the peer ----------

  function Count(log: seq<Event>, k: Event): nat {
    multiset(log)[k]
  }

  // The epochs are the key switches in the log.
  predicate EpochsLogged<S>(e: Endpoint<S>) {
    e.readEpoch == Count(e.log, ReadKey) && e.writeEpoch == Count(e.log, WriteKey)
  }

  lemma EpochsMove<S>(e: Endpoint<S>, e': Endpoint<S>, more: seq<Event>)
    requires EpochsLogged(e) && e'.log == e.log + more
    requires e'.readEpoch == e.readEpoch + Count(more, ReadKey) && e'.writeEpoch == e.writeEpoch + Count(more, WriteKey)
    ensures EpochsLogged(e')
  {
    assert multiset(e.log + more) == multiset(e.log) + multiset(more);
  }

  lemma CountsOf()
    ensures Count([], ReadKey) == 0 && Count([], WriteKey) == 0
    ensures Count([ReadKey], ReadKey) == 1 && Count([ReadKey], WriteKey) == 0
    ensures Count(SENDS, ReadKey) == 0 && Count(SENDS, WriteKey) == 1
    ensures Count([VerifiedFinished], ReadKey) == 0 && Count([VerifiedFinished], WriteKey) == 0
    ensures Count([GotCcs], ReadKey) == 0 && Count([GotCcs], WriteKey) == 0
    ensures Count([GotCcs, ReadKey], ReadKey) == 1 && Count(SENDS + [GotCcs, ReadKey], ReadKey) == 1
  {
  }

  // The epochs of a client that did not fail count its key switches.
  lemma ClientEpochs(p: Params, e: Client, inbox: seq<Item>, o: Outcome)
    requires e.state != ClientDone
    ensures var e' := ClientDo(p, e, inbox, o).0;
            !e'.wait.Failed? ==>
              && e'.readEpoch == e.readEpoch + (if e'.state != e.state && e.state.ProcessServerCcs? then 1 else 0)
              && e'.writeEpoch == e.writeEpoch + (if e'.state != e.state && e.state.SendClientFinished? then 1 else 0)
  {
    hide Available, Emit, EmitIf, SendFinished, SwitchWrite, SwitchRead, Hash, Read, ReadFinished;
  }

  lemma ServerEpochs(p: Params, e: Server, inbox: seq<Item>, o: Outcome)
    requires e.state != ServerDone
    ensures var e' := ServerDo(p, e, inbox, o).0;
            !e'.wait.Failed? ==>
              && e'.readEpoch == e.readEpoch + (if e'.state != e.state && e.state.ProcessClientCcs? then 1 else 0)
              && e'.writeEpoch == e.writeEpoch + (if e'.state != e.state && e.state.SendServerFinished? then 1 else 0)
  {
    hide Available, Emit, EmitIf, SendFinished, SwitchWrite, SwitchRead, Hash, Read, ReadFinished;
  }

  lemma ResolveEpochs<S>(e: Endpoint<S>, inbox: seq<Item>)
    ensures e.wait.Failed? ==> Resolve(e, inbox).0 == e
    ensures EpochsLogged(e) ==> EpochsLogged(Resolve(e, inbox).0)
  {
    hide EpochsLogged, Count, Available;
    if EpochsLogged(e) {
      CountsOf();
      var e' := Resolve(e, inbox).0;
      if e'.log == e.log {
        assert e'.log == e.log + [];
        EpochsMove(e, e', []);
      } else {
        EpochsMove(e, e', [GotCcs]);
      }
    }
  }

  lemma ClientTurnEpochs(p: Params, e: Client, inbox: seq<Item>, o: Outcome)
    requires e.state != ClientDone && EpochsLogged(e)
    ensures var e' := ClientDo(p, e, inbox, o).0;
            e'.wait.Failed? || EpochsLogged(e')
  {
    ClientEpochs(p, e, inbox, o);
    ClientDelta(p, e, inbox, o);
    hide ClientDo, EpochsLogged, Count;
    CountsOf();
    var e' := ClientDo(p, e, inbox, o).0;
    var more := if e'.state != e.state then ClientAdds(e.state) else [];
    if !e'.wait.Failed? {
      assert e'.log == e.log + more;
      EpochsMove(e, e', more);
    }
  }

  lemma ClientStepEpochs(p: Params, e: Client, inbox: seq<Item>, o: Outcome)
    requires e.wait.Failed? || EpochsLogged(e)
    ensures var e' := ClientStep(p, e, inbox, o).0;
            e'.wait.Failed? || EpochsLogged(e')
  {
    hide ClientDo, EpochsLogged, Resolve;
    if e.wait.Failed? {
      ResolveEpochs(e, inbox);
    } else if e.wait.Proceed? && e.state != ClientDone {
      ClientTurnEpochs(p, e, inbox, o);
    } else {
      ResolveEpochs(e, inbox);
    }
  }

  lemma {:induction false} ClientRunEpochs(p: Params, e: Client, ws: seq<World>)
    requires ClientLogged(p, e) && (e.wait.Failed? || EpochsLogged(e))
    ensures ClientLogged(p, ClientRun(p, e, ws)) && (ClientRun(p, e, ws).wait.Failed? || EpochsLogged(ClientRun(p, e, ws)))
    decreases |ws|
  {
    if ws != [] {
      hide ClientLogged, ClientStep, EpochsLogged;
      ClientStepEpochs(p, e, ws[0].inbox, ws[0].outcome);
      ClientStepLogs(p, e, ws[0].inbox, ws[0].outcome);
      ClientRunEpochs(p, ClientStep(p, e, ws[0].inbox, ws[0].outcome).0, ws[1..]);
    }
  }

  // At any moment of any run: the step that logs the verification has consumed a Finished under the
  // first encrypted epoch, over exactly the transcript so far.
  lemma ClientVerifies(p: Params, ws: seq<World>, w: World)
    requires var e := ClientRun(p, NEW_CLIENT, ws);
             ClientStep(p, e, w.inbox, w.outcome).0.log == e.log + [VerifiedFinished]
    ensures var e := ClientRun(p, NEW_CLIENT, ws);
            && w.inbox != [] && w.inbox[0].Hs? && w.inbox[0].epoch == 1
            && w.inbox[0].msg.kind == Finished && w.inbox[0].msg.covered == e.transcript
  {
    var e := ClientRun(p, NEW_CLIENT, ws);
    ClientRunEpochs(p, NEW_CLIENT, ws);
    hide ClientRun;
    ClientVerifiesStep(p, e, w.inbox, w.outcome);
  }

  lemma ServerTurnEpochs(p: Params, e: Server, inbox: seq<Item>, o: Outcome)
    requires e.state != ServerDone && EpochsLogged(e)
    ensures var e' := ServerDo(p, e, inbox, o).0;
            e'.wait.Failed? || EpochsLogged(e')
  {
    ServerEpochs(p, e, inbox, o);
    ServerDelta(p, e, inbox, o);
    hide ServerDo, EpochsLogged, Count;
    CountsOf();
    var e' := ServerDo(p, e, inbox, o).0;
    var more := if e'.state != e.state then ServerAdds(e.state) else [];
    if !e'.wait.Failed? {
      assert e'.log == e.log + more;
      EpochsMove(e, e', more);
    }
  }

  lemma ServerStepEpochs(p: Params, e: Server, inbox: seq<Item>, o: Outcome)
    requires e.wait.Failed? || EpochsLogged(e)
    ensures var e' := ServerStep(p, e, inbox, o).0;
            e'.wait.Failed? || EpochsLogged(e')
  {
    hide ServerDo, EpochsLogged, Resolve;
    if e.wait.Failed? {
      ResolveEpochs(e, inbox);
    } else if e.wait.Proceed? && e.state != ServerDone {
      ServerTurnEpochs(p, e, inbox, o);
    } else {
      ResolveEpochs(e, inbox);
    }
  }

  lemma {:induction false} ServerRunEpochs(p: Params, e: Server, ws: seq<World>)
    requires ServerLogged(p, e) && (e.wait.Failed? || EpochsLogged(e))
    ensures ServerLogged(p, ServerRun(p, e, ws)) && (ServerRun(p, e, ws).wait.Failed? || EpochsLogged(ServerRun(p, e, ws)))
    decreases |ws|
  {
    if ws != [] {
      hide ServerLogged, ServerStep, EpochsLogged;
      ServerStepEpochs(p, e, ws[0].inbox, ws[0].outcome);
      ServerStepLogs(p, e, ws[0].inbox, ws[0].outcome);
      ServerRunEpochs(p, ServerStep(p, e, ws[0].inbox, ws[0].outcome).0, ws[1..]);
    }
  }

  // At any moment of any run: the step that logs the verification has consumed a Finished under the
  // first encrypted epoch, over exactly the transcript so far.
  lemma ServerVerifies(p: Params, ws: seq<World>, w: World)
    requires var e := ServerRun(p, NEW_SERVER, ws);
             ServerStep(p, e, w.inbox, w.outcome).0.log == e.log + [VerifiedFinished]
    ensures var e := ServerRun(p, NEW_SERVER, ws);
            && w.inbox != [] && w.inbox[0].Hs? && w.inbox[0].epoch == 1
            && w.inbox[0].msg.kind == Finished && w.inbox[0].msg.covered == e.transcript
  {
    var e := ServerRun(p, NEW_SERVER, ws);
    ServerRunEpochs(p, NEW_SERVER, ws);
    hide ServerRun;
    ServerVerifiesStep(p, e, w.inbox, w.outcome);
  }

  lemma Grows(log: seq<Event>, k: Event)
    ensures log + [k] != log && (log + [k])[|log|] == k
  {
  }

  lemma ClientVerifiesStep(p: Params, e: Client, inbox: seq<Item>, o: Outcome)
    requires ClientLogged(p, e) && (e.wait.Failed? || EpochsLogged(e))
    requires ClientStep(p, e, inbox, o).0.log == e.log + [VerifiedFinished]
    ensures inbox != [] && inbox[0].Hs? && inbox[0].epoch == 1
    ensures inbox[0].msg.kind == Finished && inbox[0].msg.covered == e.transcript
  {
    hide ClientDo, ClientLogged, EpochsLogged;
    Grows(e.log, VerifiedFinished);
    Grows(e.log, GotCcs);
    if e.wait.Proceed? && e.state != ClientDone {
      ClientLogsVerified(p, e, inbox, o);
      ClientVerified(p, e, inbox, o);
      ClientEpochOne(p, e);
    } else {
      hide Available;
    }
  }

  // Only one state logs it.
  lemma ClientLogsVerified(p: Params, e: Client, inbox: seq<Item>, o: Outcome)
    requires e.state != ClientDone && ClientDo(p, e, inbox, o).0.log == e.log + [VerifiedFinished]
    ensures e.state.ReadServerFinished? && !o.Fails?
  {
    hide Available, Emit, EmitIf, SendFinished, SwitchWrite, SwitchRead, Hash, Read, ReadFinished;
    Grows(e.log, VerifiedFinished);
    Grows(e.log, ReadKey);
    assert e.log + [SentCcs, WriteKey] + [SentFinished] != e.log + [VerifiedFinished];
  }

  lemma ClientVerified(p: Params, e: Client, inbox: seq<Item>, o: Outcome)
    requires e.state.ReadServerFinished? && !o.Fails? && ClientDo(p, e, inbox, o).0.log == e.log + [VerifiedFinished]
    ensures Available(e, inbox) && inbox[0].msg.kind == Finished && inbox[0].msg.covered == e.transcript
  {
    Grows(e.log, VerifiedFinished);
  }

  // There, a Finished over anything else fails the handshake for good.
  lemma ClientRefusesFinished(p: Params, e: Client, inbox: seq<Item>, o: Outcome, ws: seq<World>)
    requires e.state.ReadServerFinished? && e.wait.Proceed? && !o.Fails?
    requires Available(e, inbox) && inbox[0].msg.kind == Finished && inbox[0].msg.covered != e.transcript
    ensures ClientRun(p, ClientStep(p, e, inbox, o).0, ws).wait == Failed(BadFinished)
    ensures ClientRun(p, ClientStep(p, e, inbox, o).0, ws).log == e.log
    ensures ClientRun(p, ClientStep(p, e, inbox, o).0, ws).state == e.state
  {
    ClientStaysFailed(p, ClientStep(p, e, inbox, o).0, ws);
  }

  lemma {:induction false} ClientStaysFailed(p: Params, e: Client, ws: seq<World>)
    requires e.wait.Failed?
    ensures ClientRun(p, e, ws) == e
    decreases |ws|
  {
    hide ClientDo;
    if ws != [] {
      ClientStaysFailed(p, e, ws[1..]);
    }
  }

  // A local operation that fails ends the handshake in any state.
  lemma ClientStopsRefused(p: Params, e: Client, inbox: seq<Item>, ws: seq<World>)
    requires e.wait.Proceed? && e.state != ClientDone
    ensures ClientRun(p, ClientStep(p, e, inbox, Fails).0, ws) == e.(wait := Failed(Refused))
  {
    ClientFails(p, e, inbox, Fails);
    ClientStaysFailed(p, e.(wait := Failed(Refused)), ws);
  }

  lemma ServerVerifiesStep(p: Params, e: Server, inbox: seq<Item>, o: Outcome)
    requires ServerLogged(p, e) && (e.wait.Failed? || EpochsLogged(e))
    requires ServerStep(p, e, inbox, o).0.log == e.log + [VerifiedFinished]
    ensures inbox != [] && inbox[0].Hs? && inbox[0].epoch == 1
    ensures inbox[0].msg.kind == Finished && inbox[0].msg.covered == e.transcript
  {
    hide ServerDo, ServerLogged, EpochsLogged;
    Grows(e.log, VerifiedFinished);
    Grows(e.log, GotCcs);
    if e.wait.Proceed? && e.state != ServerDone {
      ServerLogsVerified(p, e, inbox, o);
      ServerVerified(p, e, inbox, o);
      ServerEpochOne(p, e);
    } else {
      hide Available;
    }
  }

  // Only one state logs it.
  lemma ServerLogsVerified(p: Params, e: Server, inbox: seq<Item>, o: Outcome)
    requires e.state != ServerDone && ServerDo(p, e, inbox, o).0.log == e.log + [VerifiedFinished]
    ensures e.state.ReadClientFinished? && !o.Fails?
  {
    hide Available, Emit, EmitIf, SendFinished, SwitchWrite, SwitchRead, Hash, Read, ReadFinished;
    Grows(e.log, VerifiedFinished);
    Grows(e.log, ReadKey);
    assert e.log + [SentCcs, WriteKey] + [SentFinished] != e.log + [VerifiedFinished];
  }

  lemma ServerVerified(p: Params, e: Server, inbox: seq<Item>, o: Outcome)
    requires e.state.ReadClientFinished? && !o.Fails? && ServerDo(p, e, inbox, o).0.log == e.log + [VerifiedFinished]
    ensures Available(e, inbox) && inbox[0].msg.kind == Finished && inbox[0].msg.covered == e.transcript
  {
    Grows(e.log, VerifiedFinished);
  }

  // There, a Finished over anything else fails the handshake for good.
  lemma ServerRefusesFinished(p: Params, e: Server, inbox: seq<Item>, o: Outcome, ws: seq<World>)
    requires e.state.ReadClientFinished? && e.wait.Proceed? && !o.Fails?
    requires Available(e, inbox) && inbox[0].msg.kind == Finished && inbox[0].msg.covered != e.transcript
    ensures ServerRun(p, ServerStep(p, e, inbox, o).0, ws).wait == Failed(BadFinished)
    ensures ServerRun(p, ServerStep(p, e, inbox, o).0, ws).log == e.log
    ensures ServerRun(p, ServerStep(p, e, inbox, o).0, ws).state == e.state
  {
    ServerStaysFailed(p, ServerStep(p, e, inbox, o).0, ws);
  }

  lemma {:induction false} ServerStaysFailed(p: Params, e: Server, ws: seq<World>)
    requires e.wait.Failed?
    ensures ServerRun(p, e, ws) == e
    decreases |ws|
  {
    hide ServerDo;
    if ws != [] {
      ServerStaysFailed(p, e, ws[1..]);
    }
  }

  // A local operation that fails ends the handshake in any state.
  lemma ServerStopsRefused(p: Params, e: Server, inbox: seq<Item>, ws: seq<World>)
    requires e.wait.Proceed? && e.state != ServerDone
    ensures ServerRun(p, ServerStep(p, e, inbox, Fails).0, ws) == e.(wait := Failed(Refused))
  {
    ServerFails(p, e, inbox, Fails);
    ServerStaysFailed(p, e.(wait := Failed(Refused)), ws);
  }

  // A message under other keys than those of the epoch is not read but ends the handshake.
  lemma OtherEpochFails<S>(e: Endpoint<S>, inbox: seq<Item>)
    requires e.wait.ReadMessage? && inbox != [] && (inbox[0].Ccs? || inbox[0].epoch != e.readEpoch)
    ensures Resolve(e, inbox).0 == e.(wait := Failed(Unexpected))
  {
  }

  // The driver notes a ChangeCipherSpec exactly when one is at the head of the inbox, under the keys
  // of the epoch, and takes it; anything else there ends the handshake.
  lemma CcsNoted<S>(e: Endpoint<S>, inbox: seq<Item>)
    requires e.wait.ReadCcs? && inbox != []
    ensures var (e', inbox', _) := Resolve(e, inbox);
            if inbox[0] == Ccs(e.readEpoch) then e'.wait == Proceed && e'.log == e.log + [GotCcs] && inbox' == inbox[1..]
            else e' == e.(wait := Failed(Unexpected))
  {
  }

  // Before the verification the read keys were switched once.
  lemma ClientEpochOne(p: Params, e: Client)
    requires ClientLogged(p, e) && EpochsLogged(e) && e.state.ReadServerFinished? && e.wait.Proceed?
    ensures e.readEpoch == 1
  {
    hide Count;
    CountsOf();
    assert [] + [GotCcs, ReadKey] == [GotCcs, ReadKey];
  }

  lemma ServerEpochOne(p: Params, e: Server)
    requires ServerLogged(p, e) && EpochsLogged(e) && e.state.ReadClientFinished? && e.wait.Proceed?
    ensures e.readEpoch == 1
  {
    hide Count;
    CountsOf();
    assert [] + [GotCcs, ReadKey] == [GotCcs, ReadKey];
  }
}
