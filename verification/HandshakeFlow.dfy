/**
  Handshakes that succeed: with the messages of Figures 1 and 2 in section 7.3 of RFC 5246, in their order,
  and nothing failing on the way, either side gets to the end, has read exactly what the other
  side is to send, and has sent exactly what the other side is to read.
 */
module HandshakeFlow {
  import opened Bits
  import opened HandshakeCommon
  import opened Handshake
  import C = HandshakeClient
  import S = HandshakeServer

  /** What a handshake settles, and with it which messages it has. */
  datatype Talk = Talk(
    resumed: bool,
    cipher: Cipher,
    status: bool,       // a CertificateStatus
    ske: bool,          // a ServerKeyExchange
    request: bool,      // a CertificateRequest
    clientCert: bool,   // a certificate in answer to it
    ticket: bool,       // a NewSessionTicket
    nextProto: bool,
    channelId: bool,
    retry: bool,        // a HelloVerifyRequest, in DTLS
    ssl3: bool)         // no empty Certificate in SSL 3.0

  predicate Possible(k: Talk) {
    && k.cipher.Cipher?
    && (k.cipher.mkey.Ecdhe? ==> k.ske) && (k.ske ==> !k.cipher.mkey.RsaKey?)
    && (k.status || k.request ==> k.cipher.auth.CertAuth?)
    && (k.clientCert ==> k.request) && (k.request ==> !k.resumed)
    && (k.channelId ==> k.cipher.mkey.Ecdhe?)
  }

  function If(present: bool, m: MsgType): Option<MsgType> {
    if present then Some(m) else None
  }

  /** The messages of the server, in order, those in the middle only in a full handshake. */
  function ServerMessage(k: Talk, j: nat): Option<MsgType> {
    match j
    case 0 => If(k.retry, HelloVerifyRequest)
    case 1 => Some(ServerHello)
    case 2 => If(!k.resumed && k.cipher.Cipher? && k.cipher.auth.CertAuth?, Certificate)
    case 3 => If(!k.resumed && k.status, CertificateStatus)
    case 4 => If(!k.resumed && k.ske, ServerKeyExchange)
    case 5 => If(!k.resumed && k.request, CertificateRequest)
    case 6 => If(!k.resumed, ServerHelloDone)
    case 7 => If(k.ticket, NewSessionTicket)
    case 8 => Some(Finished)
    case _ => None
  }

  /** The messages of the client. */
  function ClientMessage(k: Talk, j: nat): Option<MsgType> {
    match j
    case 0 => Some(ClientHello)
    case 1 => If(k.retry, ClientHello)
    case 2 => If(!k.resumed && k.request && (k.clientCert || !k.ssl3), Certificate)
    case 3 => If(!k.resumed, ClientKeyExchange)
    case 4 => If(!k.resumed && k.clientCert, CertVerify)
    case 5 => If(k.nextProto, NextProto)
    case 6 => If(k.channelId, ChannelId)
    case 7 => Some(Finished)
    case _ => None
  }

  /** The first `j` entries, as far as they are there. */
  function FromServer(k: Talk, j: nat): seq<MsgType> {
    if j == 0 then []
    else if ServerMessage(k, j - 1).Some? then FromServer(k, j - 1) + [ServerMessage(k, j - 1).value]
    else FromServer(k, j - 1)
  }

  function FromClient(k: Talk, j: nat): seq<MsgType> {
    if j == 0 then []
    else if ClientMessage(k, j - 1).Some? then FromClient(k, j - 1) + [ClientMessage(k, j - 1).value]
    else FromClient(k, j - 1)
  }

  const SERVER_MESSAGES: nat := 9
  const CLIENT_MESSAGES: nat := 8

  /** The next message from entry `j` on. */
  function NextFromServer(k: Talk, j: nat): MsgType
    decreases 9 - j
  {
    if j >= 9 then NoMessage
    else if ServerMessage(k, j).Some? then ServerMessage(k, j).value
    else NextFromServer(k, j + 1)
  }

  function NextFromClient(k: Talk, j: nat): MsgType
    decreases 8 - j
  {
    if j >= 8 then NoMessage
    else if ClientMessage(k, j).Some? then ClientMessage(k, j).value
    else NextFromClient(k, j + 1)
  }

  // The client.

  /** How many of the server's entries a client in this state is past. */
  function ClientRead(s: C.State, k: Talk): nat {
    match s
    case StartConnect | EnterEarlyData | ReadHelloVerifyRequest => 0
    case ReadServerHelloState => 1
    case ReadServerCertificate => 2
    case ReadCertificateStatus => 3
    case VerifyServerCertificate | ReadServerKeyExchange => 4
    case ReadCertificateRequest => 5
    case ReadServerHelloDone => 6
    case SendClientCertificate | SendClientKeyExchange | SendClientCertificateVerify | ReadSessionTicket => 7
    case SendClientFinished | FinishFlight => if k.resumed then 9 else 7
    case ProcessChangeCipherSpec | ReadServerFinished => 8
    case FinishClientHandshake | StateDone | Tls13 => 9
  }

  /** And of its own. */
  function ClientSent(s: C.State, k: Talk): nat {
    match s
    case StartConnect => 0
    case EnterEarlyData | ReadHelloVerifyRequest => 1
    case ReadServerHelloState | ReadServerCertificate | ReadCertificateStatus | VerifyServerCertificate
       | ReadServerKeyExchange | ReadCertificateRequest | ReadServerHelloDone | SendClientCertificate => 2
    case SendClientKeyExchange => 3
    case SendClientCertificateVerify => 4
    case SendClientFinished => 5
    case ReadSessionTicket | ProcessChangeCipherSpec | ReadServerFinished => if k.resumed then 5 else 8
    case FinishFlight | FinishClientHandshake | StateDone | Tls13 => 8
  }

  /** The settings allow the handshake. */
  predicate ClientAllows(c: C.Client, k: Talk) {
    && !c.cfg.earlyDataOffered && c.cfg.ssl3 == k.ssl3
    && (k.retry ==> c.cfg.dtls) && (k.resumed ==> !c.cfg.renegotiation)
  }

  /** The states of a full handshake only. */
  predicate FullOnly(s: C.State) {
    || s.ReadServerCertificate? || s.ReadCertificateStatus? || s.VerifyServerCertificate? || s.ReadServerKeyExchange?
    || s.ReadCertificateRequest? || s.ReadServerHelloDone? || s.SendClientCertificate? || s.SendClientKeyExchange?
    || s.SendClientCertificateVerify?
  }

  /** What is settled is what the handshake is to be. */
  predicate ClientTerms(s: C.State, t: C.Terms, k: Talk) {
    && t.session == k.resumed && t.cipher == k.cipher && (k.status ==> t.certStatusExpected)
    && (FullOnly(s) ==> !k.resumed)
    && t.nextProtoSeen == k.nextProto && t.channelIdValid == k.channelId
    && t.certRequest == (k.request && ClientRead(s, k) >= 6)
    && (ClientRead(s, k) <= 7 ==> t.ticketExpected == k.ticket)
  }

  predicate ClientOnTrack(c: C.Client, k: Talk) {
    && Possible(k) && ClientAllows(c, k) && !c.state.Tls13? && !c.terms.tls13
    && c.facts.read == FromServer(k, ClientRead(c.state, k))
    && c.facts.sent == FromClient(k, ClientSent(c.state, k))
    && (if ClientRead(c.state, k) <= 1 then k.resumed ==> c.terms.session else ClientTerms(c.state, c.terms, k))
  }

  /** The hello says what the handshake is to be. */
  predicate HelloFits(hello: Hello, k: Talk) {
    && !hello.tls13 && hello.resumes == k.resumed && hello.cipher == k.cipher && hello.ticketExpected == k.ticket
    && hello.nextProto == k.nextProto && hello.channelId == k.channelId
  }

  /** Nothing fails. */
  predicate AllWell(i: Input) {
    i.parses && i.works && i.matches && i.recorded && i.keepSession && i.callback.Done?
  }

  predicate ClientInput(c: C.Client, k: Talk, i: Input) {
    && AllWell(i) && !i.chainEmpty && i.hasCertificate == k.clientCert
    && i.msg == NextFromServer(k, ClientRead(c.state, k))
    && HelloFits(i.hello, k) && (k.status ==> i.hello.certStatusExpected)
  }

  predicate NamedWait(wait: Wait) {
    wait.Ok? || wait.Flush? || wait.ReadChangeCipherSpec? || wait.EarlyReturn?
  }

  /** In an abbreviated handshake nothing comes between the hello and the ticket, and between the hello and the end. */
  lemma Abbreviated(k: Talk)
    requires k.resumed
    ensures FromServer(k, 7) == FromServer(k, 2) && FromClient(k, 5) == FromClient(k, 2)
  {
    assert FromServer(k, 7) == FromServer(k, 6) == FromServer(k, 5) == FromServer(k, 4) == FromServer(k, 3);
    assert FromClient(k, 5) == FromClient(k, 4) == FromClient(k, 3);
  }

  lemma ReadOne(k: Talk, j: nat)
    ensures FromServer(k, j + 1) == FromServer(k, j) + if ServerMessage(k, j).Some? then [ServerMessage(k, j).value] else []
    ensures j < 9 ==>
      NextFromServer(k, j) == if ServerMessage(k, j).Some? then ServerMessage(k, j).value else NextFromServer(k, j + 1)
  {
  }

  lemma SendOne(k: Talk, j: nat)
    ensures FromClient(k, j + 1) == FromClient(k, j) + if ClientMessage(k, j).Some? then [ClientMessage(k, j).value] else []
    ensures j < 8 ==>
      NextFromClient(k, j) == if ClientMessage(k, j).Some? then ClientMessage(k, j).value else NextFromClient(k, j + 1)
  {
  }

  /** What comes when an entry is not there. */
  lemma Following(k: Talk)
    ensures NextFromServer(k, 1) == ServerHello
    ensures !k.resumed ==>
      && NextFromServer(k, 6) == ServerHelloDone
      && NextFromServer(k, 5) == (if k.request then CertificateRequest else ServerHelloDone)
      && NextFromServer(k, 4) == (if k.ske then ServerKeyExchange else NextFromServer(k, 5))
  {
    assert !k.resumed ==> NextFromServer(k, 6) == ServerHelloDone;
  }

  /** The state is a different one, and the handshake is still on its way. */
  predicate ClientMoves(c: C.Client, k: Talk, r: C.Outcome) {
    NamedWait(r.wait) && r.h.state != c.state && ClientOnTrack(r.h, k)
  }

  lemma ClientStartTrack(c: C.Client, k: Talk, i: Input)
    requires ClientOnTrack(c, k) && ClientInput(c, k, i) && (c.state.StartConnect? || c.state.EnterEarlyData?)
    ensures ClientMoves(c, k, C.Step(c, i))
  {
    hide FromServer, FromClient, NextFromServer, NextFromClient;
    ReadOne(k, ClientRead(c.state, k));
    SendOne(k, ClientSent(c.state, k));
  }

  lemma ClientRetryTrack(c: C.Client, k: Talk, i: Input)
    requires ClientOnTrack(c, k) && ClientInput(c, k, i) && c.state.ReadHelloVerifyRequest?
    ensures ClientMoves(c, k, C.Step(c, i))
  {
    hide FromServer, FromClient, NextFromServer, NextFromClient;
    ReadOne(k, ClientRead(c.state, k));
    Following(k);
    SendOne(k, ClientSent(c.state, k));
  }

  lemma ClientServerHelloTrack(c: C.Client, k: Talk, i: Input)
    requires ClientOnTrack(c, k) && ClientInput(c, k, i) && c.state.ReadServerHelloState?
    ensures ClientMoves(c, k, C.Step(c, i))
  {
    hide FromServer, FromClient, NextFromServer, NextFromClient;
    ReadOne(k, ClientRead(c.state, k));
    SendOne(k, ClientSent(c.state, k));
    if k.resumed { Abbreviated(k); }
  }

  lemma ClientCertificateTrack(c: C.Client, k: Talk, i: Input)
    requires ClientOnTrack(c, k) && ClientInput(c, k, i) && (c.state.ReadServerCertificate? || c.state.ReadCertificateStatus?)
    ensures ClientMoves(c, k, C.Step(c, i))
  {
    hide FromServer, FromClient, NextFromServer, NextFromClient;
    ReadOne(k, ClientRead(c.state, k));
    Following(k);
    SendOne(k, ClientSent(c.state, k));
  }

  lemma ClientKeyExchangeTrack(c: C.Client, k: Talk, i: Input)
    requires ClientOnTrack(c, k) && ClientInput(c, k, i) && (c.state.VerifyServerCertificate? || c.state.ReadServerKeyExchange?)
    ensures c.terms.cipher.Cipher? && ClientMoves(c, k, C.Step(c, i))
  {
    hide FromServer, FromClient, NextFromServer, NextFromClient;
    ReadOne(k, ClientRead(c.state, k));
    Following(k);
    SendOne(k, ClientSent(c.state, k));
  }

  lemma ClientRequestTrack(c: C.Client, k: Talk, i: Input)
    requires ClientOnTrack(c, k) && ClientInput(c, k, i) && (c.state.ReadCertificateRequest? || c.state.ReadServerHelloDone?)
    ensures ClientMoves(c, k, C.Step(c, i))
  {
    hide FromServer, FromClient, NextFromServer, NextFromClient;
    ReadOne(k, ClientRead(c.state, k));
    Following(k);
    SendOne(k, ClientSent(c.state, k));
  }

  lemma ClientAnswerTrack(c: C.Client, k: Talk, i: Input)
    requires ClientOnTrack(c, k) && ClientInput(c, k, i) && (c.state.SendClientCertificate? || c.state.SendClientKeyExchange? || c.state.SendClientCertificateVerify?)
    ensures ClientMoves(c, k, C.Step(c, i))
  {
    hide FromServer, FromClient, NextFromServer, NextFromClient;
    ReadOne(k, ClientRead(c.state, k));
    Following(k);
    SendOne(k, ClientSent(c.state, k));
  }

  lemma ClientFinishTrack(c: C.Client, k: Talk, i: Input)
    requires ClientOnTrack(c, k) && ClientInput(c, k, i) && c.state.SendClientFinished?
    ensures ClientMoves(c, k, C.Step(c, i))
  {
    hide FromServer, FromClient, NextFromServer, NextFromClient;
    ReadOne(k, ClientRead(c.state, k));
    SendOne(k, ClientSent(c.state, k));
    SendOne(k, 6);
    SendOne(k, 7);
  }

  lemma ClientFlightTrack(c: C.Client, k: Talk, i: Input)
    requires ClientOnTrack(c, k) && ClientInput(c, k, i) && (c.state.FinishFlight? || c.state.ReadSessionTicket? || c.state.ProcessChangeCipherSpec?)
    ensures ClientMoves(c, k, C.Step(c, i))
  {
    hide FromServer, FromClient, NextFromServer, NextFromClient;
    ReadOne(k, ClientRead(c.state, k));
    SendOne(k, ClientSent(c.state, k));
  }

  lemma ClientEndTrack(c: C.Client, k: Talk, i: Input)
    requires ClientOnTrack(c, k) && ClientInput(c, k, i) && (c.state.ReadServerFinished? || c.state.FinishClientHandshake?)
    ensures ClientMoves(c, k, C.Step(c, i))
  {
    hide FromServer, FromClient, NextFromServer, NextFromClient;
    ReadOne(k, ClientRead(c.state, k));
    SendOne(k, ClientSent(c.state, k));
  }

  /** A client that gets what it waits for goes on. */
  lemma ClientTrack(c: C.Client, k: Talk, i: Input)
    requires ClientOnTrack(c, k) && ClientInput(c, k, i) && !c.state.StateDone?
    ensures c.state.ReadServerKeyExchange? ==> c.terms.cipher.Cipher?
    ensures ClientMoves(c, k, C.Step(c, i))
  {
    hide ClientMoves, ClientOnTrack, ClientInput, C.Step;
    ClientCipher(c, k);
    match c.state
    case StartConnect | EnterEarlyData => ClientStartTrack(c, k, i);
    case ReadHelloVerifyRequest => ClientRetryTrack(c, k, i);
    case ReadServerHelloState => ClientServerHelloTrack(c, k, i);
    case ReadServerCertificate | ReadCertificateStatus => ClientCertificateTrack(c, k, i);
    case VerifyServerCertificate | ReadServerKeyExchange => ClientKeyExchangeTrack(c, k, i);
    case ReadCertificateRequest | ReadServerHelloDone => ClientRequestTrack(c, k, i);
    case SendClientCertificate | SendClientKeyExchange | SendClientCertificateVerify => ClientAnswerTrack(c, k, i);
    case SendClientFinished => ClientFinishTrack(c, k, i);
    case FinishFlight | ReadSessionTicket | ProcessChangeCipherSpec => ClientFlightTrack(c, k, i);
    case ReadServerFinished | FinishClientHandshake => ClientEndTrack(c, k, i);
  }

  lemma ClientCipher(c: C.Client, k: Talk)
    requires ClientOnTrack(c, k)
    ensures c.state.ReadServerKeyExchange? ==> c.terms.cipher.Cipher?
    ensures !c.state.Tls13?
  {
  }

  // The server.

  /** How many of the client's entries a server in this state is past. */
  function ServerRead(s: S.State, k: Talk): nat {
    match s
    case StartAccept | ReadClientHello | SelectCertificate | SelectParameters => 0
    case SendServerHello | SendServerCertificate | SendServerKeyExchange | SendServerHelloDone | ReadClientCertificate => 2
    case VerifyClientCertificate | ReadClientKeyExchange => 3
    case ReadClientCertificateVerify => 4
    case ReadCcs | ProcessChangeCipherSpec | ReadNextProto => 5
    case ReadChannelId => 6
    case ReadClientFinished => 7
    case SendServerFinished => if k.resumed then 2 else 8
    case FinishServerHandshake | StateDone | Tls13 => 8
  }

  /** And of its own. */
  function ServerSent(s: S.State, k: Talk): nat {
    match s
    case StartAccept | ReadClientHello | SelectCertificate | SelectParameters | SendServerHello => 1
    case SendServerCertificate => 2
    case SendServerKeyExchange => 4
    case SendServerHelloDone => 5
    case ReadClientCertificate | VerifyClientCertificate | ReadClientKeyExchange | ReadClientCertificateVerify
       | SendServerFinished => if k.resumed then 2 else 7
    case ReadCcs | ProcessChangeCipherSpec | ReadNextProto | ReadChannelId | ReadClientFinished => if k.resumed then 9 else 7
    case FinishServerHandshake | StateDone | Tls13 => 9
  }

  /** The settings allow the handshake; a cookie is not this server's. */
  predicate ServerAllows(h: S.Server, k: Talk) {
    && !h.cfg.handoff && h.cfg.ssl3 == k.ssl3 && !k.retry
    && (h.cfg.failIfNoPeerCert && k.request ==> k.clientCert)
    && k.ske == (k.cipher.Cipher? && (k.cipher.mkey.Ecdhe? || (k.cipher.auth.PskAuth? && h.cfg.pskHint)))
  }

  predicate ServerFullOnly(s: S.State) {
    || s.SendServerCertificate? || s.SendServerKeyExchange? || s.SendServerHelloDone? || s.ReadClientCertificate?
    || s.VerifyClientCertificate? || s.ReadClientKeyExchange? || s.ReadClientCertificateVerify?
  }

  /** What is settled, as far as it is. */
  predicate ServerTerms(s: S.State, t: S.Terms, k: Talk) {
    && (ServerFullOnly(s) ==> !k.resumed)
    && (s.StartAccept? || s.ReadClientHello? ||
          (t.certStatusExpected == k.status && t.nextProtoSeen == k.nextProto && t.channelIdValid == k.channelId))
    && (s.StartAccept? || s.ReadClientHello? || s.SelectCertificate? || t.cipher == k.cipher)
    && (ServerRead(s, k) >= 2 ==> t.session == k.resumed && t.ticketExpected == k.ticket && t.certRequest == k.request)
    && (s.SendServerKeyExchange? ==> t.serverParams == k.ske)
    && t.peerKey == (k.clientCert && ServerRead(s, k) >= 3)
  }

  predicate ServerOnTrack(h: S.Server, k: Talk) {
    && Possible(k) && ServerAllows(h, k) && !h.state.Tls13? && !h.terms.tls13
    && h.facts.read == FromClient(k, ServerRead(h.state, k))
    && h.facts.sent == FromServer(k, ServerSent(h.state, k))
    && ServerTerms(h.state, h.terms, k)
  }

  predicate ServerInput(h: S.Server, k: Talk, i: Input) {
    && AllWell(i) && i.chainEmpty == !k.clientCert && i.hasCertificate
    && i.msg == NextFromClient(k, ServerRead(h.state, k))
    && HelloFits(i.hello, k) && i.hello.certStatusExpected == k.status && i.hello.certRequest == k.request
  }

  predicate ServerMoves(h: S.Server, k: Talk, r: S.Outcome) {
    NamedWait(r.wait) && r.h.state != h.state && ServerOnTrack(r.h, k)
  }

  lemma ClientFollowing(k: Talk)
    ensures FromClient(k, 0) == [] && (!k.retry ==> FromServer(k, 1) == [] && FromClient(k, 2) == FromClient(k, 1))
    ensures NextFromClient(k, 0) == ClientHello && NextFromClient(k, 7) == Finished
    ensures !k.resumed ==> NextFromClient(k, 3) == ClientKeyExchange
    ensures !k.resumed && k.clientCert ==> NextFromClient(k, 4) == CertVerify
    ensures NextFromClient(k, 6) == (if k.channelId then ChannelId else Finished)
    ensures NextFromClient(k, 5) == (if k.nextProto then NextProto else NextFromClient(k, 6))
  {
    assert FromServer(k, 0) == [] && FromClient(k, 0) == [];
    assert NextFromClient(k, 7) == Finished;
  }

  lemma ServerStartTrack(h: S.Server, k: Talk, i: Input)
    requires ServerOnTrack(h, k) && ServerInput(h, k, i) && (h.state.StartAccept? || h.state.ReadClientHello? || h.state.SelectCertificate?)
    ensures ServerMoves(h, k, S.Step(h, i))
  {
    hide FromServer, FromClient, NextFromServer, NextFromClient;
    ClientFollowing(k);
    SendOne(k, ServerRead(h.state, k));
    ReadOne(k, ServerSent(h.state, k));
  }

  lemma ServerParametersTrack(h: S.Server, k: Talk, i: Input)
    requires ServerOnTrack(h, k) && ServerInput(h, k, i) && h.state.SelectParameters?
    ensures ServerMoves(h, k, S.Step(h, i))
  {
    hide FromServer, FromClient, NextFromServer, NextFromClient;
    ClientFollowing(k);
    SendOne(k, ServerRead(h.state, k));
    ReadOne(k, ServerSent(h.state, k));
  }

  lemma ServerHelloTrack(h: S.Server, k: Talk, i: Input)
    requires ServerOnTrack(h, k) && ServerInput(h, k, i) && h.state.SendServerHello?
    ensures h.terms.cipher.Cipher? && ServerMoves(h, k, S.Step(h, i))
  {
    hide FromServer, FromClient, NextFromServer, NextFromClient;
    ClientFollowing(k);
    SendOne(k, ServerRead(h.state, k));
    ReadOne(k, ServerSent(h.state, k));
  }

  lemma ServerCertificateTrack(h: S.Server, k: Talk, i: Input)
    requires ServerOnTrack(h, k) && ServerInput(h, k, i) && h.state.SendServerCertificate?
    ensures h.terms.cipher.Cipher? && ServerMoves(h, k, S.Step(h, i))
  {
    hide FromServer, FromClient, NextFromServer, NextFromClient;
    ClientFollowing(k);
    SendOne(k, ServerRead(h.state, k));
    ReadOne(k, ServerSent(h.state, k));
    ReadOne(k, ServerSent(h.state, k) + 1);
  }

  lemma ServerKeyExchangeTrack(h: S.Server, k: Talk, i: Input)
    requires ServerOnTrack(h, k) && ServerInput(h, k, i) && h.state.SendServerKeyExchange?
    ensures ServerMoves(h, k, S.Step(h, i))
  {
    hide FromServer, FromClient, NextFromServer, NextFromClient;
    ClientFollowing(k);
    SendOne(k, ServerRead(h.state, k));
    ReadOne(k, ServerSent(h.state, k));
  }

  lemma ServerHelloDoneTrack(h: S.Server, k: Talk, i: Input)
    requires ServerOnTrack(h, k) && ServerInput(h, k, i) && h.state.SendServerHelloDone?
    ensures ServerMoves(h, k, S.Step(h, i))
  {
    hide FromServer, FromClient, NextFromServer, NextFromClient;
    ClientFollowing(k);
    SendOne(k, ServerRead(h.state, k));
    ReadOne(k, ServerSent(h.state, k));
    ReadOne(k, ServerSent(h.state, k) + 1);
  }

  lemma ServerReadsCertificateTrack(h: S.Server, k: Talk, i: Input)
    requires ServerOnTrack(h, k) && ServerInput(h, k, i) && (h.state.ReadClientCertificate? || h.state.VerifyClientCertificate?)
    ensures ServerMoves(h, k, S.Step(h, i))
  {
    hide FromServer, FromClient, NextFromServer, NextFromClient;
    ClientFollowing(k);
    SendOne(k, ServerRead(h.state, k));
    ReadOne(k, ServerSent(h.state, k));
  }

  lemma ServerReadsKeysTrack(h: S.Server, k: Talk, i: Input)
    requires ServerOnTrack(h, k) && ServerInput(h, k, i) && (h.state.ReadClientKeyExchange? || h.state.ReadClientCertificateVerify?)
    ensures h.terms.cipher.Cipher? && ServerMoves(h, k, S.Step(h, i))
  {
    hide FromServer, FromClient, NextFromServer, NextFromClient;
    ClientFollowing(k);
    SendOne(k, ServerRead(h.state, k));
    ReadOne(k, ServerSent(h.state, k));
  }

  lemma ServerCcsTrack(h: S.Server, k: Talk, i: Input)
    requires ServerOnTrack(h, k) && ServerInput(h, k, i) && (h.state.ReadCcs? || h.state.ProcessChangeCipherSpec?)
    ensures ServerMoves(h, k, S.Step(h, i))
  {
    hide FromServer, FromClient, NextFromServer, NextFromClient;
    ClientFollowing(k);
    SendOne(k, ServerRead(h.state, k));
    ReadOne(k, ServerSent(h.state, k));
    if k.resumed { Abbreviated(k); }
  }

  lemma ServerReadsExtensionsTrack(h: S.Server, k: Talk, i: Input)
    requires ServerOnTrack(h, k) && ServerInput(h, k, i) && (h.state.ReadNextProto? || h.state.ReadChannelId?)
    ensures ServerMoves(h, k, S.Step(h, i))
  {
    hide FromServer, FromClient, NextFromServer, NextFromClient;
    ClientFollowing(k);
    SendOne(k, ServerRead(h.state, k));
    ReadOne(k, ServerSent(h.state, k));
  }

  lemma ServerReadsFinishedTrack(h: S.Server, k: Talk, i: Input)
    requires ServerOnTrack(h, k) && ServerInput(h, k, i) && h.state.ReadClientFinished?
    ensures ServerMoves(h, k, S.Step(h, i))
  {
    hide FromServer, FromClient, NextFromServer, NextFromClient;
    ClientFollowing(k);
    SendOne(k, ServerRead(h.state, k));
    ReadOne(k, ServerSent(h.state, k));
  }

  lemma ServerFinishTrack(h: S.Server, k: Talk, i: Input)
    requires ServerOnTrack(h, k) && ServerInput(h, k, i) && h.state.SendServerFinished? && !k.resumed
    ensures ServerMoves(h, k, S.Step(h, i))
  {
    hide FromServer, FromClient, NextFromServer, NextFromClient;
    ClientFollowing(k);
    SendOne(k, ServerRead(h.state, k));
    ReadOne(k, ServerSent(h.state, k));
    ReadOne(k, 7);
    ReadOne(k, 8);
  }

  lemma ServerResumesTrack(h: S.Server, k: Talk, i: Input)
    requires ServerOnTrack(h, k) && ServerInput(h, k, i) && h.state.SendServerFinished? && k.resumed
    ensures ServerMoves(h, k, S.Step(h, i))
  {
    hide FromServer, FromClient, NextFromServer, NextFromClient;
    ClientFollowing(k);
    SendOne(k, ServerRead(h.state, k));
    ReadOne(k, ServerSent(h.state, k));
    Abbreviated(k);
    ReadOne(k, 7);
    ReadOne(k, 8);
  }

  lemma ServerEndTrack(h: S.Server, k: Talk, i: Input)
    requires ServerOnTrack(h, k) && ServerInput(h, k, i) && h.state.FinishServerHandshake?
    ensures ServerMoves(h, k, S.Step(h, i))
  {
    hide FromServer, FromClient, NextFromServer, NextFromClient;
    ClientFollowing(k);
    SendOne(k, ServerRead(h.state, k));
    ReadOne(k, ServerSent(h.state, k));
  }

  /** A server that gets what it waits for goes on. */
  lemma ServerTrack(h: S.Server, k: Talk, i: Input)
    requires ServerOnTrack(h, k) && ServerInput(h, k, i) && !h.state.StateDone?
    ensures S.NeedsCipher(h.state) ==> h.terms.cipher.Cipher?
    ensures ServerMoves(h, k, S.Step(h, i))
  {
    hide ServerMoves, ServerOnTrack, ServerInput, S.Step;
    ServerCipher(h, k);
    match h.state
    case StartAccept | ReadClientHello | SelectCertificate => ServerStartTrack(h, k, i);
    case SelectParameters => ServerParametersTrack(h, k, i);
    case SendServerHello => ServerHelloTrack(h, k, i);
    case SendServerCertificate => ServerCertificateTrack(h, k, i);
    case SendServerKeyExchange => ServerKeyExchangeTrack(h, k, i);
    case SendServerHelloDone => ServerHelloDoneTrack(h, k, i);
    case ReadClientCertificate | VerifyClientCertificate => ServerReadsCertificateTrack(h, k, i);
    case ReadClientKeyExchange | ReadClientCertificateVerify => ServerReadsKeysTrack(h, k, i);
    case ReadCcs | ProcessChangeCipherSpec => ServerCcsTrack(h, k, i);
    case ReadNextProto | ReadChannelId => ServerReadsExtensionsTrack(h, k, i);
    case ReadClientFinished => ServerReadsFinishedTrack(h, k, i);
    case SendServerFinished => if k.resumed { ServerResumesTrack(h, k, i); } else { ServerFinishTrack(h, k, i); }
    case FinishServerHandshake => ServerEndTrack(h, k, i);
  }

  lemma ServerCipher(h: S.Server, k: Talk)
    requires ServerOnTrack(h, k)
    ensures S.NeedsCipher(h.state) ==> h.terms.cipher.Cipher?
    ensures !h.state.Tls13?
  {
  }
}
