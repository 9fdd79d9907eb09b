/** What each step of a handshake waits for, and exactly what it refuses. */
module HandshakeRefusal {
  import opened Bits
  import opened HandshakeCommon
  import C = HandshakeClient
  import S = HandshakeServer

  /** The client needs a message of the server here. */
  predicate ClientReads(h: C.Client) {
    || h.state.ReadHelloVerifyRequest? || h.state.ReadServerHelloState? || h.state.ReadServerKeyExchange?
    || h.state.ReadServerHelloDone? || h.state.ReadServerFinished?
    || ((h.state.ReadServerCertificate? || h.state.ReadCertificateRequest?) && UsesCertificateAuth(h.terms.cipher))
    || (h.state.ReadCertificateStatus? && h.terms.certStatusExpected)
    || (h.state.ReadSessionTicket? && h.terms.ticketExpected)
  }

  /** The operation that may not be finished yet, by the state it is started in. */
  predicate ClientAsks(h: C.Client, i: Input) {
    || h.state.Tls13?
    || (h.state.VerifyServerCertificate? && UsesCertificateAuth(h.terms.cipher))
    || (h.state.SendClientCertificate? && h.terms.certRequest)
    || (h.state.SendClientCertificateVerify? && h.terms.certRequest && i.hasCertificate)
    || (h.state.SendClientFinished? && h.terms.channelIdValid)
  }

  function ClientPause(h: C.Client, i: Input): Wait
    requires i.callback.Later?
  {
    if h.state.Tls13? then i.callback.wait
    else if h.state.VerifyServerCertificate? then CertificateVerify
    else if h.state.SendClientCertificate? then X509Lookup
    else if h.state.SendClientFinished? then ChannelIdLookup
    else if h.cfg.ssl3 then Error
    else PrivateKeyOperation
  }

  /** The message that is there is not one for this state, or is not in order. */
  predicate ClientRejects(h: C.Client, i: Input) {
    match h.state
    case ReadHelloVerifyRequest => i.msg.HelloVerifyRequest? && !i.parses
    case ReadServerHelloState =>
      || !i.msg.ServerHello? || !i.parses
      || (!i.hello.tls13 && (h.cfg.earlyDataOffered || i.hello.cipher.NoCipher?))
    case ReadServerCertificate => !i.msg.Certificate? || !i.parses || i.chainEmpty
    case ReadCertificateStatus => i.msg.CertificateStatus? && !i.parses
    case ReadServerKeyExchange =>
      if i.msg.ServerKeyExchange? then
        || !i.parses || h.terms.cipher.NoCipher? || h.terms.cipher.mkey.RsaKey?
        || (h.terms.cipher.auth.CertAuth? && !i.matches)
      else h.terms.cipher.Cipher? && h.terms.cipher.mkey.Ecdhe?
    case ReadCertificateRequest => !i.msg.ServerHelloDone? && (!i.msg.CertificateRequest? || !i.parses)
    case ReadServerHelloDone => !i.msg.ServerHelloDone? || !i.parses
    case ReadSessionTicket => !i.msg.NewSessionTicket? || !i.parses
    case ReadServerFinished => !i.msg.Finished? || !i.matches
    case _ => false
  }

  /** The step computes something that can fail by itself. */
  predicate ClientComputes(h: C.Client, i: Input) {
    match h.state
    case StartConnect | SendClientKeyExchange | SendClientFinished | ProcessChangeCipherSpec | ReadServerCertificate
       | ReadServerHelloDone | ReadSessionTicket | ReadServerFinished => true
    case EnterEarlyData => !h.cfg.dtls && h.cfg.earlyDataOffered
    case ReadHelloVerifyRequest => i.msg.HelloVerifyRequest?
    case ReadServerHelloState => !i.hello.tls13
    case ReadCertificateStatus => i.msg.CertificateStatus?
    case ReadServerKeyExchange => i.msg.ServerKeyExchange?
    case ReadCertificateRequest => i.msg.CertificateRequest?
    case SendClientCertificate => h.terms.certRequest
    case SendClientCertificateVerify => h.terms.certRequest && i.hasCertificate
    case FinishClientHandshake => !h.terms.session
    case _ => false
  }

  /** What a client that goes on waits for next. */
  function ClientThen(h: C.Client, i: Input): Wait {
    match h.state
    case StartConnect | SendClientFinished => Flush
    case EnterEarlyData => if !h.cfg.dtls && h.cfg.earlyDataOffered then EarlyReturn else Ok
    case ReadHelloVerifyRequest => if i.msg.HelloVerifyRequest? then Flush else Ok
    case FinishFlight => if !h.terms.session && i.falseStart && !h.cfg.dtls && !h.cfg.renegotiation then EarlyReturn else Ok
    case ReadSessionTicket => ReadChangeCipherSpec
    case _ => Ok
  }

  /** The wait a step ends with; only one that goes on changes anything. */
  lemma ClientWaits(h: C.Client, i: Input)
    requires h.state.ReadServerKeyExchange? ==> h.terms.cipher.Cipher?
    requires !h.state.StateDone?
    ensures var r := C.Step(h, i);
      if ClientReads(h) && i.msg.NoMessage? then
        r == C.Outcome(h, if h.state.ReadServerHelloState? then ReadServerHello else ReadMessage)
      else if ClientReads(h) && ClientRejects(h, i) then r == C.Outcome(h, Error)
      else if ClientAsks(h, i) && i.callback.Fails? then r == C.Outcome(h, Error)
      else if ClientAsks(h, i) && i.callback.Later? && !ClientPause(h, i).Ok? then r == C.Outcome(h, ClientPause(h, i))
      else if (ClientReads(h) || !NeedsMessage(h.state)) && ClientComputes(h, i) && !i.works then r == C.Outcome(h, Error)
      else if h.state.FinishFlight? && !h.terms.session && !i.recorded then r == C.Outcome(h, Error)
      else r.wait == ClientThen(h, i) && r.h.state != h.state
  {
  }

  /** The states that are about a message. */
  predicate NeedsMessage(s: C.State) {
    || s.ReadHelloVerifyRequest? || s.ReadServerHelloState? || s.ReadServerKeyExchange? || s.ReadServerHelloDone?
    || s.ReadServerFinished? || s.ReadServerCertificate? || s.ReadCertificateRequest? || s.ReadCertificateStatus?
    || s.ReadSessionTicket?
  }

  /** The server needs a message of the client here. */
  predicate ServerReads(h: S.Server) {
    || h.state.ReadClientHello? || h.state.SelectCertificate? || h.state.SelectParameters?
    || h.state.ReadClientKeyExchange? || h.state.ReadClientFinished?
    || (h.state.ReadClientCertificate? && h.terms.certRequest)
    || (h.state.ReadClientCertificateVerify? && h.terms.peerKey)
    || (h.state.ReadNextProto? && h.terms.nextProtoSeen)
    || (h.state.ReadChannelId? && h.terms.channelIdValid)
  }

  /** The message that is there is not one for this state, or is not in order. */
  predicate ServerRejects(h: S.Server, i: Input) {
    match h.state
    case ReadClientHello => !i.msg.ClientHello? || (!h.cfg.handoff && !i.parses)
    case SelectParameters => !i.parses
    case ReadClientCertificate =>
      if i.msg.Certificate? then !i.parses || (i.chainEmpty && (h.cfg.ssl3 || h.cfg.failIfNoPeerCert))
      else !(h.cfg.ssl3 && i.msg.ClientKeyExchange? && !h.cfg.failIfNoPeerCert)
    case ReadClientKeyExchange => !i.msg.ClientKeyExchange? || !i.parses
    case ReadClientCertificateVerify => !i.msg.CertVerify? || !i.parses || !i.matches
    case ReadNextProto => !i.msg.NextProto? || !i.parses
    case ReadChannelId => !i.msg.ChannelId? || !i.matches
    case ReadClientFinished => !i.msg.Finished? || !i.matches
    case _ => false
  }

  /** The operation that may not be finished yet, by the state it is started in. */
  predicate ServerAsks(h: S.Server) {
    || h.state.ReadClientHello? || h.state.SelectCertificate? || h.state.Tls13? || h.state.SelectParameters?
    || (h.state.SendServerKeyExchange? && h.terms.serverParams && UsesCertificateAuth(h.terms.cipher))
    || (h.state.VerifyClientCertificate? && h.terms.peerKey)
    || (h.state.ReadClientKeyExchange? && h.terms.cipher.Cipher? && h.terms.cipher.mkey.RsaKey?)
  }

  function ServerPause(h: S.Server, i: Input): Wait
    requires i.callback.Later?
  {
    match h.state
    case ReadClientHello => CertificateSelectionPending
    case SelectCertificate => X509Lookup
    case Tls13 => i.callback.wait
    case SelectParameters => if i.callback.wait.PendingTicket? then PendingTicket else PendingSession
    case VerifyClientCertificate => CertificateVerify
    case _ => PrivateKeyOperation
  }

  /** The step computes something that can fail by itself. */
  predicate ServerComputes(h: S.Server, i: Input) {
    match h.state
    case StartAccept | Tls13 | VerifyClientCertificate | ReadCcs | FinishServerHandshake => false
    case SendServerKeyExchange => h.terms.serverParams
    case ReadClientCertificate => i.msg.Certificate?
    case _ => true
  }

  /** No cipher in common, or no certificate for it. */
  predicate ServerUnfit(h: S.Server, i: Input) {
    || (h.state.SelectCertificate? && !h.terms.tls13 && (!i.parses || i.hello.cipher.NoCipher?))
    || (h.state.SendServerCertificate? && UsesCertificateAuth(h.terms.cipher) && !i.hasCertificate)
  }

  /** The states that only a message of the client, if it is due, can bring anything to. */
  predicate Passive(s: S.State) {
    || s.ReadClientCertificate? || s.ReadClientCertificateVerify? || s.ReadNextProto? || s.ReadChannelId?
  }

  function ServerThen(s: S.State): Wait {
    match s
    case SendServerHelloDone | SendServerFinished => Flush
    case ReadCcs => ReadChangeCipherSpec
    case _ => Ok
  }

  /** A Finished is taken in even if the hashes for Channel ID cannot be recorded then. */
  predicate RecordFails(h: S.Server, i: Input) {
    h.state.ReadClientFinished? && !h.terms.session && h.terms.channelIdValid && !i.recorded
  }

  /** The wait a step ends with; only one that goes on changes anything, but for the last failure. */
  lemma ServerWaits(h: S.Server, i: Input)
    requires S.NeedsCipher(h.state) ==> h.terms.cipher.Cipher?
    requires !h.state.StateDone?
    ensures var r := S.Step(h, i);
      if ServerReads(h) && i.msg.NoMessage? then r == S.Outcome(h, ReadMessage)
      else if ServerReads(h) && ServerRejects(h, i) then r == S.Outcome(h, Error)
      else if h.state.ReadClientHello? && h.cfg.handoff then r == S.Outcome(h, Handoff)
      else if ServerAsks(h) && i.callback.Fails? then r == S.Outcome(h, Error)
      else if ServerAsks(h) && i.callback.Later? && !ServerPause(h, i).Ok? then r == S.Outcome(h, ServerPause(h, i))
      else if (ServerReads(h) || !Passive(h.state)) && ServerComputes(h, i) && !i.works then r == S.Outcome(h, Error)
      else if ServerUnfit(h, i) then r == S.Outcome(h, Error)
      else r.wait == (if RecordFails(h, i) then Error else ServerThen(h.state)) && r.h.state != h.state
  {
  }
}
