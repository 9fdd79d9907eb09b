/** handshake_server.cc: the steps of the server below TLS 1.3. */
module HandshakeServer {
  import opened Bits
  import opened HandshakeCommon

  datatype State =
    | StartAccept | ReadClientHello | SelectCertificate | Tls13 | SelectParameters | SendServerHello
    | SendServerCertificate | SendServerKeyExchange | SendServerHelloDone | ReadClientCertificate
    | VerifyClientCertificate | ReadClientKeyExchange | ReadClientCertificateVerify | ReadCcs
    | ProcessChangeCipherSpec | ReadNextProto | ReadChannelId | ReadClientFinished | SendServerFinished
    | FinishServerHandshake | StateDone

  /** What is settled before the handshake starts; `pskHint` is a configured PSK identity hint. */
  datatype Config = Config(ssl3: bool, handoff: bool, pskHint: bool, failIfNoPeerCert: bool)

  /** What the two sides settle; `session` is a resumed ssl->session, `peerKey` the key of a client certificate. */
  datatype Terms = Terms(session: bool, tls13: bool, cipher: Cipher, certStatusExpected: bool, ticketExpected: bool,
                         certRequest: bool, nextProtoSeen: bool, channelIdValid: bool, serverParams: bool, peerKey: bool)

  /** The fields of SSL_HANDSHAKE and SSL that the server's steps use. */
  datatype Server = Server(state: State, cfg: Config, terms: Terms, facts: Facts)

  datatype Outcome = Outcome(h: Server, wait: Wait)

  const NO_TERMS: Terms := Terms(false, false, NoCipher, false, false, false, false, false, false, false)

  predicate Starts(h: Server) {
    h.state.StartAccept? && h.terms == NO_TERMS && h.facts == NOTHING
  }

  function Go(h: Server, s: State): Outcome {
    Outcome(h.(state := s), Ok)
  }

  function DoStartAccept(h: Server, i: Input): Outcome {
    Go(h, ReadClientHello)
  }

  function DoReadClientHello(h: Server, i: Input): Outcome {
    if i.msg.NoMessage? then Outcome(h, ReadMessage)
    else if i.msg != ClientHello then Outcome(h, Error)
    else if h.cfg.handoff then Outcome(h, Handoff)
    else if !i.parses then Outcome(h, Error)
    else if i.callback.Later? then Outcome(h, CertificateSelectionPending)
    else if i.callback.Fails? || !i.works then Outcome(h, Error)
    else
      var terms := h.terms.(tls13 := i.hello.tls13, certStatusExpected := i.hello.certStatusExpected,
                            nextProtoSeen := i.hello.nextProto, channelIdValid := i.hello.channelId);
      Go(h.(terms := terms), SelectCertificate)
  }

  function DoSelectCertificate(h: Server, i: Input): Outcome {
    if i.msg.NoMessage? then Outcome(h, ReadMessage)
    else if i.callback.Fails? then Outcome(h, Error)
    else if i.callback.Later? then Outcome(h, X509Lookup)
    else if !i.works then Outcome(h, Error)
    else if h.terms.tls13 then Go(h, Tls13)
    else if !i.parses || i.hello.cipher.NoCipher? then Outcome(h, Error)
    else Go(h.(terms := h.terms.(cipher := i.hello.cipher)), SelectParameters)
  }

  /** TLS 1.3 is a state machine of its own, which only reports what it waits for. */
  function DoTls13(h: Server, i: Input): Outcome {
    match i.callback
    case Done => Go(h, FinishServerHandshake)
    case Fails => Outcome(h, Error)
    case Later(wait) => if wait.Ok? then Go(h, FinishServerHandshake) else Outcome(h, wait)
  }

  function DoSelectParameters(h: Server, i: Input): Outcome {
    if i.msg.NoMessage? then Outcome(h, ReadMessage)
    else if !i.parses || i.callback.Fails? then Outcome(h, Error)
    else if i.callback.Later? then Outcome(h, if i.callback.wait.PendingTicket? then PendingTicket else PendingSession)
    else if !i.works then Outcome(h, Error)
    else
      var certRequest := !i.hello.resumes && i.hello.certRequest && UsesCertificateAuth(h.terms.cipher);
      var terms := h.terms.(session := i.hello.resumes, ticketExpected := i.hello.ticketExpected, certRequest := certRequest);
      Go(h.(terms := terms, facts := Read(h.facts, ClientHello)), SendServerHello)
  }

  function DoSendServerHello(h: Server, i: Input): Outcome
    requires h.terms.cipher.Cipher?
  {
    if !i.works then Outcome(h, Error)
    else
      var keep := h.terms.cipher.mkey.Ecdhe? && (h.terms.session ==> i.keepSession);
      var terms := h.terms.(channelIdValid := h.terms.channelIdValid && keep);
      Go(h.(terms := terms, facts := Added(h.facts, ServerHello)), if h.terms.session then SendServerFinished else SendServerCertificate)
  }

  function DoSendServerCertificate(h: Server, i: Input): Outcome
    requires h.terms.cipher.Cipher?
  {
    if UsesCertificateAuth(h.terms.cipher) && !i.hasCertificate then Outcome(h, Error)
    else if !i.works then Outcome(h, Error)
    else
      var certs := UsesCertificateAuth(h.terms.cipher);
      var facts := AddedIf(AddedIf(h.facts, certs, Certificate), certs && h.terms.certStatusExpected, CertificateStatus);
      var params := RequiresServerKeyExchange(h.terms.cipher) || (h.terms.cipher.auth.PskAuth? && h.cfg.pskHint);
      Go(h.(terms := h.terms.(serverParams := params), facts := facts), SendServerKeyExchange)
  }

  function DoSendServerKeyExchange(h: Server, i: Input): Outcome {
    if !h.terms.serverParams then Go(h, SendServerHelloDone)
    else if UsesCertificateAuth(h.terms.cipher) && i.callback.Fails? then Outcome(h, Error)
    else if UsesCertificateAuth(h.terms.cipher) && i.callback.Later? then Outcome(h, PrivateKeyOperation)
    else if !i.works then Outcome(h, Error)
    else Go(h.(terms := h.terms.(serverParams := false), facts := Added(h.facts, ServerKeyExchange)), SendServerHelloDone)
  }

  function DoSendServerHelloDone(h: Server, i: Input): Outcome {
    if !i.works then Outcome(h, Error)
    else
      var f := Added(AddedIf(h.facts, h.terms.certRequest, CertificateRequest), ServerHelloDone);
      Outcome(h.(state := ReadClientCertificate, facts := f), Flush)
  }

  function DoReadClientCertificate(h: Server, i: Input): Outcome {
    if !h.terms.certRequest then Go(h, VerifyClientCertificate)
    else if i.msg.NoMessage? then Outcome(h, ReadMessage)
    else if i.msg != Certificate then
      if h.cfg.ssl3 && i.msg == ClientKeyExchange && !h.cfg.failIfNoPeerCert then Go(h, VerifyClientCertificate)
      else Outcome(h, Error)
    else if !i.works || !i.parses then Outcome(h, Error)
    else if i.chainEmpty then
      if h.cfg.ssl3 || h.cfg.failIfNoPeerCert then Outcome(h, Error)
      else Go(h.(facts := Read(h.facts, Certificate)), VerifyClientCertificate)
    else Go(h.(terms := h.terms.(peerKey := true), facts := Read(h.facts, Certificate).With(CertRead)), VerifyClientCertificate)
  }

  function DoVerifyClientCertificate(h: Server, i: Input): Outcome {
    if !h.terms.peerKey then Go(h, ReadClientKeyExchange)
    else
      match i.callback
      case Fails => Outcome(h, Error)
      case Later(_) => Outcome(h, CertificateVerify)
      case Done => Go(h.(facts := h.facts.With(CertVerified)), ReadClientKeyExchange)
  }

  function DoReadClientKeyExchange(h: Server, i: Input): Outcome
    requires h.terms.cipher.Cipher?
  {
    if i.msg.NoMessage? then Outcome(h, ReadMessage)
    else if i.msg != ClientKeyExchange || !i.parses then Outcome(h, Error)
    else if h.terms.cipher.mkey.RsaKey? && i.callback.Fails? then Outcome(h, Error)
    else if h.terms.cipher.mkey.RsaKey? && i.callback.Later? then Outcome(h, PrivateKeyOperation)
    else if !i.works then Outcome(h, Error)
    else Go(h.(facts := Read(h.facts, ClientKeyExchange)), ReadClientCertificateVerify)
  }

  function DoReadClientCertificateVerify(h: Server, i: Input): Outcome {
    if !h.terms.peerKey then Go(h, ReadCcs)
    else if i.msg.NoMessage? then Outcome(h, ReadMessage)
    else if i.msg != CertVerify || !i.parses then Outcome(h, Error)
    else if !i.matches || !i.works then Outcome(h, Error)
    else Go(h.(facts := Read(h.facts, CertVerify).With(CvVerified)), ReadCcs)
  }

  function DoReadChangeCipherSpec(h: Server, i: Input): Outcome {
    Outcome(h.(state := ProcessChangeCipherSpec), ReadChangeCipherSpec)
  }

  function DoProcessChangeCipherSpec(h: Server, i: Input): Outcome {
    if !i.works then Outcome(h, Error) else Go(h.(facts := NewReadKeys(h.facts)), ReadNextProto)
  }

  function DoReadNextProto(h: Server, i: Input): Outcome {
    if !h.terms.nextProtoSeen then Go(h, ReadChannelId)
    else if i.msg.NoMessage? then Outcome(h, ReadMessage)
    else if i.msg != NextProto || !i.works || !i.parses then Outcome(h, Error)
    else Go(h.(facts := Read(h.facts, NextProto)), ReadChannelId)
  }

  function DoReadChannelId(h: Server, i: Input): Outcome {
    if !h.terms.channelIdValid then Go(h, ReadClientFinished)
    else if i.msg.NoMessage? then Outcome(h, ReadMessage)
    else if i.msg != ChannelId || !i.matches || !i.works then Outcome(h, Error)
    else Go(h.(facts := Read(h.facts, ChannelId)), ReadClientFinished)
  }

  /** The state moves on even when recording the hashes for Channel ID then fails. */
  function DoReadClientFinished(h: Server, i: Input): Outcome {
    var wait := GetFinished(i);
    if !wait.Ok? then Outcome(h, wait)
    else
      var next := if h.terms.session then FinishServerHandshake else SendServerFinished;
      var failed := !h.terms.session && h.terms.channelIdValid && !i.recorded;
      Outcome(h.(state := next, facts := GotFinished(h.facts)), if failed then Error else Ok)
  }

  function DoSendServerFinished(h: Server, i: Input): Outcome {
    if !i.works then Outcome(h, Error)
    else
      var next := if h.terms.session then ReadCcs else FinishServerHandshake;
      var f := AddedIf(h.facts, h.terms.ticketExpected, NewSessionTicket);
      Outcome(h.(state := next, facts := SendFinished(NewWriteKeys(f))), Flush)
  }

  function DoFinishServerHandshake(h: Server, i: Input): Outcome {
    Go(h, StateDone)
  }

  /** The states whose steps look into the cipher. */
  predicate NeedsCipher(s: State) {
    s.SendServerHello? || s.SendServerCertificate? || s.ReadClientKeyExchange?
  }

  /** The switch of ssl_server_handshake. */
  function Step(h: Server, i: Input): Outcome
    requires NeedsCipher(h.state) ==> h.terms.cipher.Cipher?
  {
    match h.state
    case StartAccept => DoStartAccept(h, i)
    case ReadClientHello => DoReadClientHello(h, i)
    case SelectCertificate => DoSelectCertificate(h, i)
    case Tls13 => DoTls13(h, i)
    case SelectParameters => DoSelectParameters(h, i)
    case SendServerHello => DoSendServerHello(h, i)
    case SendServerCertificate => DoSendServerCertificate(h, i)
    case SendServerKeyExchange => DoSendServerKeyExchange(h, i)
    case SendServerHelloDone => DoSendServerHelloDone(h, i)
    case ReadClientCertificate => DoReadClientCertificate(h, i)
    case VerifyClientCertificate => DoVerifyClientCertificate(h, i)
    case ReadClientKeyExchange => DoReadClientKeyExchange(h, i)
    case ReadClientCertificateVerify => DoReadClientCertificateVerify(h, i)
    case ReadCcs => DoReadChangeCipherSpec(h, i)
    case ProcessChangeCipherSpec => DoProcessChangeCipherSpec(h, i)
    case ReadNextProto => DoReadNextProto(h, i)
    case ReadChannelId => DoReadChannelId(h, i)
    case ReadClientFinished => DoReadClientFinished(h, i)
    case SendServerFinished => DoSendServerFinished(h, i)
    case FinishServerHandshake => DoFinishServerHandshake(h, i)
    case StateDone => Outcome(h, Ok)
  }

  /**
    Where a state stands: its place in the order of the handshake, and whether the server has by
    then sent its Finished, switched its read keys, and accepted the client's Finished.
   */
  datatype Phase = Phase(rank: nat, sent: bool, read: bool, got: bool)

  function PhaseOf(s: State, resumed: bool): Phase {
    match s
    case StartAccept => Phase(20, false, false, false)
    case ReadClientHello => Phase(19, false, false, false)
    case SelectCertificate => Phase(18, false, false, false)
    case Tls13 => Phase(17, false, false, false)
    case SelectParameters => Phase(16, false, false, false)
    case SendServerHello => Phase(15, false, false, false)
    case SendServerCertificate => Phase(14, false, false, false)
    case SendServerKeyExchange => Phase(13, false, false, false)
    case SendServerHelloDone => Phase(12, false, false, false)
    case ReadClientCertificate => Phase(11, false, false, false)
    case VerifyClientCertificate => Phase(10, false, false, false)
    case ReadClientKeyExchange => Phase(9, false, false, false)
    case ReadClientCertificateVerify => Phase(8, false, false, false)
    case SendServerFinished => if resumed then Phase(8, false, false, false) else Phase(2, false, true, true)
    case ReadCcs => Phase(7, resumed, false, false)
    case ProcessChangeCipherSpec => Phase(6, resumed, false, false)
    case ReadNextProto => Phase(5, resumed, true, false)
    case ReadChannelId => Phase(4, resumed, true, false)
    case ReadClientFinished => Phase(3, resumed, true, false)
    case FinishServerHandshake => Phase(1, true, true, true)
    case StateDone => Phase(0, true, true, true)
  }

  function Rank(h: Server): nat {
    PhaseOf(h.state, h.terms.session).rank
  }

  // Safety.

  predicate KeysOk(p: Phase, f: Facts) {
    && f.writeKeys == f.sentFinished == (if p.sent then 1 else 0)
    && f.readKeys == (if p.read then 1 else 0)
    && f.gotFinished == (if p.got then 1 else 0)
    && (p.sent ==> f.Has(SentUnderNewKeys))
    && (p.read ==> f.Has(CcsRead))
    && (p.got ==> f.Has(GotUnderNewKeys))
  }

  /** Behind the client's certificate, if it sent one. */
  predicate AuthOk(rank: nat, terms: Terms, cfg: Config, f: Facts) {
    && (terms.peerKey <==> f.Has(CertRead))
    && (terms.peerKey ==> rank <= 10)
    && (terms.peerKey && rank <= 9 ==> f.Has(CertVerified))
    && (terms.peerKey && rank <= 7 ==> f.Has(CvVerified))
    && (terms.certRequest && cfg.failIfNoPeerCert && rank <= 10 ==> terms.peerKey)
  }

  /** Messages wait for a flush only where one is due or more are to come. */
  predicate FlushOk(h: Server, wait: Wait) {
    h.facts.Has(Unflushed) ==>
      || wait.Flush? || wait.Error?
      || h.state.SendServerCertificate? || h.state.SendServerKeyExchange? || h.state.SendServerHelloDone?
      || (h.state.SendServerFinished? && h.terms.session)
  }

  predicate Inv(h: Server, wait: Wait) {
    var p := PhaseOf(h.state, h.terms.session);
    (h.state.StateDone? ==> wait.Ok?) &&
    if h.terms.tls13 then
      h.state.SelectCertificate? || h.state.Tls13? || h.state.FinishServerHandshake? || h.state.StateDone?
    else
      && (wait.ReadChangeCipherSpec? ==> h.state.ProcessChangeCipherSpec?)
      && FlushOk(h, wait) && !h.state.Tls13?
      && (p.rank >= 16 ==> Fresh(h.facts) && !h.terms.session && !h.terms.peerKey && !h.facts.Has(Unflushed))
      && (p.rank <= 16 ==> h.terms.cipher.Cipher?)
      && KeysOk(p, h.facts)
      && (p.rank <= 15 ==>
            && (if h.terms.session then !h.terms.peerKey && !h.terms.certRequest && !h.facts.Has(CertRead)
                else AuthOk(p.rank, h.terms, h.cfg, h.facts))
            && (p.rank < 15 && !h.state.SendServerFinished? && p.rank >= 8 ==> !h.terms.session)
            && (h.state.ProcessChangeCipherSpec? ==> h.facts.Has(CcsRead) || wait.ReadChangeCipherSpec? || wait.Error?))
  }

  lemma StartInv(h: Server)
    requires Starts(h)
    ensures Inv(h, Ok)
  {
  }

  /** A step keeps the invariant; a state change lowers the rank, and without one there is something to wait for. */
  predicate Good(h: Server, r: Outcome) {
    && Inv(r.h, r.wait)
    && (r.h.state != h.state ==> Rank(r.h) < Rank(h))
    && (r.h.state == h.state ==> !r.wait.Ok? && r.h == h)
    && (Rank(h) < 16 ==> r.h.terms.session == h.terms.session)
  }

  lemma CipherKnown(h: Server)
    requires Inv(h, Ok)
    ensures NeedsCipher(h.state) ==> h.terms.cipher.Cipher?
  {
  }

  // The steps, a few states at a time.

  lemma StartGood(h: Server, i: Input)
    requires Inv(h, Ok) && (h.state.StartAccept? || h.state.SelectCertificate? || h.state.Tls13?)
    ensures Good(h, Step(h, i))
  {
  }

  lemma HelloGood(h: Server, i: Input)
    requires Inv(h, Ok) && h.state.ReadClientHello?
    ensures Good(h, Step(h, i))
  {
  }

  lemma ServerHelloGood(h: Server, i: Input)
    requires Inv(h, Ok) && (h.state.SelectParameters? || h.state.SendServerHello?)
    ensures Good(h, Step(h, i))
  {
  }

  lemma ServerParametersGood(h: Server, i: Input)
    requires Inv(h, Ok) && (h.state.SendServerCertificate? || h.state.SendServerKeyExchange?)
    ensures Good(h, Step(h, i))
  {
  }

  lemma ServerHelloDoneGood(h: Server, i: Input)
    requires Inv(h, Ok) && h.state.SendServerHelloDone?
    ensures Good(h, Step(h, i))
  {
  }

  lemma ClientCertificateGood(h: Server, i: Input)
    requires Inv(h, Ok) && h.state.ReadClientCertificate?
    ensures Good(h, Step(h, i))
  {
  }

  lemma VerifyGood(h: Server, i: Input)
    requires Inv(h, Ok) && h.state.VerifyClientCertificate?
    ensures Good(h, Step(h, i))
  {
  }

  lemma ClientKeysGood(h: Server, i: Input)
    requires Inv(h, Ok) && (h.state.ReadClientKeyExchange? || h.state.ReadClientCertificateVerify?)
    ensures Good(h, Step(h, i))
  {
  }

  lemma ChangeCipherSpecGood(h: Server, i: Input)
    requires Inv(h, Ok) && (h.state.ReadCcs? || h.state.ProcessChangeCipherSpec?)
    ensures Good(h, Step(h, i))
  {
  }

  lemma NextProtoGood(h: Server, i: Input)
    requires Inv(h, Ok) && h.state.ReadNextProto?
    ensures Good(h, Step(h, i))
  {
  }

  lemma ChannelIdGood(h: Server, i: Input)
    requires Inv(h, Ok) && h.state.ReadChannelId?
    ensures Good(h, Step(h, i))
  {
  }

  lemma ClientFinishedGood(h: Server, i: Input)
    requires Inv(h, Ok) && h.state.ReadClientFinished?
    ensures Good(h, Step(h, i))
  {
  }

  lemma ServerFinishedGood(h: Server, i: Input)
    requires Inv(h, Ok) && h.state.SendServerFinished?
    ensures Good(h, Step(h, i))
  {
  }

  lemma EndGood(h: Server, i: Input)
    requires Inv(h, Ok) && h.state.FinishServerHandshake?
    ensures Good(h, Step(h, i))
  {
  }

  lemma StepGood(h: Server, i: Input)
    requires Inv(h, Ok) && !h.state.StateDone?
    ensures NeedsCipher(h.state) ==> h.terms.cipher.Cipher?
    ensures Good(h, Step(h, i))
  {
    hide Inv, Good, Rank, Step;
    CipherKnown(h);
    match h.state
    case StartAccept | SelectCertificate | Tls13 => StartGood(h, i);
    case ReadClientHello => HelloGood(h, i);
    case SelectParameters | SendServerHello => ServerHelloGood(h, i);
    case SendServerCertificate | SendServerKeyExchange => ServerParametersGood(h, i);
    case SendServerHelloDone => ServerHelloDoneGood(h, i);
    case ReadClientCertificate => ClientCertificateGood(h, i);
    case VerifyClientCertificate => VerifyGood(h, i);
    case ReadClientKeyExchange | ReadClientCertificateVerify => ClientKeysGood(h, i);
    case ReadCcs | ProcessChangeCipherSpec => ChangeCipherSpecGood(h, i);
    case ReadNextProto => NextProtoGood(h, i);
    case ReadChannelId => ChannelIdGood(h, i);
    case ReadClientFinished => ClientFinishedGood(h, i);
    case SendServerFinished => ServerFinishedGood(h, i);
    case FinishServerHandshake => EndGood(h, i);
  }

  /**
    A server below TLS 1.3 is done only after it has sent one Finished, flushed, under new write
    keys, and accepted one that matched under new read keys; a client certificate was verified,
    and so was the CertificateVerify that goes with it, and where one was demanded there was one.
   */
  lemma DoneIsSafe(h: Server, wait: Wait)
    requires Inv(h, wait) && h.state.StateDone? && !h.terms.tls13
    ensures BothFinished(h.facts)
    ensures h.terms.peerKey <==> h.facts.Has(CertRead)
    ensures h.facts.Has(CertRead) ==> h.facts.Has(CertVerified) && h.facts.Has(CvVerified)
    ensures h.terms.certRequest && h.cfg.failIfNoPeerCert ==> h.terms.peerKey
  {
  }

  /** Before the session is settled the rank does not depend on it. */
  lemma EarlyRank(s: State, a: bool, b: bool)
    requires PhaseOf(s, a).rank >= 16
    ensures PhaseOf(s, a) == PhaseOf(s, b)
  {
  }

  lemma CcsRank(resumed: bool)
    ensures PhaseOf(ProcessChangeCipherSpec, resumed).rank <= 6
  {
  }

  /** What was waited for has come. */
  lemma ResumeInv(h: Server, wait: Wait)
    requires Inv(h, wait) && !wait.Error?
    ensures Inv(h.(facts := h.facts.Without(Unflushed)), wait)
    ensures wait.Flush? ==> Inv(h.(facts := h.facts.Without(Unflushed)), Ok)
    ensures wait.ReadChangeCipherSpec? ==> Inv(h.(facts := h.facts.With(CcsRead)), Ok)
    ensures !wait.Flush? && !wait.ReadChangeCipherSpec? ==> Inv(h, Ok)
  {
    hide PhaseOf;
    CcsRank(h.terms.session);
  }
}
