/** handshake_client.cc: the steps of the client below TLS 1.3. */
module HandshakeClient {
  import opened Bits
  import opened HandshakeCommon

  datatype State =
    | StartConnect | EnterEarlyData | ReadHelloVerifyRequest | ReadServerHelloState | Tls13 | ReadServerCertificate
    | ReadCertificateStatus | VerifyServerCertificate | ReadServerKeyExchange | ReadCertificateRequest
    | ReadServerHelloDone | SendClientCertificate | SendClientKeyExchange | SendClientCertificateVerify
    | SendClientFinished | FinishFlight | ReadSessionTicket | ProcessChangeCipherSpec | ReadServerFinished
    | FinishClientHandshake | StateDone

  /** What is settled before the handshake starts. */
  datatype Config = Config(dtls: bool, ssl3: bool, renegotiation: bool, earlyDataOffered: bool)

  /** What the two sides settle; `session` is ssl->session: the session offered, then the one resumed. */
  datatype Terms = Terms(session: bool, tls13: bool, cipher: Cipher, certStatusExpected: bool, ticketExpected: bool,
                         certRequest: bool, nextProtoSeen: bool, channelIdValid: bool)

  /** The fields of SSL_HANDSHAKE and SSL that the client's steps use. */
  datatype Client = Client(state: State, cfg: Config, terms: Terms, facts: Facts)

  datatype Outcome = Outcome(h: Client, wait: Wait)

  predicate Starts(h: Client) {
    h.state.StartConnect? && h.terms.cipher.NoCipher? && !h.terms.tls13 && !h.terms.certRequest && h.facts == NOTHING
  }

  function Go(h: Client, s: State): Outcome {
    Outcome(h.(state := s), Ok)
  }

  function DoStartConnect(h: Client, i: Input): Outcome {
    if !i.works then Outcome(h, Error)
    else
      var terms := h.terms.(session := h.terms.session && i.keepSession);
      Outcome(Client(EnterEarlyData, h.cfg, terms, Added(h.facts, ClientHello)), Flush)
  }

  function DoEnterEarlyData(h: Client, i: Input): Outcome {
    if h.cfg.dtls then Go(h, ReadHelloVerifyRequest)
    else if !h.cfg.earlyDataOffered then Go(h, ReadServerHelloState)
    else if !i.works then Outcome(h, Error)
    else Outcome(h.(state := ReadServerHelloState, facts := h.facts.With(Unflushed)), EarlyReturn)
  }

  function DoReadHelloVerifyRequest(h: Client, i: Input): Outcome {
    if i.msg.NoMessage? then Outcome(h, ReadMessage)
    else if i.msg != HelloVerifyRequest then Go(h, ReadServerHelloState)
    else if !i.parses || !i.works then Outcome(h, Error)
    else Outcome(h.(state := ReadServerHelloState, facts := Added(Read(h.facts, HelloVerifyRequest), ClientHello)), Flush)
  }

  function DoReadServerHello(h: Client, i: Input): Outcome {
    if i.msg.NoMessage? then Outcome(h, ReadServerHello)
    else if i.msg != ServerHello || !i.parses then Outcome(h, Error)
    else if i.hello.tls13 then Outcome(h.(state := Tls13, terms := h.terms.(tls13 := true)), Ok)
    else if h.cfg.earlyDataOffered then Outcome(h, Error)
    else if i.hello.cipher.NoCipher? || !i.works then Outcome(h, Error)
    else
      var resumed := !h.cfg.renegotiation && h.terms.session && i.hello.resumes;
      var terms := Terms(resumed, false, i.hello.cipher, i.hello.certStatusExpected, i.hello.ticketExpected, false,
                         i.hello.nextProto, i.hello.channelId);
      Go(h.(terms := terms, facts := Read(h.facts, ServerHello)), if resumed then ReadSessionTicket else ReadServerCertificate)
  }

  /** TLS 1.3 is a state machine of its own, which only reports what it waits for. */
  function DoTls13(h: Client, i: Input): Outcome {
    match i.callback
    case Done => Go(h, FinishClientHandshake)
    case Fails => Outcome(h, Error)
    case Later(wait) => if wait.Ok? then Go(h, FinishClientHandshake) else Outcome(h, wait)
  }

  function DoReadServerCertificate(h: Client, i: Input): Outcome {
    if !UsesCertificateAuth(h.terms.cipher) then Go(h, ReadCertificateStatus)
    else if i.msg.NoMessage? then Outcome(h, ReadMessage)
    else if i.msg != Certificate || !i.works then Outcome(h, Error)
    else if !i.parses || i.chainEmpty then Outcome(h, Error)
    else Go(h.(facts := Read(h.facts, Certificate).With(CertRead)), ReadCertificateStatus)
  }

  function DoReadCertificateStatus(h: Client, i: Input): Outcome {
    if !h.terms.certStatusExpected then Go(h, VerifyServerCertificate)
    else if i.msg.NoMessage? then Outcome(h, ReadMessage)
    else if i.msg != CertificateStatus then Go(h, VerifyServerCertificate)
    else if !i.works || !i.parses then Outcome(h, Error)
    else Go(h.(facts := Read(h.facts, CertificateStatus)), VerifyServerCertificate)
  }

  function DoVerifyServerCertificate(h: Client, i: Input): Outcome {
    if !UsesCertificateAuth(h.terms.cipher) then Go(h, ReadServerKeyExchange)
    else
      match i.callback
      case Fails => Outcome(h, Error)
      case Later(_) => Outcome(h, CertificateVerify)
      case Done => Go(h.(facts := h.facts.With(CertVerified)), ReadServerKeyExchange)
  }

  function DoReadServerKeyExchange(h: Client, i: Input): Outcome
    requires h.terms.cipher.Cipher?
  {
    var c := h.terms.cipher;
    if i.msg.NoMessage? then Outcome(h, ReadMessage)
    else if i.msg != ServerKeyExchange then
      if RequiresServerKeyExchange(c) then Outcome(h, Error) else Go(h, ReadCertificateRequest)
    else if !i.works || !i.parses then Outcome(h, Error)
    else if !c.mkey.Ecdhe? && !c.mkey.PskKey? then Outcome(h, Error)
    else if UsesCertificateAuth(c) && !i.matches then Outcome(h, Error)
    else
      var g := Read(h.facts, ServerKeyExchange).With(SkeRead);
      var f := if UsesCertificateAuth(c) then g.With(SkeSigned) else g;
      Go(h.(facts := f), ReadCertificateRequest)
  }

  function DoReadCertificateRequest(h: Client, i: Input): Outcome {
    if !UsesCertificateAuth(h.terms.cipher) then Go(h, ReadServerHelloDone)
    else if i.msg.NoMessage? then Outcome(h, ReadMessage)
    else if i.msg == ServerHelloDone then Go(h, ReadServerHelloDone)
    else if i.msg != CertificateRequest || !i.works || !i.parses then Outcome(h, Error)
    else Go(h.(terms := h.terms.(certRequest := true), facts := Read(h.facts, CertificateRequest)), ReadServerHelloDone)
  }

  function DoReadServerHelloDone(h: Client, i: Input): Outcome {
    if i.msg.NoMessage? then Outcome(h, ReadMessage)
    else if i.msg != ServerHelloDone || !i.works || !i.parses then Outcome(h, Error)
    else Go(h.(facts := Read(h.facts, ServerHelloDone)), SendClientCertificate)
  }

  function DoSendClientCertificate(h: Client, i: Input): Outcome {
    if !h.terms.certRequest then Go(h, SendClientKeyExchange)
    else
      match i.callback
      case Fails => Outcome(h, Error)
      case Later(_) => Outcome(h, X509Lookup)
      case Done =>
        // In SSL 3.0 a warning alert takes the place of an empty Certificate.
        if !i.works then Outcome(h, Error)
        else if !i.hasCertificate && h.cfg.ssl3 then Go(h.(facts := h.facts.With(Unflushed)), SendClientKeyExchange)
        else Go(h.(facts := Added(h.facts, Certificate)), SendClientKeyExchange)
  }

  function DoSendClientKeyExchange(h: Client, i: Input): Outcome {
    if !i.works then Outcome(h, Error)
    else Go(h.(facts := Added(h.facts, ClientKeyExchange)), SendClientCertificateVerify)
  }

  function DoSendClientCertificateVerify(h: Client, i: Input): Outcome {
    if !h.terms.certRequest || !i.hasCertificate then Go(h, SendClientFinished)
    else
      match i.callback
      case Fails => Outcome(h, Error)
      case Later(_) => if h.cfg.ssl3 then Outcome(h, Error) else Outcome(h, PrivateKeyOperation)
      case Done => if !i.works then Outcome(h, Error) else Go(h.(facts := Added(h.facts, CertVerify)), SendClientFinished)
  }

  function DoSendClientFinished(h: Client, i: Input): Outcome {
    if h.terms.channelIdValid && i.callback.Fails? then Outcome(h, Error)
    else if h.terms.channelIdValid && i.callback.Later? then Outcome(h, ChannelIdLookup)
    else if !i.works then Outcome(h, Error)
    else
      var f := AddedIf(AddedIf(NewWriteKeys(h.facts), h.terms.nextProtoSeen, NextProto), h.terms.channelIdValid, ChannelId);
      Outcome(h.(state := FinishFlight, facts := SendFinished(f)), Flush)
  }

  function DoFinishFlight(h: Client, i: Input): Outcome {
    if h.terms.session then Go(h, FinishClientHandshake)
    else if !i.recorded then Outcome(h, Error)
    else if i.falseStart && !h.cfg.dtls && !h.cfg.renegotiation then Outcome(h.(state := ReadSessionTicket), EarlyReturn)
    else Go(h, ReadSessionTicket)
  }

  function DoReadSessionTicket(h: Client, i: Input): Outcome {
    if !h.terms.ticketExpected then Outcome(h.(state := ProcessChangeCipherSpec), ReadChangeCipherSpec)
    else if i.msg.NoMessage? then Outcome(h, ReadMessage)
    else if i.msg != NewSessionTicket || !i.works || !i.parses then Outcome(h, Error)
    else
      var terms := if i.ticketEmpty then h.terms.(ticketExpected := false) else h.terms;
      Outcome(h.(state := ProcessChangeCipherSpec, terms := terms, facts := Read(h.facts, NewSessionTicket)), ReadChangeCipherSpec)
  }

  function DoProcessChangeCipherSpec(h: Client, i: Input): Outcome {
    if !i.works then Outcome(h, Error) else Go(h.(facts := NewReadKeys(h.facts)), ReadServerFinished)
  }

  function DoReadServerFinished(h: Client, i: Input): Outcome {
    var wait := GetFinished(i);
    if !wait.Ok? then Outcome(h, wait)
    else Go(h.(facts := GotFinished(h.facts)), if h.terms.session then SendClientFinished else FinishClientHandshake)
  }

  function DoFinishClientHandshake(h: Client, i: Input): Outcome {
    if !h.terms.session && !i.works then Outcome(h, Error) else Go(h, StateDone)
  }

  /** The switch of ssl_client_handshake. */
  function Step(h: Client, i: Input): Outcome
    requires h.state.ReadServerKeyExchange? ==> h.terms.cipher.Cipher?
  {
    match h.state
    case StartConnect => DoStartConnect(h, i)
    case EnterEarlyData => DoEnterEarlyData(h, i)
    case ReadHelloVerifyRequest => DoReadHelloVerifyRequest(h, i)
    case ReadServerHelloState => DoReadServerHello(h, i)
    case Tls13 => DoTls13(h, i)
    case ReadServerCertificate => DoReadServerCertificate(h, i)
    case ReadCertificateStatus => DoReadCertificateStatus(h, i)
    case VerifyServerCertificate => DoVerifyServerCertificate(h, i)
    case ReadServerKeyExchange => DoReadServerKeyExchange(h, i)
    case ReadCertificateRequest => DoReadCertificateRequest(h, i)
    case ReadServerHelloDone => DoReadServerHelloDone(h, i)
    case SendClientCertificate => DoSendClientCertificate(h, i)
    case SendClientKeyExchange => DoSendClientKeyExchange(h, i)
    case SendClientCertificateVerify => DoSendClientCertificateVerify(h, i)
    case SendClientFinished => DoSendClientFinished(h, i)
    case FinishFlight => DoFinishFlight(h, i)
    case ReadSessionTicket => DoReadSessionTicket(h, i)
    case ProcessChangeCipherSpec => DoProcessChangeCipherSpec(h, i)
    case ReadServerFinished => DoReadServerFinished(h, i)
    case FinishClientHandshake => DoFinishClientHandshake(h, i)
    case StateDone => Outcome(h, Ok)
  }

  /**
    Where a state stands: its place in the order of the handshake, and whether the client has by
    then sent its Finished, switched its read keys, and accepted the server's Finished. The full
    and the abbreviated handshake go through the later states in different orders.
   */
  datatype Phase = Phase(rank: nat, sent: bool, read: bool, got: bool)

  function PhaseOf(s: State, resumed: bool): Phase {
    match s
    case StartConnect => Phase(22, false, false, false)
    case EnterEarlyData => Phase(21, false, false, false)
    case ReadHelloVerifyRequest => Phase(20, false, false, false)
    case ReadServerHelloState => Phase(19, false, false, false)
    case Tls13 => Phase(18, false, false, false)
    case ReadServerCertificate => Phase(17, false, false, false)
    case ReadCertificateStatus => Phase(16, false, false, false)
    case VerifyServerCertificate => Phase(15, false, false, false)
    case ReadServerKeyExchange => Phase(14, false, false, false)
    case ReadCertificateRequest => Phase(13, false, false, false)
    case ReadServerHelloDone => Phase(12, false, false, false)
    case SendClientCertificate => Phase(11, false, false, false)
    case SendClientKeyExchange => Phase(10, false, false, false)
    case SendClientCertificateVerify => Phase(9, false, false, false)
    case SendClientFinished => if resumed then Phase(4, false, true, true) else Phase(8, false, false, false)
    case FinishFlight => if resumed then Phase(3, true, true, true) else Phase(7, true, false, false)
    case ReadSessionTicket => if resumed then Phase(7, false, false, false) else Phase(6, true, false, false)
    case ProcessChangeCipherSpec => if resumed then Phase(6, false, false, false) else Phase(5, true, false, false)
    case ReadServerFinished => if resumed then Phase(5, false, true, false) else Phase(4, true, true, false)
    case FinishClientHandshake => Phase(1, true, true, true)
    case StateDone => Phase(0, true, true, true)
  }

  function Rank(h: Client): nat {
    PhaseOf(h.state, h.terms.session).rank
  }

  // Safety.

  predicate KeysOk(p: Phase, f: Facts) {
    && f.writeKeys == f.sentFinished == (if p.sent then 1 else 0)
    && f.readKeys == (if p.read then 1 else 0)
    && f.gotFinished == (if p.got then 1 else 0)
    && (p.sent ==> f.Has(SentUnderNewKeys))
    && (p.read ==> f.Has(CcsRead))
    && (p.got ==> f.Has(GotUnderNewKeys))
  }

  /** Behind the server's certificate and ServerKeyExchange in a full handshake. */
  predicate AuthOk(rank: nat, cipher: Cipher, f: Facts) {
    && (UsesCertificateAuth(cipher) && rank <= 16 ==> f.Has(CertRead))
    && (UsesCertificateAuth(cipher) && rank <= 14 ==> f.Has(CertVerified))
    && (UsesCertificateAuth(cipher) && f.Has(SkeRead) ==> f.Has(SkeSigned))
    && (RequiresServerKeyExchange(cipher) && rank <= 13 ==> f.Has(SkeRead))
    && (rank >= 14 ==> !f.Has(SkeRead))
  }

  /** Messages wait for a flush only where one is due or more are to come. */
  predicate FlushOk(h: Client, wait: Wait) {
    h.facts.Has(Unflushed) ==>
      || wait.Flush? || wait.Error?
      || h.state.SendClientKeyExchange? || h.state.SendClientCertificateVerify?
      || (h.state.SendClientFinished? && !h.terms.session)
      || (h.state.ReadServerHelloState? && h.cfg.earlyDataOffered)
  }

  predicate Inv(h: Client, wait: Wait) {
    var p := PhaseOf(h.state, h.terms.session);
    (h.state.StateDone? ==> wait.Ok?) &&
    if h.terms.tls13 then h.state.Tls13? || h.state.FinishClientHandshake? || h.state.StateDone?
    else
      && (wait.ReadChangeCipherSpec? ==> h.state.ProcessChangeCipherSpec?)
      && FlushOk(h, wait)
      && (p.rank >= 19 ==> Fresh(h.facts))
      && (p.rank < 19 ==>
            && h.terms.cipher.Cipher? && !h.state.Tls13? && !h.cfg.earlyDataOffered
            && KeysOk(p, h.facts)
            && (!h.terms.session ==> AuthOk(p.rank, h.terms.cipher, h.facts))
            && (p.rank >= 9 ==> !h.terms.session)
            && (h.state.ProcessChangeCipherSpec? ==> h.facts.Has(CcsRead) || wait.ReadChangeCipherSpec? || wait.Error?))
  }

  lemma StartInv(h: Client)
    requires Starts(h)
    ensures Inv(h, Ok)
  {
  }

  /** A step keeps the invariant; a state change lowers the rank, and without one there is something to wait for. */
  predicate Good(h: Client, r: Outcome) {
    && Inv(r.h, r.wait)
    && (r.h.state != h.state ==> Rank(r.h) < Rank(h))
    && (r.h.state == h.state ==> !r.wait.Ok? && r.h == h)
    && (Rank(h) < 19 ==> r.h.terms.session == h.terms.session)
  }

  lemma CipherKnown(h: Client)
    requires Inv(h, Ok)
    ensures h.state.ReadServerKeyExchange? ==> h.terms.cipher.Cipher?
  {
  }

  // The steps, a few states at a time.

  lemma HelloGood(h: Client, i: Input)
    requires Inv(h, Ok) && (h.state.StartConnect? || h.state.EnterEarlyData? || h.state.ReadHelloVerifyRequest? || h.state.Tls13?)
    ensures Good(h, Step(h, i))
  {
  }

  lemma ServerHelloGood(h: Client, i: Input)
    requires Inv(h, Ok) && h.state.ReadServerHelloState?
    ensures Good(h, Step(h, i))
  {
  }

  lemma CertificateGood(h: Client, i: Input)
    requires Inv(h, Ok) && h.state.ReadServerCertificate?
    ensures Good(h, Step(h, i))
  {
  }

  lemma CertificateStatusGood(h: Client, i: Input)
    requires Inv(h, Ok) && h.state.ReadCertificateStatus?
    ensures Good(h, Step(h, i))
  {
  }

  lemma VerifyGood(h: Client, i: Input)
    requires Inv(h, Ok) && h.state.VerifyServerCertificate?
    ensures Good(h, Step(h, i))
  {
  }

  lemma ServerKeyExchangeGood(h: Client, i: Input)
    requires Inv(h, Ok) && h.state.ReadServerKeyExchange?
    ensures Good(h, Step(h, i))
  {
  }

  lemma CertificateRequestGood(h: Client, i: Input)
    requires Inv(h, Ok) && h.state.ReadCertificateRequest?
    ensures Good(h, Step(h, i))
  {
  }

  lemma ServerHelloDoneGood(h: Client, i: Input)
    requires Inv(h, Ok) && h.state.ReadServerHelloDone?
    ensures Good(h, Step(h, i))
  {
  }

  lemma ClientCertificateGood(h: Client, i: Input)
    requires Inv(h, Ok) && h.state.SendClientCertificate?
    ensures Good(h, Step(h, i))
  {
  }

  lemma ClientKeysGood(h: Client, i: Input)
    requires Inv(h, Ok) && (h.state.SendClientKeyExchange? || h.state.SendClientCertificateVerify?)
    ensures Good(h, Step(h, i))
  {
  }

  lemma ClientFinishedGood(h: Client, i: Input)
    requires Inv(h, Ok) && h.state.SendClientFinished?
    ensures Good(h, Step(h, i))
  {
  }

  lemma FinishFlightGood(h: Client, i: Input)
    requires Inv(h, Ok) && h.state.FinishFlight?
    ensures Good(h, Step(h, i))
  {
  }

  lemma SessionTicketGood(h: Client, i: Input)
    requires Inv(h, Ok) && h.state.ReadSessionTicket?
    ensures Good(h, Step(h, i))
  {
  }

  lemma ServerKeysGood(h: Client, i: Input)
    requires Inv(h, Ok) && h.state.ProcessChangeCipherSpec?
    ensures Good(h, Step(h, i))
  {
  }

  lemma ServerFinishedGood(h: Client, i: Input)
    requires Inv(h, Ok) && h.state.ReadServerFinished?
    ensures Good(h, Step(h, i))
  {
  }

  lemma EndGood(h: Client, i: Input)
    requires Inv(h, Ok) && h.state.FinishClientHandshake?
    ensures Good(h, Step(h, i))
  {
  }

  lemma StepGood(h: Client, i: Input)
    requires Inv(h, Ok) && !h.state.StateDone?
    ensures h.state.ReadServerKeyExchange? ==> h.terms.cipher.Cipher?
    ensures Good(h, Step(h, i))
  {
    hide Inv, Good, Rank, Step;
    CipherKnown(h);
    match h.state
    case StartConnect | EnterEarlyData | ReadHelloVerifyRequest | Tls13 => HelloGood(h, i);
    case ReadServerHelloState => ServerHelloGood(h, i);
    case ReadServerCertificate => CertificateGood(h, i);
    case ReadCertificateStatus => CertificateStatusGood(h, i);
    case VerifyServerCertificate => VerifyGood(h, i);
    case ReadServerKeyExchange => ServerKeyExchangeGood(h, i);
    case ReadCertificateRequest => CertificateRequestGood(h, i);
    case ReadServerHelloDone => ServerHelloDoneGood(h, i);
    case SendClientCertificate => ClientCertificateGood(h, i);
    case SendClientKeyExchange | SendClientCertificateVerify => ClientKeysGood(h, i);
    case SendClientFinished => ClientFinishedGood(h, i);
    case FinishFlight => FinishFlightGood(h, i);
    case ReadSessionTicket => SessionTicketGood(h, i);
    case ProcessChangeCipherSpec => ServerKeysGood(h, i);
    case ReadServerFinished => ServerFinishedGood(h, i);
    case FinishClientHandshake => EndGood(h, i);
  }

  /**
    A client below TLS 1.3 is done only after it has sent one Finished, flushed, under new write
    keys, and accepted one that matched under new read keys; in a full handshake with a
    certificate cipher the certificate was verified, and so was the signature of any
    ServerKeyExchange.
   */
  lemma DoneIsSafe(h: Client, wait: Wait)
    requires Inv(h, wait) && h.state.StateDone? && !h.terms.tls13
    ensures BothFinished(h.facts)
    ensures !h.terms.session && UsesCertificateAuth(h.terms.cipher) ==> h.facts.Has(CertRead) && h.facts.Has(CertVerified)
    ensures !h.terms.session && UsesCertificateAuth(h.terms.cipher) && h.facts.Has(SkeRead) ==> h.facts.Has(SkeSigned)
    ensures h.terms.cipher.Cipher? && (!h.terms.session && RequiresServerKeyExchange(h.terms.cipher) ==> h.facts.Has(SkeRead))
  {
  }

  /** Before the session is settled the rank does not depend on it. */
  lemma EarlyRank(s: State, a: bool, b: bool)
    requires PhaseOf(s, a).rank >= 19
    ensures PhaseOf(s, a) == PhaseOf(s, b)
  {
  }

  lemma CcsRank(resumed: bool)
    ensures PhaseOf(ProcessChangeCipherSpec, resumed).rank <= 6
  {
  }

  /** What was waited for has come. */
  lemma ResumeInv(h: Client, wait: Wait)
    requires Inv(h, wait) && !wait.Error?
    ensures Inv(h.(facts := h.facts.Without(Unflushed)), wait)
    ensures wait.Flush? ==> Inv(h.(facts := h.facts.Without(Unflushed)), Ok)
    ensures wait.ReadChangeCipherSpec? ==> Inv(h.(facts := h.facts.With(CcsRead)), Ok)
    ensures !wait.Flush? && !wait.ReadChangeCipherSpec? ==> Inv(h, Ok)
  {
    hide PhaseOf;
    CcsRank(h.terms.session);
  }
}
