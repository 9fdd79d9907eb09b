/**
  What the client and server handshakes share: what they wait for, the answers of their
  environment, and the facts about a run that the state machines themselves do not store.
  Certificates, keys, hashes and extensions appear only as the success or failure of the
  operations on them.
 */
module HandshakeCommon {
  import opened Bits

  /** enum ssl_hs_wait_t. */
  datatype Wait =
    | Error | Ok | ReadServerHello | ReadMessage | Flush | CertificateSelectionPending | Handoff | X509Lookup
    | ChannelIdLookup | PrivateKeyOperation | PendingSession | PendingTicket | EarlyReturn | EarlyDataRejected
    | ReadEndOfEarlyData | ReadChangeCipherSpec | CertificateVerify

  datatype MsgType =
    | HelloVerifyRequest | ClientHello | ServerHello | Certificate | CertificateStatus | ServerKeyExchange
    | CertificateRequest | ServerHelloDone | ClientKeyExchange | CertVerify | NextProto | ChannelId
    | NewSessionTicket | Finished | OtherMessage | NoMessage

  datatype Mkey = RsaKey | Ecdhe | PskKey
  datatype Auth = CertAuth | PskAuth

  /** hs->new_cipher; null until the hello settles it. */
  datatype Cipher = NoCipher | Cipher(mkey: Mkey, auth: Auth)

  predicate UsesCertificateAuth(c: Cipher) { c.Cipher? && c.auth.CertAuth? }

  predicate RequiresServerKeyExchange(c: Cipher) { c.Cipher? && c.mkey.Ecdhe? }

  /** A callback or an asynchronous operation. */
  datatype Callback = Done | Fails | Later(wait: Wait)

  /** What a ClientHello or ServerHello and the checks on it settle. */
  datatype Hello = Hello(tls13: bool, resumes: bool, cipher: Cipher, ticketExpected: bool,
                         certStatusExpected: bool, nextProto: bool, channelId: bool, certRequest: bool)

  /** The answers a step may ask for. */
  datatype Input = Input(
    msg: MsgType,            // get_message: the current message, once it is complete
    parses: bool,            // it decodes, and passes every check on its contents
    works: bool,             // hashing, deriving, assembling and adding messages succeed
    callback: Callback,      // the callback or private key operation of the step
    matches: bool,           // the Finished message equals the MAC, or the signature verifies
    hasCertificate: bool,    // ssl_has_certificate
    chainEmpty: bool,        // the certificate list received is empty
    ticketEmpty: bool,       // the ticket received is empty
    recorded: bool,          // tls1_record_handshake_hashes_for_channel_id succeeds
    falseStart: bool,        // False Start is enabled and possible
    hello: Hello,
    keepSession: bool)       // the offered session is still good, or the resumed one recorded its Channel ID hash

  /** Something that is so, or has happened. */
  datatype Mark =
    | Unflushed          // messages were added since the last flush that finished
    | SentUnderNewKeys   // the write keys were new when Finished was sent
    | CcsRead            // the peer's ChangeCipherSpec arrived
    | GotUnderNewKeys    // the read keys were new when the peer's Finished was accepted
    | CertRead           // the peer sent a certificate
    | CertVerified       // ssl_verify_peer_cert accepted it
    | SkeRead            // a ServerKeyExchange was accepted
    | SkeSigned          // its signature verified
    | CvVerified         // the client's CertificateVerify verified

  /**
    What has happened in a run: key changes (tls1_change_cipher_state), Finished messages, marks, and
    the messages added to a flight (add_message) and done with (next_message), in order.
   */
  datatype Facts = Facts(writeKeys: nat, readKeys: nat, sentFinished: nat, gotFinished: nat, marks: set<Mark>,
                         sent: seq<MsgType>, read: seq<MsgType>) {
    predicate Has(m: Mark) {
      m in marks
    }

    function With(m: Mark): Facts {
      this.(marks := marks + {m})
    }

    function Without(m: Mark): Facts {
      this.(marks := marks - {m})
    }
  }

  const NOTHING: Facts := Facts(0, 0, 0, 0, {}, [], [])

  /** No keys were changed and nothing was read. */
  predicate Fresh(f: Facts) {
    f.writeKeys == f.readKeys == f.sentFinished == f.gotFinished == 0 && forall m :: m in f.marks ==> m == Unflushed
  }

  /** A message was added to the flight. */
  function Added(f: Facts, m: MsgType): Facts {
    f.With(Unflushed).(sent := f.sent + [m])
  }

  function AddedIf(f: Facts, present: bool, m: MsgType): Facts {
    if present then Added(f, m) else f
  }

  /** next_message. */
  function Read(f: Facts, m: MsgType): Facts {
    f.(read := f.read + [m])
  }

  /** tls1_change_cipher_state for sealing. */
  function NewWriteKeys(f: Facts): Facts {
    f.(writeKeys := f.writeKeys + 1)
  }

  function NewReadKeys(f: Facts): Facts {
    f.(readKeys := f.readKeys + 1)
  }

  /** ssl_send_finished. */
  function SendFinished(f: Facts): Facts {
    var g := Added(f.(sentFinished := f.sentFinished + 1), Finished);
    if f.writeKeys > 0 then g.With(SentUnderNewKeys) else g.Without(SentUnderNewKeys)
  }

  /** ssl_get_finished. */
  function GetFinished(i: Input): Wait {
    if i.msg.NoMessage? then ReadMessage
    else if !i.msg.Finished? then Error
    else if !i.works then Error
    else if !i.matches then Error
    else Ok
  }

  /** The facts after ssl_get_finished has succeeded. */
  function GotFinished(f: Facts): Facts {
    var g := Read(f.(gotFinished := f.gotFinished + 1), Finished);
    if f.readKeys > 0 then g.With(GotUnderNewKeys) else g.Without(GotUnderNewKeys)
  }

  /** What a finished handshake below TLS 1.3 has been through, whichever side and order. */
  predicate BothFinished(f: Facts) {
    && f.sentFinished == 1 && f.writeKeys == 1 && f.Has(SentUnderNewKeys) && !f.Has(Unflushed)
    && f.gotFinished == 1 && f.readKeys == 1 && f.Has(GotUnderNewKeys) && f.Has(CcsRead)
  }
}
