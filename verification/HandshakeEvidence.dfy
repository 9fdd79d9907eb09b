/**
  What the facts of a handshake rest on: every mark goes back to an event of the run, in the
  state that handles it, with the input that justifies it.
 */
module HandshakeEvidence {
  import opened Bits
  import opened HandshakeCommon
  import opened Handshake
  import C = HandshakeClient
  import S = HandshakeServer

  /** In state `h` of the client, input `i` establishes `m`. */
  predicate ClientProves(h: C.Client, i: Input, m: Mark) {
    match m
    case CertRead =>
      h.state.ReadServerCertificate? && i.msg == Certificate && i.works && i.parses && !i.chainEmpty
    case CertVerified => h.state.VerifyServerCertificate? && i.callback.Done?
    case SkeRead => h.state.ReadServerKeyExchange? && i.msg == ServerKeyExchange && i.works && i.parses
    case SkeSigned =>
      h.state.ReadServerKeyExchange? && i.msg == ServerKeyExchange && i.works && i.parses && i.matches
    case SentUnderNewKeys => h.state.SendClientFinished? && i.works
    case GotUnderNewKeys =>
      h.state.ReadServerFinished? && i.msg == Finished && i.works && i.matches && h.facts.readKeys > 0
    case _ => false
  }

  predicate ServerProves(h: S.Server, i: Input, m: Mark) {
    match m
    case CertRead =>
      h.state.ReadClientCertificate? && h.terms.certRequest && i.msg == Certificate && i.works && i.parses && !i.chainEmpty
    case CertVerified => h.state.VerifyClientCertificate? && i.callback.Done?
    case CvVerified =>
      h.state.ReadClientCertificateVerify? && i.msg == CertVerify && i.works && i.parses && i.matches
    case SentUnderNewKeys => h.state.SendServerFinished? && i.works
    case GotUnderNewKeys =>
      h.state.ReadClientFinished? && i.msg == Finished && i.works && i.matches && h.facts.readKeys > 0
    case _ => false
  }

  /** Event `e` establishes `m`; a ChangeCipherSpec is the record that was waited for. */
  predicate Proves(w: Result, e: Event, m: Mark) {
    match e
    case Resolve(io) => m.CcsRead? && w.wait.ReadChangeCipherSpec? && io.Opened?
    case Step(i) =>
      w.wait.Ok? && match w.h case ClientHs(c) => ClientProves(c, i, m) case ServerHs(s) => ServerProves(s, i, m)
  }

  /** Event `k` of the run establishes `m`. */
  predicate ProvesAt(w: Result, trace: seq<Event>, k: nat, m: Mark)
    requires Inv(w) && k < |trace|
  {
    Proves(Replay(w, trace[..k]), trace[k], m)
  }

  predicate Witnessed(w: Result, trace: seq<Event>, m: Mark)
    requires Inv(w)
  {
    exists k: nat :: k < |trace| && ProvesAt(w, trace, k, m)
  }

  /** The steps that leave all marks but the flush as they are. */
  lemma ClientQuiet(h: C.Client, i: Input, m: Mark)
    requires h.state.ReadServerKeyExchange? ==> h.terms.cipher.Cipher?
    requires !h.state.ReadServerCertificate? && !h.state.VerifyServerCertificate? && !h.state.ReadServerKeyExchange?
    requires !h.state.SendClientFinished? && !h.state.ReadServerFinished?
    requires !m.Unflushed? && C.Step(h, i).h.facts.Has(m)
    ensures h.facts.Has(m)
  {
  }

  lemma ClientMark(h: C.Client, i: Input, m: Mark)
    requires h.state.ReadServerKeyExchange? ==> h.terms.cipher.Cipher?
    requires !m.Unflushed? && !h.facts.Has(m) && C.Step(h, i).h.facts.Has(m)
    ensures ClientProves(h, i, m)
  {
    hide C.Step;
    match h.state {
      case ReadServerCertificate => ClientSwitch(h, i);
      case VerifyServerCertificate => ClientSwitch(h, i);
      case ReadServerKeyExchange => ClientSwitch(h, i);
      case SendClientFinished => ClientSwitch(h, i);
      case ReadServerFinished => ClientSwitch(h, i);
      case _ => ClientQuiet(h, i, m);
    }
  }

  lemma ClientSwitch(h: C.Client, i: Input)
    requires h.state.ReadServerKeyExchange? ==> h.terms.cipher.Cipher?
    ensures h.state.ReadServerCertificate? ==> C.Step(h, i) == C.DoReadServerCertificate(h, i)
    ensures h.state.VerifyServerCertificate? ==> C.Step(h, i) == C.DoVerifyServerCertificate(h, i)
    ensures h.state.ReadServerKeyExchange? ==> C.Step(h, i) == C.DoReadServerKeyExchange(h, i)
    ensures h.state.SendClientFinished? ==> C.Step(h, i) == C.DoSendClientFinished(h, i)
    ensures h.state.ReadServerFinished? ==> C.Step(h, i) == C.DoReadServerFinished(h, i)
  {
  }

  lemma ServerQuiet(h: S.Server, i: Input, m: Mark)
    requires S.NeedsCipher(h.state) ==> h.terms.cipher.Cipher?
    requires !h.state.ReadClientCertificate? && !h.state.VerifyClientCertificate? && !h.state.ReadClientCertificateVerify?
    requires !h.state.SendServerFinished? && !h.state.ReadClientFinished? && !m.Unflushed?
    ensures S.Step(h, i).h.facts.Has(m) <==> h.facts.Has(m)
  {
  }

  lemma ServerMark(h: S.Server, i: Input, m: Mark)
    requires S.NeedsCipher(h.state) ==> h.terms.cipher.Cipher?
    requires !m.Unflushed? && !h.facts.Has(m) && S.Step(h, i).h.facts.Has(m)
    ensures ServerProves(h, i, m)
  {
    hide S.Step;
    match h.state {
      case ReadClientCertificate => ServerSwitch(h, i);
      case VerifyClientCertificate => ServerSwitch(h, i);
      case ReadClientCertificateVerify => ServerSwitch(h, i);
      case SendServerFinished => ServerSwitch(h, i);
      case ReadClientFinished => ServerSwitch(h, i);
      case _ => ServerQuiet(h, i, m);
    }
  }

  lemma ServerSwitch(h: S.Server, i: Input)
    requires S.NeedsCipher(h.state) ==> h.terms.cipher.Cipher?
    ensures h.state.ReadClientCertificate? ==> S.Step(h, i) == S.DoReadClientCertificate(h, i)
    ensures h.state.VerifyClientCertificate? ==> S.Step(h, i) == S.DoVerifyClientCertificate(h, i)
    ensures h.state.ReadClientCertificateVerify? ==> S.Step(h, i) == S.DoReadClientCertificateVerify(h, i)
    ensures h.state.SendServerFinished? ==> S.Step(h, i) == S.DoSendServerFinished(h, i)
    ensures h.state.ReadClientFinished? ==> S.Step(h, i) == S.DoReadClientFinished(h, i)
  {
  }

  /** A mark appears only with the event that establishes it. */
  lemma MarkComesFrom(w: Result, e: Event, m: Mark)
    requires Inv(w) && !m.Unflushed? && !FactsOf(w.h).Has(m) && FactsOf(Next(w, e).h).Has(m)
    ensures Proves(w, e, m)
  {
    hide C.Inv, S.Inv, C.Step, S.Step, ClientProves, ServerProves;
    if e.Step? && w.wait.Ok? && !IsDone(w.h) {
      match w.h
      case ClientHs(c) =>
        C.StepGood(c, e.i);
        ClientMark(c, e.i, m);
      case ServerHs(s) =>
        S.StepGood(s, e.i);
        ServerMark(s, e.i, m);
    }
  }

  lemma {:induction false} MarkWitnessed(w: Result, trace: seq<Event>, m: Mark)
    requires Inv(w) && !m.Unflushed? && !FactsOf(w.h).Has(m) && FactsOf(Replay(w, trace).h).Has(m)
    ensures Witnessed(w, trace, m)
    decreases |trace|
  {
    hide Inv, Next, Proves;
    var k: nat := |trace| - 1;
    var before := Replay(w, trace[..k]);
    if FactsOf(before.h).Has(m) {
      MarkWitnessed(w, trace[..k], m);
      WitnessedLonger(w, trace, k, m);
    } else {
      MarkComesFrom(before, trace[k], m);
      assert ProvesAt(w, trace, k, m);
    }
  }

  lemma WitnessedLonger(w: Result, trace: seq<Event>, n: nat, m: Mark)
    requires Inv(w) && n <= |trace| && Witnessed(w, trace[..n], m)
    ensures Witnessed(w, trace, m)
  {
    hide Inv, Replay, Proves;
    var k: nat :| k < n && ProvesAt(w, trace[..n], k, m);
    assert trace[..n][..k] == trace[..k];
    assert ProvesAt(w, trace, k, m);
  }

  /** A Finished is accepted only in a state behind the peer's ChangeCipherSpec. */
  lemma FinishedAfterCcs(w: Result, e: Event)
    requires Inv(w) && Proves(w, e, GotUnderNewKeys)
    ensures FactsOf(w.h).Has(CcsRead)
  {
  }

  /** In the run, the peer's Finished matched, and its ChangeCipherSpec had come before. */
  predicate FinishedInOrder(w: Result, trace: seq<Event>)
    requires Inv(w)
  {
    exists k: nat :: k < |trace| && ProvesAt(w, trace, k, GotUnderNewKeys) && Witnessed(w, trace[..k], CcsRead)
  }

  lemma OrderHolds(w: Result, trace: seq<Event>)
    requires Inv(w) && !FactsOf(w.h).Has(CcsRead) && Witnessed(w, trace, GotUnderNewKeys)
    ensures FinishedInOrder(w, trace)
  {
    hide Inv, Replay, Proves, Witnessed;
    var k := WitnessIs(w, trace, GotUnderNewKeys);
    AcceptedAfterCcs(w, trace, k);
    MarkWitnessed(w, trace[..k], CcsRead);
  }

  lemma AcceptedAfterCcs(w: Result, trace: seq<Event>, k: nat)
    requires Inv(w) && k < |trace| && ProvesAt(w, trace, k, GotUnderNewKeys)
    ensures FactsOf(Replay(w, trace[..k]).h).Has(CcsRead)
  {
    hide Inv, Replay, Proves;
    FinishedAfterCcs(Replay(w, trace[..k]), trace[k]);
  }

  lemma WitnessIs(w: Result, trace: seq<Event>, m: Mark) returns (k: nat)
    requires Inv(w) && Witnessed(w, trace, m)
    ensures k < |trace| && ProvesAt(w, trace, k, m)
  {
    hide Inv, Replay, Proves;
    k :| k < |trace| && ProvesAt(w, trace, k, m);
  }

  lemma ServerKeepsCert(h: S.Server, i: Input)
    requires S.NeedsCipher(h.state) ==> h.terms.cipher.Cipher?
    ensures h.facts.Has(CertRead) ==> S.Step(h, i).h.facts.Has(CertRead)
  {
    hide S.Step;
    match h.state {
      case ReadClientCertificate => ServerSwitch(h, i);
      case VerifyClientCertificate => ServerSwitch(h, i);
      case ReadClientCertificateVerify => ServerSwitch(h, i);
      case SendServerFinished => ServerSwitch(h, i);
      case ReadClientFinished => ServerSwitch(h, i);
      case _ => ServerQuiet(h, i, CertRead);
    }
  }

  /** Once the server has read a certificate, the run keeps to it. */
  lemma CertIsKept(w: Result, e: Event)
    requires Inv(w) && w.h.ServerHs? && (FactsOf(w.h).Has(CertRead) || Proves(w, e, CertRead))
    ensures FactsOf(Next(w, e).h).Has(CertRead)
  {
    hide S.Inv, S.Step;
    if e.Step? && w.wait.Ok? && !IsDone(w.h) {
      S.StepGood(w.h.s, e.i);
      ServerKeepsCert(w.h.s, e.i);
      ServerSwitch(w.h.s, e.i);
    }
  }

  lemma {:induction false} CertStays(w: Result, trace: seq<Event>)
    requires Inv(w) && w.h.ServerHs? && (FactsOf(w.h).Has(CertRead) || Witnessed(w, trace, CertRead))
    ensures FactsOf(Replay(w, trace).h).Has(CertRead)
    decreases |trace|
  {
    hide Inv, Next, Proves, Witnessed;
    if trace == [] {
      if !FactsOf(w.h).Has(CertRead) { var k := WitnessIs(w, trace, CertRead); }
    } else {
      var n: nat := |trace| - 1;
      RunDescends(w, trace[..n]);
      if FactsOf(w.h).Has(CertRead) || Witnessed(w, trace[..n], CertRead) {
        CertStays(w, trace[..n]);
      } else {
        var k := WitnessIs(w, trace, CertRead);
        if k < n { WitnessEarlier(w, trace, n, k, CertRead); }
      }
      CertIsKept(Replay(w, trace[..n]), trace[n]);
    }
  }

  lemma WitnessEarlier(w: Result, trace: seq<Event>, n: nat, k: nat, m: Mark)
    requires Inv(w) && k < n <= |trace| && ProvesAt(w, trace, k, m)
    ensures Witnessed(w, trace[..n], m)
  {
    hide Inv, Replay, Proves;
    assert trace[..n][..k] == trace[..k];
    assert ProvesAt(w, trace[..n], k, m);
  }

  /** What a finished client has seen of the server, in events of the run. */
  predicate ClientEvidence(w: Result, trace: seq<Event>, terms: C.Terms)
    requires Inv(w)
  {
    !terms.session ==>
      && (UsesCertificateAuth(terms.cipher) ==> Witnessed(w, trace, CertRead) && Witnessed(w, trace, CertVerified))
      && (RequiresServerKeyExchange(terms.cipher) ==> Witnessed(w, trace, SkeRead))
      && (RequiresServerKeyExchange(terms.cipher) && UsesCertificateAuth(terms.cipher) ==> Witnessed(w, trace, SkeSigned))
  }

  /** What a finished server has seen of a client that sent a certificate, or had to. */
  predicate ServerEvidence(w: Result, trace: seq<Event>, end: S.Server)
    requires Inv(w)
  {
    && (Witnessed(w, trace, CertRead) ==> Witnessed(w, trace, CertVerified) && Witnessed(w, trace, CvVerified))
    && (end.terms.certRequest && end.cfg.failIfNoPeerCert ==> Witnessed(w, trace, CertRead))
  }

  /**
    Safety in terms of the events alone: a run below TLS 1.3 that is done contains the sending of
    Finished, a ChangeCipherSpec and then a Finished that matched, and the checks of the peer's
    certificate and signatures.
   */
  lemma SafeOnEvidence(h: Hs, trace: seq<Event>)
    requires Starts(h)
    ensures Inv(Result(h, Ok))
    ensures var w, end := Result(h, Ok), Replay(Result(h, Ok), trace).h;
      IsDone(end) && !IsTls13(end) ==>
        && Witnessed(w, trace, SentUnderNewKeys) && FinishedInOrder(w, trace)
        && (end.ClientHs? ==> ClientEvidence(w, trace, end.c.terms))
        && (end.ServerHs? ==> ServerEvidence(w, trace, end.s))
  {
    hide C.Inv, S.Inv, Replay, Witnessed, FinishedInOrder, RequiresServerKeyExchange, UsesCertificateAuth;
    HandshakeSafety(h, trace);
    var w := Result(h, Ok);
    RunDescends(w, trace);
    var end := Replay(w, trace).h;
    if IsDone(end) && !IsTls13(end) {
      forall m: Mark | !m.Unflushed? && FactsOf(end).Has(m) ensures Witnessed(w, trace, m) {
        MarkWitnessed(w, trace, m);
      }
      OrderHolds(w, trace);
      if end.ServerHs? && Witnessed(w, trace, CertRead) { CertStays(w, trace); }
    }
  }
}
