/**
  Whole handshakes: ssl_run_handshake resolving what either state machine waits for, over every
  run, and the loops themselves.
 */
module Handshake {
  import opened Bits
  import opened HandshakeCommon
  import C = HandshakeClient
  import S = HandshakeServer

  datatype Hs = ClientHs(c: C.Client) | ServerHs(s: S.Server)

  datatype Result = Result(h: Hs, wait: Wait)

  /** What the transport and the record layer answer to a wait. */
  datatype Io =
    | Flushed                      // flush_flight finished
    | Opened                       // a record was opened
    | Retried                      // more input is needed, or the record was dropped
    | Blocked(ret: int)            // the transport would block, failed or ended, or the record was bad
    | EarlyData(canRead: bool)

  /** One thing that happens: an answer to a wait, or one step of the state machine. */
  datatype Event = Resolve(io: Io) | Step(i: Input)

  predicate Starts(h: Hs) {
    if h.ClientHs? then C.Starts(h.c) else S.Starts(h.s)
  }

  predicate IsDone(h: Hs) {
    if h.ClientHs? then h.c.state.StateDone? else h.s.state.StateDone?
  }

  predicate IsTls13(h: Hs) {
    if h.ClientHs? then h.c.terms.tls13 else h.s.terms.tls13
  }

  function FactsOf(h: Hs): Facts {
    if h.ClientHs? then h.c.facts else h.s.facts
  }

  function WithFacts(h: Hs, f: Facts): Hs {
    if h.ClientHs? then ClientHs(h.c.(facts := f)) else ServerHs(h.s.(facts := f))
  }

  predicate SameState(a: Hs, b: Hs) {
    if a.ClientHs? then b.ClientHs? && a.c.state == b.c.state else b.ServerHs? && a.s.state == b.s.state
  }

  function Rank(h: Hs): nat {
    if h.ClientHs? then C.Rank(h.c) else S.Rank(h.s)
  }

  predicate Inv(w: Result) {
    if w.h.ClientHs? then C.Inv(w.h.c, w.wait) else S.Inv(w.h.s, w.wait)
  }

  /** do_handshake, one state at a time. */
  function StepHs(h: Hs, i: Input): Result
    requires Inv(Result(h, Ok)) && !IsDone(h)
  {
    if h.ClientHs? then
      C.StepGood(h.c, i);
      var r := C.Step(h.c, i);
      Result(ClientHs(r.h), r.wait)
    else
      S.StepGood(h.s, i);
      var r := S.Step(h.s, i);
      Result(ServerHs(r.h), r.wait)
  }

  /** The switch of ssl_run_handshake; Ok means that nothing is left to wait for. */
  function ResolveWait(w: Result, io: Io): Result {
    match w.wait
    case Error => w
    case EarlyDataRejected => w
    case Ok => w
    case Flush => if io.Flushed? then Result(WithFacts(w.h, FactsOf(w.h).Without(Unflushed)), Ok) else w
    case ReadServerHello => if io.Opened? then w.(wait := Ok) else w
    case ReadMessage => if io.Opened? then w.(wait := Ok) else w
    case ReadChangeCipherSpec =>
      if io.Opened? then Result(WithFacts(w.h, FactsOf(w.h).With(CcsRead)), Ok) else w
    case ReadEndOfEarlyData => if io == EarlyData(false) then w.(wait := Ok) else w
    case CertificateSelectionPending | Handoff | X509Lookup | ChannelIdLookup | PrivateKeyOperation | PendingSession
       | PendingTicket | EarlyReturn | CertificateVerify => w.(wait := Ok)
  }

  /** The state machine runs only when nothing is left to wait for. */
  function Next(w: Result, e: Event): Result
    requires Inv(w)
  {
    match e
    case Resolve(io) => ResolveWait(w, io)
    case Step(i) => if w.wait.Ok? && !IsDone(w.h) then StepHs(w.h, i) else w
  }

  lemma ResolveKeeps(w: Result, io: Io)
    requires Inv(w)
    ensures Inv(ResolveWait(w, io))
    ensures SameState(w.h, ResolveWait(w, io).h) && Rank(ResolveWait(w, io).h) == Rank(w.h)
    ensures ClientSession(ResolveWait(w, io).h) == ClientSession(w.h)
  {
    hide C.Inv, S.Inv, C.PhaseOf, S.PhaseOf;
    if !w.wait.Error? {
      if w.h.ClientHs? { C.ResumeInv(w.h.c, w.wait); } else { S.ResumeInv(w.h.s, w.wait); }
    }
  }

  function ClientSession(h: Hs): bool {
    if h.ClientHs? then h.c.terms.session else h.s.terms.session
  }

  /** The part of the handshake in which the session is settled. */
  predicate Settling(h: Hs) {
    if h.ClientHs? then C.Rank(h.c) >= 19 else S.Rank(h.s) >= 16
  }

  /** One event keeps the invariant; the state changes only for one of lower rank. */
  lemma NextKeeps(w: Result, e: Event)
    requires Inv(w)
    ensures var w' := Next(w, e);
      && Inv(w') && w'.h.ClientHs? == w.h.ClientHs?
      && (if SameState(w.h, w'.h) then Rank(w'.h) == Rank(w.h) && ClientSession(w'.h) == ClientSession(w.h)
          else Rank(w'.h) < Rank(w.h))
      && (!Settling(w.h) ==> ClientSession(w'.h) == ClientSession(w.h))
  {
    hide C.Inv, S.Inv, C.PhaseOf, S.PhaseOf, C.Step, S.Step;
    match e
    case Resolve(io) => ResolveKeeps(w, io);
    case Step(i) =>
      if w.wait.Ok? && !IsDone(w.h) {
        if w.h.ClientHs? { C.StepGood(w.h.c, i); } else { S.StepGood(w.h.s, i); }
      }
  }

  /** Where a run leads. */
  function Replay(w: Result, trace: seq<Event>): (r: Result)
    requires Inv(w)
    ensures Inv(r)
  {
    if trace == [] then w
    else
      var before := Replay(w, trace[..|trace| - 1]);
      NextKeeps(before, trace[|trace| - 1]);
      Next(before, trace[|trace| - 1])
  }

  lemma StartInv(h: Hs)
    requires Starts(h)
    ensures Inv(Result(h, Ok))
  {
    hide C.Inv, S.Inv;
    if h.ClientHs? { C.StartInv(h.c); } else { S.StartInv(h.s); }
  }

  /**
    Safety over all runs, with any messages from the peer and any blocking or retrying: below
    TLS 1.3 either side is done only after both Finished messages went over under new keys.
   */
  lemma HandshakeSafety(h: Hs, trace: seq<Event>)
    requires Starts(h)
    ensures Inv(Result(h, Ok))
    ensures var w := Replay(Result(h, Ok), trace);
      IsDone(w.h) && !IsTls13(w.h) ==> BothFinished(FactsOf(w.h)) && AuthenticatedPeer(w.h)
  {
    hide C.Inv, S.Inv, AuthenticatedPeer, BothFinished;
    StartInv(h);
    var w := Replay(Result(h, Ok), trace);
    if IsDone(w.h) && !IsTls13(w.h) { DoneIsSafe(w); }
  }

  /** What each side has checked about the other in a full handshake. */
  predicate AuthenticatedPeer(h: Hs) {
    var f := FactsOf(h);
    match h
    case ClientHs(c) =>
      !c.terms.session ==>
        && (UsesCertificateAuth(c.terms.cipher) ==> f.Has(CertRead) && f.Has(CertVerified))
        && (UsesCertificateAuth(c.terms.cipher) && f.Has(SkeRead) ==> f.Has(SkeSigned))
        && (RequiresServerKeyExchange(c.terms.cipher) ==> f.Has(SkeRead))
    case ServerHs(s) =>
      && (s.terms.peerKey <==> f.Has(CertRead))
      && (f.Has(CertRead) ==> f.Has(CertVerified) && f.Has(CvVerified))
      && (s.terms.certRequest && s.cfg.failIfNoPeerCert ==> s.terms.peerKey)
  }

  lemma DoneIsSafe(w: Result)
    requires Inv(w) && IsDone(w.h) && !IsTls13(w.h)
    ensures BothFinished(FactsOf(w.h)) && AuthenticatedPeer(w.h)
  {
    hide C.Inv, S.Inv, BothFinished;
    if w.h.ClientHs? { C.DoneIsSafe(w.h.c, w.wait); } else { S.DoneIsSafe(w.h.s, w.wait); }
  }

  /** Once the handshake has failed nothing changes any more. */
  lemma {:induction false} ErrorIsFinal(w: Result, trace: seq<Event>)
    requires Inv(w) && w.wait.Error?
    ensures Replay(w, trace) == w
    decreases |trace|
  {
    hide Inv;
    if trace != [] { ErrorIsFinal(w, trace[..|trace| - 1]); }
  }

  // No state is entered twice.

  lemma {:induction false} ReplaySplit(w: Result, a: seq<Event>, b: seq<Event>)
    requires Inv(w)
    ensures Replay(w, a + b) == Replay(Replay(w, a), b)
    decreases |b|
  {
    hide Inv, Next;
    if b == [] {
      assert a + b == a;
    } else {
      assert (a + b)[..|a + b| - 1] == a + b[..|b| - 1];
      ReplaySplit(w, a, b[..|b| - 1]);
    }
  }

  /** Along a run the rank never rises, and falls whenever the state has changed. */
  lemma {:induction false} RunDescends(w: Result, trace: seq<Event>)
    requires Inv(w)
    ensures var w' := Replay(w, trace);
      && Rank(w'.h) <= Rank(w.h) && w'.h.ClientHs? == w.h.ClientHs?
      && (Rank(w'.h) == Rank(w.h) ==> SameState(w.h, w'.h))
      && (!Settling(w.h) ==> ClientSession(w'.h) == ClientSession(w.h))
    decreases |trace|
  {
    hide Inv, Next, C.PhaseOf, S.PhaseOf;
    if trace != [] {
      RunDescends(w, trace[..|trace| - 1]);
      NextKeeps(Replay(w, trace[..|trace| - 1]), trace[|trace| - 1]);
    }
  }

  /** One state has one rank in a run. */
  lemma SameRank(a: Hs, b: Hs)
    requires SameState(a, b) && (!Settling(a) ==> ClientSession(a) == ClientSession(b))
    ensures Rank(a) == Rank(b)
  {
    hide C.PhaseOf, S.PhaseOf;
    if Settling(a) {
      if a.ClientHs? { C.EarlyRank(a.c.state, a.c.terms.session, b.c.terms.session); }
      else { S.EarlyRank(a.s.state, a.s.terms.session, b.s.terms.session); }
    }
  }

  /** A state that has been left is never entered again. */
  lemma NeverReentered(h: Hs, a: seq<Event>, b: seq<Event>, c: seq<Event>)
    requires Starts(h)
    ensures Inv(Result(h, Ok))
    ensures var w := Result(h, Ok);
      SameState(Replay(w, a).h, Replay(w, a + b + c).h) ==> SameState(Replay(w, a).h, Replay(w, a + b).h)
  {
    hide Inv, Rank, SameState, Settling, ClientSession;
    StartInv(h);
    var w := Result(h, Ok);
    var w1, w2, w3 := Replay(w, a), Replay(w, a + b), Replay(w, a + b + c);
    ReplaySplit(w, a, b);
    ReplaySplit(w, a + b, c);
    ReplaySplit(w1, b, c);
    RunDescends(w1, b);
    RunDescends(w2, c);
    RunDescends(w1, b + c);
    if SameState(w1.h, w3.h) { SameRank(w1.h, w3.h); }
  }

  /** A step that leaves nothing to wait for has moved on. */
  lemma StepMoves(h: Hs, i: Input)
    requires Inv(Result(h, Ok)) && !IsDone(h)
    ensures var r := StepHs(h, i);
      Rank(r.h) <= Rank(h) && (r.wait.Ok? ==> Rank(r.h) < Rank(h))
  {
    hide C.Inv, S.Inv, C.PhaseOf, S.PhaseOf, C.Step, S.Step;
    if h.ClientHs? { C.StepGood(h.c, i); } else { S.StepGood(h.s, i); }
  }

  // The loops.

  /** Where the switch leaves the loop: back to its start, on to the state machine, or out. */
  datatype Settled = Retry | Proceed | Return(ret: int, early: bool)

  /** The answer the transport gives next. */
  function Answer(ios: seq<Io>, n: nat): Io {
    if n < |ios| then ios[n] else Blocked(-1)
  }

  /** The answer does not resolve the wait. */
  predicate Halts(w: Wait, io: Io) {
    || w.EarlyDataRejected?
    || (w.Flush? && !io.Flushed?)
    || ((w.ReadServerHello? || w.ReadMessage? || w.ReadChangeCipherSpec?) && !io.Opened? && !io.Retried?)
  }

  /** The waits that end a call: an early return, or an operation of the caller. */
  predicate Tells(w: Wait, early: bool) {
    if early then w.EarlyReturn?
    else
      || w.CertificateSelectionPending? || w.Handoff? || w.X509Lookup? || w.ChannelIdLookup? || w.PrivateKeyOperation?
      || w.PendingSession? || w.PendingTicket? || w.CertificateVerify?
  }

  /** SSL_HANDSHAKE, with the run so far. */
  class Handshake {
    var hs: Hs
    var wait: Wait
    const env: nat -> Input       // the answers to the steps, in order
    var inputs: nat
    ghost const start: Hs
    ghost var trace: seq<Event>

    /** The fields are where the run from the start has led. */
    ghost predicate Valid()
      reads this
    {
      At(wait)
    }

    ghost predicate At(w: Wait)
      reads this
    {
      Starts(start) && Inv(Result(start, Ok)) && Replay(Result(start, Ok), trace) == Result(hs, w)
    }

    constructor (h: Hs, e: nat -> Input)
      requires Starts(h)
      ensures Valid() && hs == h && wait == Ok && trace == []
    {
      StartInv(h);
      hs, wait, env, inputs := h, Ok, e, 0;
      start, trace := h, [];
    }

    /** One more event. */
    ghost method Happens(w: Wait, e: Event)
      requires At(w) && Inv(Result(hs, w))
      modifies this`trace
      ensures trace == old(trace) + [e]
      ensures Replay(Result(start, Ok), trace) == Next(Result(hs, w), e)
    {
      hide Inv, Next, Starts;
      assert (trace + [e])[..|trace|] == trace;
      trace := trace + [e];
    }

    /** A wait is resolved: a finished flush, an opened record. */
    method Resolve(io: Io)
      requires Valid() && ResolveWait(Result(hs, wait), io).wait.Ok?
      modifies this`hs, this`trace
      ensures At(Ok) && SameState(old(hs), hs) && Rank(hs) == old(Rank(hs))
      ensures trace == old(trace) + [Event.Resolve(io)]
    {
      hide Inv, Starts, Rank, WithFacts, FactsOf;
      AtInv();
      ResolveKeeps(Result(hs, wait), io);
      Happens(wait, Event.Resolve(io));
      hs := ResolveWait(Result(hs, wait), io).h;
    }

    lemma AtInv()
      requires Valid()
      ensures Inv(Result(hs, wait))
    {
    }

    /** ssl_client_handshake and ssl_server_handshake: steps until the end, or something to wait for. */
    method DoHandshake() returns (ret: Wait)
      requires At(Ok)
      modifies this`hs, this`inputs, this`trace
      ensures At(ret)
      ensures ret.Ok? ==> IsDone(hs)
      ensures Rank(hs) <= old(Rank(hs))
      ensures old(trace) <= trace
    {
      hide Inv, Starts, Rank, StepHs;
      while !IsDone(hs)
        invariant At(Ok) && Rank(hs) <= old(Rank(hs)) && old(trace) <= trace
        decreases Rank(hs)
      {
        ghost var before := hs;
        var i := env(inputs);
        inputs := inputs + 1;
        NextKeeps(Result(hs, Ok), Step(i));
        StepMoves(hs, i);
        Happens(Ok, Step(i));
        var r := StepHs(hs, i);
        hs := r.h;
        if !r.wait.Ok? {
          return r.wait;
        }
      }
      ret := Ok;
    }

    /** The last event resolved a wait that the caller is told about. */
    ghost predicate Paused(from: nat, early: bool)
      requires Valid()
      reads this
    {
      wait.Ok? && |trace| > from && trace[|trace| - 1].Resolve? &&
      Tells(Replay(Result(start, Ok), trace[..|trace| - 1]).wait, early)
    }

    /** The switch of ssl_run_handshake, on one answer of the transport, or on none. */
    method Settle(io: Io, any: bool) returns (s: Settled)
      requires Valid() && (!any ==> io == Blocked(-1))
      modifies this`hs, this`wait, this`trace
      ensures SameState(old(hs), hs) && Rank(hs) == old(Rank(hs)) && old(trace) <= trace
      ensures s.Proceed? ==> At(Ok) && (any || old(wait).Ok?)
      ensures !s.Proceed? ==> Valid()
      ensures wait.Error? ==> old(wait).Error?
      ensures old(wait).Error? ==> s == Return(-1, false) && wait.Error? && trace == old(trace) && hs == old(hs)
      ensures s.Retry? ==> any && !wait.Ok? && io.Retried? && wait == old(wait) && trace == old(trace) && hs == old(hs)
      ensures s.Return? ==>
        || wait.Error?
        || (Paused(|old(trace)|, s.early) && s.ret == if s.early then 1 else -1)
        || (!s.early && wait == old(wait) && Halts(wait, io) && s.ret <= 0
            && (io.Blocked? && !wait.EarlyDataRejected? ==> s.ret == if io.ret <= 0 then io.ret else -1))
        || (s == Return(1, true) && wait.ReadEndOfEarlyData? && (io == EarlyData(true) || !any))
    {
      hide Inv, Starts, Rank, WithFacts, FactsOf;
      var blocked := if io.Blocked? && io.ret <= 0 then io.ret else -1;
      match wait {
        case Ok =>
        case Error | EarlyDataRejected =>
          return Return(-1, false);
        case Flush =>
          if !io.Flushed? {
            return Return(blocked, false);
          }
          Resolve(io);
        case ReadServerHello | ReadMessage | ReadChangeCipherSpec =>
          if io.Retried? {
            return Retry;
          }
          if !io.Opened? {
            return Return(blocked, false);
          }
          Resolve(io);
        case ReadEndOfEarlyData =>
          if io == EarlyData(true) || !any {
            return Return(1, true);
          }
          Resolve(EarlyData(false));
        case EarlyReturn =>
          PauseHere(io, true);
          return Return(1, true);
        case CertificateSelectionPending | Handoff | X509Lookup | ChannelIdLookup | PrivateKeyOperation | PendingSession
           | PendingTicket | CertificateVerify =>
          PauseHere(io, false);
          return Return(-1, false);
      }
      s := Proceed;
    }

    /** The wait is over, but the caller comes first. */
    method PauseHere(io: Io, ghost early: bool)
      requires Valid() && Tells(wait, early)
      modifies this`hs, this`wait, this`trace
      ensures Valid() && Paused(|old(trace)|, early)
      ensures SameState(old(hs), hs) && Rank(hs) == old(Rank(hs)) && old(trace) <= trace
    {
      hide Inv, Starts, Rank, WithFacts, FactsOf, Replay;
      Resolve(io);
      wait := Ok;
      assert trace[..|trace| - 1] == old(trace);
    }

    /**
      ssl_run_handshake, with the answers of the transport up to the first it does not give any
      more, which blocks. It stops at the end, for an error, for a wait the caller has to see to,
      or because the transport did not give what was waited for.
     */
    method Run(ios: seq<Io>) returns (ret: int, earlyReturn: bool, ghost used: nat)
      requires Valid()
      modifies this
      ensures Valid() && old(trace) <= trace && used <= |ios| && (earlyReturn ==> ret == 1) && ret <= 1
      ensures old(wait).Error? ==> ret == -1 && hs == old(hs) && wait.Error? && trace == old(trace)
      ensures ret == 1 && !earlyReturn ==> wait.Ok? && IsDone(hs)
      ensures wait.Error? ==> ret == -1
      ensures ret != 1 && !wait.Error? ==>
        || Paused(|old(trace)|, false)
        || (Halts(wait, Answer(ios, used)) && (Answer(ios, used).Blocked? && !wait.EarlyDataRejected? ==>
                                                 ret == if Answer(ios, used).ret <= 0 then Answer(ios, used).ret else -1))
      ensures earlyReturn ==>
        || Paused(|old(trace)|, true)
        || (wait.ReadEndOfEarlyData? && (Answer(ios, used) == EarlyData(true) || used == |ios|))
      ensures Rank(hs) <= old(Rank(hs))
    {
      hide Inv, Starts, Rank, WithFacts, FactsOf, Replay, Handshake.Paused, Halts;
      var n := 0;
      used := 0;
      while true
        invariant Valid() && used == n <= |ios| && old(trace) <= trace
        invariant Rank(hs) <= old(Rank(hs))
        invariant old(wait).Error? ==> hs == old(hs) && wait.Error? && trace == old(trace)
        decreases |ios| - n, wait.Ok?
      {
        ghost var before := |trace|;
        var takes := !wait.Ok?;
        var s := Settle(Answer(ios, n), n < |ios|);
        if s.Return? {
          PausedBefore(before, |old(trace)|, s.early);
          return s.ret, s.early, used;
        }
        if takes {
          n, used := n + 1, used + 1;
        }
        if s.Retry? {
          continue;
        }
        wait := DoHandshake();
        if wait.Error? {
          return -1, false, used;
        }
        if wait.Ok? {
          return 1, false, used;
        }
      }
    }

    lemma PausedBefore(from: nat, earlier: nat, early: bool)
      requires Valid() && earlier <= from
      ensures Paused(from, early) ==> Paused(earlier, early)
    {
      hide Inv, Starts, Replay;
    }
  }
}
