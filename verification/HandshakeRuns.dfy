/** Whole handshakes that succeed, as runs of either machine. */
module HandshakeRuns {
  import opened Bits
  import opened HandshakeCommon
  import opened Handshake
  import opened HandshakeFlow
  import C = HandshakeClient
  import S = HandshakeServer

  predicate OnTrack(h: Hs, k: Talk) {
    if h.ClientHs? then ClientOnTrack(h.c, k) else ServerOnTrack(h.s, k)
  }

  predicate GoodInput(h: Hs, k: Talk, i: Input) {
    if h.ClientHs? then ClientInput(h.c, k, i) else ServerInput(h.s, k, i)
  }

  /** What is waited for comes; a step gets the next message of the other side, and nothing fails. */
  predicate GoodEvent(w: Result, k: Talk, e: Event) {
    match e
    case Resolve(io) => !w.wait.Ok? && ResolveWait(w, io).wait.Ok?
    case Step(i) => w.wait.Ok? && GoodInput(w.h, k, i)
  }

  /** The handshake begins with settings that allow it. */
  predicate Begins(h: Hs, k: Talk) {
    && Starts(h) && Possible(k)
    && if h.ClientHs? then ClientAllows(h.c, k) && (k.resumed ==> h.c.terms.session) else ServerAllows(h.s, k)
  }

  /** What each side read and sent of its own and the other's messages. */
  predicate SaidAll(h: Hs, k: Talk) {
    if h.ClientHs? then FactsOf(h).read == FromServer(k, 9) && FactsOf(h).sent == FromClient(k, 8)
    else FactsOf(h).read == FromClient(k, 8) && FactsOf(h).sent == FromServer(k, 9)
  }

  function Left(w: Result): nat {
    2 * Rank(w.h) + if w.wait.Ok? then 0 else 1
  }

  lemma BeginsOnTrack(h: Hs, k: Talk)
    requires Begins(h, k)
    ensures OnTrack(h, k) && Rank(h) <= 22
  {
    assert FromServer(k, 0) == [] && FromClient(k, 0) == [];
    if h.ServerHs? { ClientFollowing(k); }
  }

  lemma EndSaidAll(h: Hs, k: Talk)
    requires OnTrack(h, k) && IsDone(h)
    ensures SaidAll(h, k) && !IsTls13(h)
  {
    hide FromServer, FromClient;
  }

  lemma StepOnTrack(h: Hs, k: Talk, i: Input)
    requires Inv(Result(h, Ok)) && OnTrack(h, k) && GoodInput(h, k, i) && !IsDone(h)
    ensures var r := StepHs(h, i); OnTrack(r.h, k) && NamedWait(r.wait) && Rank(r.h) < Rank(h)
  {
    hide C.Inv, S.Inv, C.Step, S.Step, C.PhaseOf, S.PhaseOf, ClientOnTrack, ServerOnTrack, ClientInput, ServerInput;
    if h.ClientHs? {
      C.StepGood(h.c, i);
      ClientTrack(h.c, k, i);
    } else {
      S.StepGood(h.s, i);
      ServerTrack(h.s, k, i);
    }
  }

  lemma ResolveOnTrack(w: Result, k: Talk, io: Io)
    requires Inv(w) && OnTrack(w.h, k) && ResolveWait(w, io).wait.Ok?
    ensures OnTrack(ResolveWait(w, io).h, k) && Rank(ResolveWait(w, io).h) == Rank(w.h)
  {
    hide C.Inv, S.Inv, C.PhaseOf, S.PhaseOf, FromServer, FromClient;
    ResolveKeeps(w, io);
  }

  lemma GoodNext(w: Result, k: Talk, e: Event)
    requires Inv(w) && OnTrack(w.h, k) && NamedWait(w.wait) && !IsDone(w.h) && GoodEvent(w, k, e)
    ensures var w' := Next(w, e); OnTrack(w'.h, k) && NamedWait(w'.wait) && Left(w') < Left(w)
  {
    hide Inv, OnTrack, Rank, StepHs, IsDone, GoodInput, WithFacts, FactsOf;
    match e
    case Resolve(io) => ResolveOnTrack(w, k, io);
    case Step(i) => StepOnTrack(w.h, k, i);
  }

  /** Nothing but good events, none of them after the end. */
  predicate GoodRun(w: Result, k: Talk, trace: seq<Event>)
    requires Inv(w)
  {
    trace == [] ||
      var n := |trace| - 1;
      GoodRun(w, k, trace[..n]) && !IsDone(Replay(w, trace[..n]).h) && GoodEvent(Replay(w, trace[..n]), k, trace[n])
  }

  lemma {:induction false} RunOnTrack(w: Result, k: Talk, trace: seq<Event>)
    requires Inv(w) && OnTrack(w.h, k) && NamedWait(w.wait) && GoodRun(w, k, trace)
    ensures var end := Replay(w, trace); OnTrack(end.h, k) && NamedWait(end.wait) && Left(end) + |trace| <= Left(w)
    decreases |trace|
  {
    hide Inv, OnTrack, Left, NamedWait, Next, GoodEvent;
    if trace != [] {
      var n := |trace| - 1;
      RunOnTrack(w, k, trace[..n]);
      GoodNext(Replay(w, trace[..n]), k, trace[n]);
    }
  }

  /** There is always a next good event. */
  lemma NextEvent(w: Result, k: Talk) returns (e: Event)
    requires NamedWait(w.wait)
    ensures GoodEvent(w, k, e)
  {
    hide NextFromServer, NextFromClient;
    if w.wait.Ok? {
      var hello := Hello(false, k.resumed, k.cipher, k.ticket, k.status, k.nextProto, k.channelId, k.request);
      var i := Input(NoMessage, true, true, Done, true, true, false, false, true, false, hello, true);
      if w.h.ClientHs? {
        e := Step(i.(msg := NextFromServer(k, ClientRead(w.h.c.state, k)), hasCertificate := k.clientCert));
      } else {
        e := Step(i.(msg := NextFromClient(k, ServerRead(w.h.s.state, k)), chainEmpty := !k.clientCert));
      }
    } else {
      e := Resolve(if w.wait.Flush? then Flushed else Opened);
    }
  }

  /**
    Every good run of either side ends after at most 44 events, and until then it can go on. At its
    end the handshake is done, below TLS 1.3, and both sides' messages have gone over in order.
   */
  lemma GoodRunsEnd(h: Hs, k: Talk, trace: seq<Event>)
    requires Begins(h, k)
    ensures Inv(Result(h, Ok))
    ensures GoodRun(Result(h, Ok), k, trace) ==>
      var end := Replay(Result(h, Ok), trace);
      && |trace| <= 44 && !end.wait.Error?
      && (IsDone(end.h) ==> !IsTls13(end.h) && SaidAll(end.h, k) && BothFinished(FactsOf(end.h)))
      && (!IsDone(end.h) ==> exists e :: GoodRun(Result(h, Ok), k, trace + [e]))
  {
    hide Inv, OnTrack, Rank, GoodEvent, BothFinished, SaidAll, AuthenticatedPeer;
    StartInv(h);
    var w := Result(h, Ok);
    if GoodRun(w, k, trace) {
      BeginsOnTrack(h, k);
      RunOnTrack(w, k, trace);
      var end := Replay(w, trace);
      if IsDone(end.h) {
        EndSaidAll(end.h, k);
        HandshakeSafety(h, trace);
      } else {
        var e := NextEvent(end, k);
        assert (trace + [e])[..|trace|] == trace;
        assert GoodRun(w, k, trace + [e]);
      }
    }
  }

  lemma {:induction false} Finish(h: Hs, k: Talk, trace: seq<Event>) returns (whole: seq<Event>)
    requires Begins(h, k) && Inv(Result(h, Ok)) && GoodRun(Result(h, Ok), k, trace)
    ensures GoodRun(Result(h, Ok), k, whole) && IsDone(Replay(Result(h, Ok), whole).h)
    decreases 44 - |trace|
  {
    hide Inv, GoodRun, Replay, SaidAll, BothFinished, Begins;
    GoodRunsEnd(h, k, trace);
    if IsDone(Replay(Result(h, Ok), trace).h) {
      whole := trace;
    } else {
      var e :| GoodRun(Result(h, Ok), k, trace + [e]);
      GoodRunsEnd(h, k, trace + [e]);
      whole := Finish(h, k, trace + [e]);
    }
  }

  /**
    A client and a server that both allow a handshake both complete it, full or abbreviated and with
    whatever messages it has: what each has sent is what the other has read.
   */
  lemma BothComplete(c: C.Client, s: S.Server, k: Talk) returns (ct: seq<Event>, st: seq<Event>)
    requires Begins(ClientHs(c), k) && Begins(ServerHs(s), k)
    ensures Inv(Result(ClientHs(c), Ok)) && Inv(Result(ServerHs(s), Ok))
    ensures var x, y := Replay(Result(ClientHs(c), Ok), ct).h, Replay(Result(ServerHs(s), Ok), st).h;
      && IsDone(x) && IsDone(y)
      && BothFinished(FactsOf(x)) && BothFinished(FactsOf(y))
      && FactsOf(x).sent == FactsOf(y).read == FromClient(k, 8)
      && FactsOf(y).sent == FactsOf(x).read == FromServer(k, 9)
  {
    hide Inv, GoodRun, BothFinished, Begins, FromServer, FromClient, FactsOf;
    GoodRunsEnd(ClientHs(c), k, []);
    GoodRunsEnd(ServerHs(s), k, []);
    NothingRun(Result(ClientHs(c), Ok), k);
    NothingRun(Result(ServerHs(s), Ok), k);
    ct := Finish(ClientHs(c), k, []);
    st := Finish(ServerHs(s), k, []);
    GoodRunsEnd(ClientHs(c), k, ct);
    GoodRunsEnd(ServerHs(s), k, st);
    RunDescends(Result(ClientHs(c), Ok), ct);
    RunDescends(Result(ServerHs(s), Ok), st);
  }

  lemma NothingRun(w: Result, k: Talk)
    requires Inv(w)
    ensures GoodRun(w, k, [])
  {
  }
}
