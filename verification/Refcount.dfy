/**
  The lock-free reference count of refcount_c11.c against the locked one of refcount_lock.c.
  Threads take one atomic access a step: the load that opens an operation, or one weak
  compare-and-swap, which may fail for no reason.
 */
module Refcount {
  import opened Bits

  const REFCOUNT_MAX: nat := 0xFFFF_FFFF

  datatype Op = Inc | Dec

  /** What an operation gives back; Aborted is abort(). */
  datatype Ret = Void | TestZero(isZero: bool) | Aborted

  /** The locked operations: CRYPTO_refcount_inc and CRYPTO_refcount_dec_and_test_zero of refcount_lock.c. */
  function Locked(op: Op, count: nat): (Ret, nat) {
    match op
    case Inc => (Void, if count < REFCOUNT_MAX then count + 1 else count)
    case Dec =>
      if count == 0 then (Aborted, count)
      else
        var c := if count < REFCOUNT_MAX then count - 1 else count;
        (TestZero(c == 0), c)
  }

  /** One locked operation that took effect. */
  datatype Event = Event(thread: nat, op: Op, ret: Ret)

  /** The count after the operations, one after the other under the lock, if each returns what the log says. */
  function After(init: nat, log: seq<Event>): Option<nat> {
    if log == [] then Some(init)
    else
      var last := log[|log| - 1];
      var count :- After(init, log[..|log| - 1]);
      var (ret, count') := Locked(last.op, count);
      if ret == last.ret then Some(count') else None
  }

  lemma AfterOne(init: nat, log: seq<Event>, e: Event)
    ensures After(init, log + [e])
         == match After(init, log)
            case None => None
            case Some(count) => if Locked(e.op, count).0 == e.ret then Some(Locked(e.op, count).1) else None
  {
    assert (log + [e])[..|log|] == log;
  }

  // The lock-free operations.

  /**
    A thread inside an operation: the value of `expected`, the length of the log at its first
    access, and its place in the log once it has taken effect.
   */
  datatype Thread = Idle | Running(op: Op, expected: nat, invoked: nat, effect: Option<nat>)

  /** A finished operation: it took effect as `log[effect]`, between its first access and its end. */
  datatype Finished = Finished(thread: nat, op: Op, ret: Ret, invoked: nat, effect: nat, returned: nat)

  datatype World = World(count: nat, threads: map<nat, Thread>, log: seq<Event>, finished: seq<Finished>)

  datatype Step = Start(thread: nat, op: Op) | Turn(thread: nat, spurious: bool)

  /** After seeing this value the operation changes nothing. */
  predicate Settled(op: Op, seen: nat) {
    seen == REFCOUNT_MAX || (op.Dec? && seen == 0)
  }

  /** What a settled operation returns. */
  function SettledRet(op: Op, seen: nat): Ret {
    if op.Inc? then Void else if seen == 0 then Aborted else TestZero(false)
  }

  /** An access that sees the current count; if that settles the operation, it takes effect here. */
  function See(w: World, t: nat, op: Op, invoked: nat): World {
    if Settled(op, w.count) then
      w.(log := w.log + [Event(t, op, SettledRet(op, w.count))],
         threads := w.threads[t := Running(op, w.count, invoked, Some(|w.log|))])
    else w.(threads := w.threads[t := Running(op, w.count, invoked, None)])
  }

  /** The operation returns. */
  function Finish(w: World, t: nat, op: Op, ret: Ret, invoked: nat, effect: nat): World {
    w.(threads := w.threads[t := Idle], finished := w.finished + [Finished(t, op, ret, invoked, effect, |w.log|)])
  }

  predicate Enabled(w: World, s: Step) {
    match s
    case Start(t, _) => t !in w.threads || w.threads[t].Idle?
    case Turn(t, _) => t in w.threads && w.threads[t].Running?
  }

  /** The load that opens an operation, or one turn of its loop. */
  function Do(w: World, s: Step): World
    requires Enabled(w, s)
  {
    match s
    case Start(t, op) => See(w, t, op, |w.log|)
    case Turn(t, spurious) =>
      var Running(op, expected, invoked, effect) := w.threads[t];
      if Settled(op, expected) then
        Finish(w, t, op, SettledRet(op, expected), invoked, if effect.Some? then effect.value else 0)
      else if w.count == expected && !spurious then
        var newValue := if op.Inc? then expected + 1 else expected - 1;
        var ret := if op.Inc? then Void else TestZero(newValue == 0);
        Finish(w.(count := newValue, log := w.log + [Event(t, op, ret)]), t, op, ret, invoked, |w.log|)
      else See(w, t, op, invoked)
  }

  /** `w` is reached from the count `init` by the steps. */
  ghost predicate Reached(init: nat, steps: seq<Step>, w: World)
    decreases |steps|
  {
    if steps == [] then w == World(init, map[], [], [])
    else exists v :: ReachedBy(init, steps, v, w)
  }

  ghost predicate ReachedBy(init: nat, steps: seq<Step>, v: World, w: World)
    requires steps != []
    decreases |steps|, 0
  {
    Reached(init, steps[..|steps| - 1], v) && Enabled(v, steps[|steps| - 1]) && w == Do(v, steps[|steps| - 1])
  }

  // The invariant.

  predicate ThreadOk(log: seq<Event>, t: nat, th: Thread) {
    th.Running? ==>
      && th.invoked <= |log| && th.expected <= REFCOUNT_MAX
      && (th.effect.Some? <==> Settled(th.op, th.expected))
      && (th.effect.Some? ==>
            th.invoked <= th.effect.value < |log|
            && log[th.effect.value] == Event(t, th.op, SettledRet(th.op, th.expected)))
  }

  predicate FinishedOk(log: seq<Event>, f: Finished) {
    f.invoked <= f.effect < f.returned <= |log| && log[f.effect] == Event(f.thread, f.op, f.ret)
  }

  function EffectOf(th: Thread): Option<nat> {
    if th.Running? then th.effect else None
  }

  /** No two operations share a place in the log. */
  ghost predicate EffectsDistinct(w: World) {
    && (forall i, j :: 0 <= i < j < |w.finished| ==> w.finished[i].effect != w.finished[j].effect)
    && (forall t, i :: t in w.threads && 0 <= i < |w.finished| ==> EffectOf(w.threads[t]) != Some(w.finished[i].effect))
    && (forall t, u :: t in w.threads && u in w.threads && t != u && EffectOf(w.threads[t]).Some? ==>
          EffectOf(w.threads[t]) != EffectOf(w.threads[u]))
  }

  /** Entry `n` of the log is the effect of a finished call or of one that is still running. */
  ghost predicate Owned(w: World, n: nat) {
    || (exists i :: 0 <= i < |w.finished| && w.finished[i].effect == n)
    || (exists t :: t in w.threads && EffectOf(w.threads[t]) == Some(n))
  }

  /** The log has no entries but effects of calls. */
  ghost predicate AllOwned(w: World) {
    forall n: nat :: n < |w.log| ==> Owned(w, n)
  }

  ghost predicate Inv(init: nat, w: World) {
    && w.count <= REFCOUNT_MAX
    && After(init, w.log) == Some(w.count)
    && (forall t :: t in w.threads ==> ThreadOk(w.log, t, w.threads[t]))
    && (forall i :: 0 <= i < |w.finished| ==> FinishedOk(w.log, w.finished[i]))
    && EffectsDistinct(w)
  }

  lemma ThreadStays(log: seq<Event>, e: Event, t: nat, th: Thread)
    requires ThreadOk(log, t, th)
    ensures ThreadOk(log + [e], t, th)
  {
  }

  lemma FinishedStays(log: seq<Event>, e: Event, f: Finished)
    requires FinishedOk(log, f)
    ensures FinishedOk(log + [e], f)
  {
  }

  /** Seeing a settling value is the locked operation on that value. */
  lemma SettledIsLocked(op: Op, seen: nat)
    requires Settled(op, seen) && seen <= REFCOUNT_MAX
    ensures Locked(op, seen) == (SettledRet(op, seen), seen)
  {
  }

  lemma SeeKeeps(init: nat, w: World, t: nat, op: Op, invoked: nat)
    requires Inv(init, w) && invoked <= |w.log|
    requires t in w.threads ==> EffectOf(w.threads[t]).None?
    ensures Inv(init, See(w, t, op, invoked))
  {
    hide Locked, SettledRet, After;
    var w' := See(w, t, op, invoked);
    if Settled(op, w.count) {
      var e := Event(t, op, SettledRet(op, w.count));
      AfterOne(init, w.log, e);
      SettledIsLocked(op, w.count);
      forall u | u in w.threads && u != t ensures ThreadOk(w'.log, u, w'.threads[u]) { ThreadStays(w.log, e, u, w.threads[u]); }
      forall i | 0 <= i < |w.finished| ensures FinishedOk(w'.log, w.finished[i]) { FinishedStays(w.log, e, w.finished[i]); }
      EffectsBelow(init, w);
    }
  }

  /** Every effect so far lies inside the log, so the next place is free. */
  lemma EffectsBelow(init: nat, w: World)
    requires Inv(init, w)
    ensures forall i :: 0 <= i < |w.finished| ==> w.finished[i].effect < |w.log|
    ensures forall t :: t in w.threads && EffectOf(w.threads[t]).Some? ==> EffectOf(w.threads[t]).value < |w.log|
  {
    forall i | 0 <= i < |w.finished| ensures w.finished[i].effect < |w.log| { assert FinishedOk(w.log, w.finished[i]); }
    forall t | t in w.threads && EffectOf(w.threads[t]).Some? ensures EffectOf(w.threads[t]).value < |w.log| {
      assert ThreadOk(w.log, t, w.threads[t]);
    }
  }

  /** A successful compare-and-swap is the locked operation. */
  lemma SwapKeeps(init: nat, w: World, t: nat)
    requires Inv(init, w) && t in w.threads && w.threads[t].Running?
    requires !Settled(w.threads[t].op, w.threads[t].expected) && w.count == w.threads[t].expected
    ensures Inv(init, Do(w, Turn(t, false)))
  {
    hide After;
    var Running(op, expected, invoked, effect) := w.threads[t];
    assert ThreadOk(w.log, t, w.threads[t]);
    var w' := Do(w, Turn(t, false));
    var e := w'.log[|w.log|];
    assert w'.log == w.log + [e];
    AfterOne(init, w.log, e);
    forall u | u in w.threads && u != t ensures ThreadOk(w'.log, u, w'.threads[u]) { ThreadStays(w.log, e, u, w.threads[u]); }
    forall i | 0 <= i < |w.finished| ensures FinishedOk(w'.log, w.finished[i]) { FinishedStays(w.log, e, w.finished[i]); }
    EffectsBelow(init, w);
  }

  lemma StepKeeps(init: nat, w: World, s: Step)
    requires Inv(init, w) && Enabled(w, s)
    ensures Inv(init, Do(w, s))
  {
    hide After;
    match s
    case Start(t, op) => SeeKeeps(init, w, t, op, |w.log|);
    case Turn(t, spurious) =>
      var Running(op, expected, invoked, effect) := w.threads[t];
      assert ThreadOk(w.log, t, w.threads[t]);
      if Settled(op, expected) {
      } else if w.count == expected && !spurious {
        SwapKeeps(init, w, t);
      } else {
        SeeKeeps(init, w, t, op, invoked);
      }
  }

  lemma OwnersStay(init: nat, w: World, s: Step)
    requires Inv(init, w) && Enabled(w, s) && AllOwned(w)
    ensures AllOwned(Do(w, s))
  {
    hide After, Settled, SettledRet;
    var w', u := Do(w, s), s.thread;
    forall n: nat | n < |w'.log| ensures Owned(w', n) {
      if n == |w.log| {
        if |w'.finished| > |w.finished| {
          assert w'.finished[|w.finished|].effect == n;
        } else {
          assert EffectOf(w'.threads[u]) == Some(n);
        }
      } else {
        assert Owned(w, n);
        if i :| 0 <= i < |w.finished| && w.finished[i].effect == n {
          assert w'.finished[i] == w.finished[i];
        } else {
          var t :| t in w.threads && EffectOf(w.threads[t]) == Some(n);
          if t != u {
            assert w'.threads[t] == w.threads[t];
          } else {
            SettledStays(w, t);
            assert w'.finished[|w.finished|].effect == n;
          }
        }
      }
    }
  }

  /** A call that has taken effect has nothing left but to return. */
  lemma SettledStays(w: World, t: nat)
    requires t in w.threads && ThreadOk(w.log, t, w.threads[t]) && EffectOf(w.threads[t]).Some?
    ensures var th := w.threads[t];
      Do(w, Turn(t, false)) == Finish(w, t, th.op, SettledRet(th.op, th.expected), th.invoked, th.effect.value)
      && Do(w, Turn(t, true)) == Do(w, Turn(t, false))
  {
  }

  /**
    Every interleaving of the lock-free operations, with any spurious failures, is a run of the
    locked ones: the log replays to the count, and each finished operation is one entry of the
    log, of its own, placed between its first access and its return, with the same result; and
    the log has no other entries than the effects of calls.
   */
  lemma {:induction false} LockFreeRefinesLocked(init: nat, steps: seq<Step>, w: World)
    requires init <= REFCOUNT_MAX && Reached(init, steps, w)
    ensures Inv(init, w) && AllOwned(w)
    decreases |steps|
  {
    hide Inv, Enabled, Do, Owned;
    if steps == [] {
      StartInv(init);
    } else {
      var v :| ReachedBy(init, steps, v, w);
      LockFreeRefinesLocked(init, steps[..|steps| - 1], v);
      StepKeeps(init, v, steps[|steps| - 1]);
      OwnersStay(init, v, steps[|steps| - 1]);
    }
  }

  lemma StartInv(init: nat)
    requires init <= REFCOUNT_MAX
    ensures Inv(init, World(init, map[], [], []))
  {
  }

  // Progress.

  /** The call of thread `t` has returned, and nothing else has. */
  predicate Returned(w: World, w': World, t: nat, op: Op) {
    && t in w'.threads && w'.threads[t].Idle?
    && |w'.finished| == |w.finished| + 1 && w'.finished[..|w.finished|] == w.finished
    && w'.finished[|w.finished|].thread == t && w'.finished[|w.finished|].op == op
  }

  /** Left to itself a call returns after two turns at most: the first may find that the count has moved, the second cannot. */
  lemma AloneReturns(w: World, t: nat)
    requires Enabled(w, Turn(t, false))
    ensures var th, w1 := w.threads[t], Do(w, Turn(t, false));
      if th.expected == 0xFFFF_FFFF || (th.op.Dec? && th.expected == 0) || w.count == th.expected then Returned(w, w1, t, th.op)
      else Enabled(w1, Turn(t, false)) && Returned(w, Do(w1, Turn(t, false)), t, th.op)
  {
  }

  /** A failed turn is no one's fault but a changed count's or the machine's: some call succeeds in between, or it is spurious. */
  lemma FailsForAReason(w: World, t: nat, spurious: bool)
    requires Enabled(w, Turn(t, spurious)) && Do(w, Turn(t, spurious)).threads[t].Running?
    ensures spurious || w.count != w.threads[t].expected
    ensures Do(w, Turn(t, spurious)).count == w.count && Do(w, Turn(t, spurious)).threads[t].expected == w.count
  {
  }

  // What the locked operations keep.

  /** References handed out and not released. */
  function Outstanding(init: nat, log: seq<Event>): int {
    if log == [] then init
    else Outstanding(init, log[..|log| - 1]) + (if log[|log| - 1].op.Inc? then 1 else -1)
  }

  /** The count never reached its maximum. */
  ghost predicate NeverSaturated(init: nat, log: seq<Event>) {
    forall k :: 0 <= k <= |log| ==> After(init, log[..k]) != Some(REFCOUNT_MAX)
  }

  /** Whoever operates on the count holds a reference. */
  ghost predicate Disciplined(init: nat, log: seq<Event>) {
    forall k :: 0 <= k < |log| ==> Outstanding(init, log[..k]) >= 1
  }

  lemma Shorter(init: nat, log: seq<Event>)
    requires log != []
    ensures NeverSaturated(init, log) ==> NeverSaturated(init, log[..|log| - 1])
    ensures Disciplined(init, log) ==> Disciplined(init, log[..|log| - 1])
    ensures After(init, log).Some? ==> After(init, log[..|log| - 1]).Some?
  {
    var front := log[..|log| - 1];
    assert forall k :: 0 <= k <= |front| ==> front[..k] == log[..k];
  }

  /** While never saturated, the count is the number of outstanding references. */
  lemma {:induction false} CountIsOutstanding(init: nat, log: seq<Event>)
    requires After(init, log).Some? && NeverSaturated(init, log) && Disciplined(init, log) && init <= REFCOUNT_MAX
    ensures After(init, log) == Some(Outstanding(init, log)) && Outstanding(init, log) < REFCOUNT_MAX
    decreases |log|
  {
    assert log[..|log|] == log;
    if log != [] {
      Shorter(init, log);
      CountIsOutstanding(init, log[..|log| - 1]);
    }
  }

  /** Exactly the last release returns one: nothing can follow it. */
  lemma LastReleaseReturnsOne(init: nat, log: seq<Event>, k: nat)
    requires After(init, log).Some? && NeverSaturated(init, log) && Disciplined(init, log) && init <= REFCOUNT_MAX
    requires k < |log|
    ensures log[k].ret == TestZero(true) <==> k == |log| - 1 && Outstanding(init, log) == 0
    ensures log[k].ret != Aborted
  {
    hide After, Outstanding, Locked;
    var upto := log[..k + 1];
    Prefix(init, log, k + 1);
    assert upto[..k] == log[..k] && log[..|log|] == log;
    Prefix(init, log, k);
    CountIsOutstanding(init, log[..k]);
    EventAt(init, upto);
    if k + 1 < |log| { assert Outstanding(init, log[..k + 1]) >= 1; }
  }

  /** A release aborts exactly when there is nothing to release. */
  lemma AbortsExactly(init: nat, log: seq<Event>, k: nat)
    requires After(init, log).Some? && k < |log|
    ensures log[k].ret == Aborted <==> log[k].op.Dec? && After(init, log[..k]) == Some(0)
  {
    Prefix(init, log, k + 1);
    assert log[..k + 1][..k] == log[..k];
  }

  /** The same for the threads: one of them is told that it released the last reference, if anyone did. */
  lemma OneThreadIsLast(init: nat, steps: seq<Step>, w: World, i: nat)
    requires init <= REFCOUNT_MAX && Reached(init, steps, w) && NeverSaturated(init, w.log) && Disciplined(init, w.log)
    requires i < |w.finished|
    ensures w.finished[i].ret == TestZero(true) <==> w.finished[i].effect == |w.log| - 1 && w.count == 0
    ensures w.finished[i].ret == TestZero(true) ==>
      forall j :: 0 <= j < |w.finished| && j != i ==> w.finished[j].ret != TestZero(true)
  {
    hide After, Outstanding, Reached, NeverSaturated, Disciplined;
    LockFreeRefinesLocked(init, steps, w);
    CountIsOutstanding(init, w.log);
    forall j | 0 <= j < |w.finished|
      ensures w.finished[j].ret == TestZero(true) <==> w.finished[j].effect == |w.log| - 1 && w.count == 0
    {
      assert FinishedOk(w.log, w.finished[j]);
      LastReleaseReturnsOne(init, w.log, w.finished[j].effect);
    }
  }

  /** What the last entry of a log returns, given the references before it. */
  lemma EventAt(init: nat, log: seq<Event>)
    requires log != [] && After(init, log).Some?
    requires var front := log[..|log| - 1];
      After(init, front) == Some(Outstanding(init, front)) && 1 <= Outstanding(init, front) < REFCOUNT_MAX
    ensures log[|log| - 1].ret == TestZero(true) <==> Outstanding(init, log) == 0
    ensures log[|log| - 1].ret != Aborted
  {
  }

  lemma {:induction false} Prefix(init: nat, log: seq<Event>, k: nat)
    requires k <= |log| && After(init, log).Some?
    ensures After(init, log[..k]).Some?
    ensures NeverSaturated(init, log) ==> NeverSaturated(init, log[..k])
    ensures Disciplined(init, log) ==> Disciplined(init, log[..k])
    decreases |log|
  {
    if k == |log| {
      assert log[..k] == log;
    } else {
      Shorter(init, log);
      Prefix(init, log[..|log| - 1], k);
      assert log[..|log| - 1][..k] == log[..k];
    }
  }

  /** Once at the maximum, always there, and no release returns one from then on. */
  lemma {:induction false} SaturationSticks(init: nat, log: seq<Event>, k: nat)
    requires k <= |log| && After(init, log).Some? && After(init, log[..k]) == Some(REFCOUNT_MAX)
    ensures After(init, log) == Some(REFCOUNT_MAX)
    ensures forall j :: k <= j < |log| ==> log[j].ret != TestZero(true)
    decreases |log|
  {
    if k == |log| {
      assert log[..k] == log;
    } else {
      var front := log[..|log| - 1];
      assert front[..k] == log[..k];
      SaturationSticks(init, front, k);
    }
  }
}
