/**
  DTLS handshake messages end to end. The sender queues messages and puts fragments of them on
  the network, as often and at whatever sizes it likes; the network drops, duplicates and
  reorders; the receiver reassembles and hands messages out.
 */
module DtlsDelivery {
  import opened Bits
  import opened HandshakeFragment
  import opened DtlsFlight
  import opened DtlsSend
  import opened Reassembly
  import opened DtlsReceive

  /** `net` is every fragment ever put on the network; `delivered` what the receiver was given to read. */
  datatype World = World(queued: seq<Msg>, net: set<seq<byte>>, ring: Ring, delivered: seq<seq<byte>>)

  datatype Step =
    | Queue(m: Msg)
    | Send(payload: seq<byte>)                           // DtlsSend.Sender sends nothing but fragments
    | Deliver(payload: seq<byte>, rEpoch: nat, maxLen: nat)
    | Take                                               // dtls1_get_message and dtls1_next_message

  function Start(): World {
    World([], {}, Ring(0, seq(MAX_HANDSHAKE_FLIGHT, _ => None)), [])
  }

  ghost predicate Enabled(w: World, s: Step) {
    match s
    case Queue(m) => |m.body| < TWO_24
    case Send(payload) => IsFragment(w.queued, payload)
    case Deliver(payload, _, _) => payload in w.net && RingOk(w.ring)
    case Take => RingOk(w.ring) && Current(w.ring).Some?
  }

  ghost function Do(w: World, s: Step): World
    requires Enabled(w, s)
  {
    match s
    case Queue(m) => w.(queued := w.queued + [m])
    case Send(payload) => w.(net := w.net + {payload})
    case Deliver(payload, rEpoch, maxLen) => w.(ring := OpenRecord(w.ring, rEpoch, maxLen, payload).1)
    case Take => w.(ring := Next(w.ring), delivered := w.delivered + [Current(w.ring).value])
  }

  /** `w` is reached by the steps. */
  ghost predicate Reached(steps: seq<Step>, w: World)
    decreases |steps|
  {
    if steps == [] then w == Start()
    else exists v :: ReachedBy(steps, v, w)
  }

  ghost predicate ReachedBy(steps: seq<Step>, v: World, w: World)
    requires steps != []
    decreases |steps|, 0
  {
    var last := steps[|steps| - 1];
    Reached(steps[..|steps| - 1], v) && Enabled(v, last) && w == Do(v, last)
  }

  // What a slot knows about the message of its number.

  ghost predicate HoldsPart(queued: seq<Msg>, m: Incoming) {
    && m.seqNum < |queued|
    && IncomingOk(m)
    && m.mtype == queued[m.seqNum].mtype
    && m.msgLen == |queued[m.seqNum].body| < TWO_24
    && m.data[..HM_HEADER_LENGTH] == Raw(queued[m.seqNum], m.seqNum)[..HM_HEADER_LENGTH]
    && forall b :: b in m.marked ==> m.data[HM_HEADER_LENGTH + b] == queued[m.seqNum].body[b]
  }

  ghost predicate SlotsHold(queued: seq<Msg>, r: Ring) {
    forall i :: 0 <= i < |r.slots| && r.slots[i].Some? ==> HoldsPart(queued, r.slots[i].value)
  }

  ghost predicate Inv(w: World) {
    && RingOk(w.ring)
    && SlotsHold(w.queued, w.ring)
    && (forall p :: p in w.net ==> IsFragment(w.queued, p))
    && w.ring.readSeq == |w.delivered|
    && InOrder(w.queued, w.delivered)
  }

  /** The messages taken out are a prefix of those queued, byte for byte. */
  ghost predicate InOrder(queued: seq<Msg>, delivered: seq<seq<byte>>) {
    |delivered| <= |queued| && forall i :: 0 <= i < |delivered| ==> delivered[i] == Raw(queued[i], i)
  }

  /** A complete message is the one that was queued. */
  lemma CompleteIsRaw(queued: seq<Msg>, m: Incoming)
    requires HoldsPart(queued, m) && IsComplete(m)
    ensures m.data == Raw(queued[m.seqNum], m.seqNum)
  {
    hide PutHeader;
    var raw := Raw(queued[m.seqNum], m.seqNum);
    assert m.data == m.data[..HM_HEADER_LENGTH] + m.data[HM_HEADER_LENGTH..];
    assert raw == raw[..HM_HEADER_LENGTH] + queued[m.seqNum].body;
    forall b: nat | b < m.msgLen ensures m.data[HM_HEADER_LENGTH..][b] == queued[m.seqNum].body[b] {
      assert b in m.marked;
    }
  }

  /** Storing a true piece keeps the slot true. */
  lemma StoredHolds(queued: seq<Msg>, m: Incoming, off: nat, todo: nat)
    requires HoldsPart(queued, m) && off + todo <= m.msgLen
    ensures HoldsPart(queued, Stored(m, off, queued[m.seqNum].body[off..off + todo]))
  {
    hide Raw, Covers;
  }

  lemma NewHolds(queued: seq<Msg>, h: HmHeader)
    requires h.seqNum < |queued| && h.mtype == queued[h.seqNum].mtype && h.msgLen == |queued[h.seqNum].body| < TWO_24
    ensures HoldsPart(queued, NewIncoming(h))
  {
    hide PutHeader;
  }

  /** A fragment of a queued message, whatever the receiver makes of it, leaves the slots true. */
  lemma AcceptHolds(w: World, rEpoch: nat, maxLen: nat, k: nat, off: nat, todo: nat)
    requires Inv(w) && k < |w.queued| < TWO_16 && off + todo <= |w.queued[k].body| < TWO_24
    ensures var h := HmHeader(w.queued[k].mtype, |w.queued[k].body|, k, off, todo);
            var r := Accept(w.ring, rEpoch, maxLen, h, w.queued[k].body[off..off + todo]);
            r.Some? ==> SlotsHold(w.queued, r.value)
  {
    hide Stored, HoldsPart, NewIncoming;
    var h := HmHeader(w.queued[k].mtype, |w.queued[k].body|, k, off, todo);
    var body := w.queued[k].body[off..off + todo];
    var r := Accept(w.ring, rEpoch, maxLen, h, body);
    if r.Some? && r.value != w.ring {
      var idx := k % MAX_HANDSHAKE_FLIGHT;
      assert SlotOk(w.ring, idx);
      if w.ring.slots[idx].Some? {
        SameSlotSameNumber(w.ring.readSeq, k, w.ring.slots[idx].value.seqNum);
        StoredHolds(w.queued, w.ring.slots[idx].value, off, todo);
      } else {
        NewHolds(w.queued, h);
        NewNumber(h);
        StoredHolds(w.queued, NewIncoming(h), off, todo);
      }
    }
  }

  lemma NewNumber(h: HmHeader)
    ensures NewIncoming(h).seqNum == h.seqNum && NewIncoming(h).msgLen == h.msgLen
  {
  }

  lemma DeliverHolds(w: World, payload: seq<byte>, rEpoch: nat, maxLen: nat)
    requires Inv(w) && |w.queued| < TWO_16 && IsFragment(w.queued, payload)
    ensures SlotsHold(w.queued, OpenRecord(w.ring, rEpoch, maxLen, payload).1)
  {
    hide PutHeader, ParseFragment, Accept, SlotsHold, RingOk;
    var k: nat, off: nat, todo: nat :| IsFragmentAt(w.queued, payload, k, off, todo);
    var m := w.queued[k];
    var h, body := HmHeader(m.mtype, |m.body|, k, off, todo), m.body[off..off + todo];
    FragmentRoundTrip(h, body, []);
    assert PutHeader(h) + body + [] == payload;
    AcceptHolds(w, rEpoch, maxLen, k, off, todo);
    var r := Accept(w.ring, rEpoch, maxLen, h, body);
    if r.Some? {
      AcceptKeepsRing(w.ring, rEpoch, maxLen, h, body);
      assert OpenRecord(r.value, rEpoch, maxLen, []) == (true, r.value);
    }
  }

  lemma QueueKeeps(w: World, m: Msg)
    requires Inv(w)
    ensures Inv(w.(queued := w.queued + [m]))
  {
    hide RingOk, Raw;
    forall p | p in w.net ensures IsFragment(w.queued + [m], p) { FragmentStays(w.queued, m, p); }
  }

  lemma TakeKeeps(w: World)
    requires Inv(w) && Current(w.ring).Some? && |w.queued| < TWO_16
    ensures Inv(Do(w, Take))
  {
    hide Raw, HoldsPart, IsComplete, IsFragment;
    var idx := w.ring.readSeq % MAX_HANDSHAKE_FLIGHT;
    assert SlotOk(w.ring, idx);
    var m := w.ring.slots[idx].value;
    SameSlotSameNumber(w.ring.readSeq, w.ring.readSeq, m.seqNum);
    assert HoldsPart(w.queued, m);
    CompleteIsRaw(w.queued, m);
    PartNumber(w.queued, m);
  }

  lemma PartNumber(queued: seq<Msg>, m: Incoming)
    requires HoldsPart(queued, m)
    ensures m.seqNum < |queued|
  {
  }

  /** Every step keeps the invariant while fewer than 2^16 messages have been queued. */
  lemma StepKeeps(w: World, s: Step)
    requires Inv(w) && Enabled(w, s) && |Do(w, s).queued| < TWO_16
    ensures Inv(Do(w, s))
  {
    hide SlotsHold, RingOk, Current, OpenRecord, Next, IsFragment;
    match s
    case Queue(m) => QueueKeeps(w, m);
    case Send(_) =>
    case Deliver(payload, rEpoch, maxLen) => DeliverHolds(w, payload, rEpoch, maxLen);
    case Take => TakeKeeps(w);
  }

  /**
    In every run in which fewer than 2^16 messages are queued, the messages taken out are a
    prefix of those queued, each byte-identical.
   */
  lemma {:induction false} DeliveredInOrder(steps: seq<Step>, w: World)
    requires Reached(steps, w) && |w.queued| < TWO_16
    ensures Inv(w)
    ensures InOrder(w.queued, w.delivered)
    decreases |steps|
  {
    hide Inv, Enabled, Do;
    if steps == [] {
      StartInv();
    } else {
      var v :| ReachedBy(steps, v, w);
      QueueGrows(v, steps[|steps| - 1]);
      DeliveredInOrder(steps[..|steps| - 1], v);
      StepKeeps(v, steps[|steps| - 1]);
    }
    InvOrder(w);
  }

  lemma StartInv()
    ensures Inv(Start())
  {
  }

  lemma InvOrder(w: World)
    requires Inv(w)
    ensures InOrder(w.queued, w.delivered)
  {
  }

  lemma QueueGrows(w: World, s: Step)
    requires Enabled(w, s)
    ensures |w.queued| <= |Do(w, s).queued|
  {
    hide RingOk, Current, OpenRecord, Next;
  }

  // True fragments that end in an error.

  /** A fragment of a queued message never disagrees with its slot; it is refused for three reasons only. */
  lemma RefusedExactly(w: World, rEpoch: nat, maxLen: nat, k: nat, off: nat, todo: nat)
    requires Inv(w) && k < |w.queued| < TWO_16 && off + todo <= |w.queued[k].body| < TWO_24
    ensures var h := HmHeader(w.queued[k].mtype, |w.queued[k].body|, k, off, todo);
      Accept(w.ring, rEpoch, maxLen, h, w.queued[k].body[off..off + todo]).None? <==>
        || |w.queued[k].body| > maxLen
        || (rEpoch == 1 && k != |w.delivered|)
        || k == |w.delivered| + 7
  {
    hide Stored, NewIncoming, Raw, IsFragment, InOrder;
    var idx := k % MAX_HANDSHAKE_FLIGHT;
    assert SlotOk(w.ring, idx);
    var h := HmHeader(w.queued[k].mtype, |w.queued[k].body|, k, off, todo);
    NewType(h);
    if w.ring.readSeq <= k < w.ring.readSeq + MAX_HANDSHAKE_FLIGHT && w.ring.slots[idx].Some? {
      SameSlotSameNumber(w.ring.readSeq, k, w.ring.slots[idx].value.seqNum);
      assert HoldsPart(w.queued, w.ring.slots[idx].value);
    }
  }

  lemma NewType(h: HmHeader)
    ensures NewIncoming(h).mtype == h.mtype && NewIncoming(h).msgLen == h.msgLen
  {
  }

  /**
    In every run, a fragment of message `k` ends in an error exactly when the message is longer
    than the receiver allows, when it is not the next one in epoch 1, or when it is seven ahead
    of the next one; further ahead and behind, it is dropped without one.
   */
  lemma TrueFragmentRefused(steps: seq<Step>, w: World, rEpoch: nat, maxLen: nat, payload: seq<byte>,
                            k: nat, off: nat, todo: nat)
    requires Reached(steps, w) && |w.queued| < TWO_16 && IsFragmentAt(w.queued, payload, k, off, todo)
    ensures RingOk(w.ring)
    ensures !OpenRecord(w.ring, rEpoch, maxLen, payload).0 <==>
        || |w.queued[k].body| > maxLen
        || (rEpoch == 1 && k != |w.delivered|)
        || k == |w.delivered| + 7
  {
    hide PutHeader, ParseFragment, Accept, Reached, SlotsHold, InOrder;
    DeliveredInOrder(steps, w);
    var m := w.queued[k];
    var h, body := HmHeader(m.mtype, |m.body|, k, off, todo), m.body[off..off + todo];
    FragmentRoundTrip(h, body, []);
    assert PutHeader(h) + body + [] == payload;
    RefusedExactly(w, rEpoch, maxLen, k, off, todo);
    var r := Accept(w.ring, rEpoch, maxLen, h, body);
    if r.Some? {
      AcceptKeepsRing(w.ring, rEpoch, maxLen, h, body);
      assert OpenRecord(r.value, rEpoch, maxLen, []) == (true, r.value);
    }
  }

  lemma {:induction false} QueueRun(n: nat) returns (steps: seq<Step>, w: World)
    ensures Reached(steps, w) && |w.queued| == n && w.delivered == []
    ensures forall k :: 0 <= k < n ==> w.queued[k] == EMPTY
  {
    hide Reached;
    if n == 0 {
      steps, w := [], Start();
      StartReached();
    } else {
      var before, v := QueueRun(n - 1);
      OneMore(before, v, Queue(EMPTY));
      steps, w := before + [Queue(EMPTY)], Do(v, Queue(EMPTY));
    }
  }

  /** The guards do differ on a fragment an honest sender writes: the eighth message, before the first. */
  lemma WindowEdge() returns (steps: seq<Step>, w: World, payload: seq<byte>)
    ensures Reached(steps, w) && payload in w.net && IsFragment(w.queued, payload) && RingOk(w.ring)
    ensures !OpenRecord(w.ring, 0, TWO_24, payload).0
  {
    hide FragmentBytes, RingOk, OpenRecord, Reached;
    var before, v := QueueRun(MAX_HANDSHAKE_FLIGHT + 1);
    payload := FragmentBytes(EMPTY, MAX_HANDSHAKE_FLIGHT, 0, 0);
    assert IsFragmentAt(v.queued, payload, MAX_HANDSHAKE_FLIGHT, 0, 0);
    OneMore(before, v, Send(payload));
    steps, w := before + [Send(payload)], Do(v, Send(payload));
    TrueFragmentRefused(steps, w, 0, TWO_24, payload, MAX_HANDSHAKE_FLIGHT, 0, 0);
  }

  // The bound is sharp: message numbers have 16 bits.

  const EMPTY: Msg := Msg(0, [])

  function EmptyRing(s: nat): Ring {
    Ring(s, seq(MAX_HANDSHAKE_FLIGHT, _ => None))
  }

  lemma OneMore(steps: seq<Step>, v: World, s: Step)
    requires Reached(steps, v) && Enabled(v, s)
    ensures Reached(steps + [s], Do(v, s))
  {
    hide Enabled, Do;
    assert (steps + [s])[..|steps|] == steps;
    assert ReachedBy(steps + [s], v, Do(v, s));
  }

  /** An empty message is complete with its first fragment. */
  lemma EmptyRound(w: World, s: nat)
    requires w.ring == EmptyRing(s) && s < TWO_16 && FragmentBytes(EMPTY, s, 0, 0) in w.net
    ensures var d := Deliver(FragmentBytes(EMPTY, s, 0, 0), 0, 0);
      && Enabled(w, d) && Enabled(Do(w, d), Take)
      && Do(Do(w, d), Take) == w.(ring := EmptyRing((s + 1) % TWO_16), delivered := w.delivered + [Raw(EMPTY, s)])
  {
    hide PutHeader, ParseFragment;
    var h, idx := HmHeader(0, 0, s, 0, 0), s % MAX_HANDSHAKE_FLIGHT;
    var payload := FragmentBytes(EMPTY, s, 0, 0);
    FragmentRoundTrip(h, [], []);
    assert PutHeader(h) + [] + [] == payload;
    assert RingOk(w.ring);
    var m := NewIncoming(h);
    assert IsComplete(m);
    assert m.data == Raw(EMPTY, s);
    var r := Ring(s, w.ring.slots[idx := Some(m)]);
    assert SlotOk(w.ring, idx);
    assert Accept(w.ring, 0, 0, h, []) == Some(r);
    AcceptKeepsRing(w.ring, 0, 0, h, []);
    assert OpenRecord(r, 0, 0, []) == (true, r);
    assert OpenRecord(w.ring, 0, 0, payload) == (true, r);
    assert Current(r) == Some(m.data);
    assert Next(r) == EmptyRing((s + 1) % TWO_16);
  }

  /** `k` empty messages, each delivered at once; the first one's fragment stays on the network. */
  lemma {:induction false} EmptyRun(k: nat) returns (steps: seq<Step>, w: World)
    requires k <= TWO_16
    ensures Reached(steps, w) && |w.queued| == |w.delivered| == k && w.ring == EmptyRing(k % TWO_16)
    ensures k > 0 ==> FragmentBytes(EMPTY, 0, 0, 0) in w.net
  {
    hide FragmentBytes, RingOk, Current, OpenRecord, Next, Raw, Reached;
    if k == 0 {
      steps, w := [], Start();
      assert Reached(steps, w) by { StartReached(); }
    } else {
      var before, v := EmptyRun(k - 1);
      var payload := FragmentBytes(EMPTY, k - 1, 0, 0);
      var w1 := Do(v, Queue(EMPTY));
      assert IsFragmentAt(w1.queued, payload, k - 1, 0, 0);
      var w2 := Do(w1, Send(payload));
      EmptyRound(w2, k - 1);
      var d := Deliver(payload, 0, 0);
      OneMore(before, v, Queue(EMPTY));
      OneMore(before + [Queue(EMPTY)], w1, Send(payload));
      OneMore(before + [Queue(EMPTY)] + [Send(payload)], w2, d);
      OneMore(before + [Queue(EMPTY)] + [Send(payload)] + [d], Do(w2, d), Take);
      steps, w := before + [Queue(EMPTY)] + [Send(payload)] + [d] + [Take], Do(Do(w2, d), Take);
    }
  }

  lemma StartReached()
    ensures Reached([], Start())
  {
  }

  /** With 2^16 messages a duplicate of the first one is taken for the next. */
  lemma NumbersWrap() returns (steps: seq<Step>, w: World)
    ensures Reached(steps, w) && |w.queued| == TWO_16 && !InOrder(w.queued, w.delivered)
  {
    hide FragmentBytes, RingOk, Current, OpenRecord, Next, Raw, Reached;
    var before, v := EmptyRun(TWO_16);
    EmptyRound(v, 0);
    var d := Deliver(FragmentBytes(EMPTY, 0, 0, 0), 0, 0);
    OneMore(before, v, d);
    OneMore(before + [d], Do(v, d), Take);
    steps, w := before + [d] + [Take], Do(Do(v, d), Take);
  }
}
