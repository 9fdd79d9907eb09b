/**
  Nothing that arrives is lost: when all bytes of the messages in the window have come, in whatever
  pieces, order and records, and however often, each message can be taken out.
 */
module DtlsArrival {
  import opened Bits
  import opened HandshakeFragment
  import opened DtlsFlight
  import opened DtlsSend
  import opened Reassembly
  import opened DtlsReceive
  import opened DtlsDelivery
  import opened Headers

  // Any record at all: the fragments it consists of, up to the first that is not accepted.

  datatype Frag = Frag(h: HmHeader, body: seq<byte>)

  predicate FragOk(f: Frag) {
    f.h.msgLen < 0x100_0000 && f.h.seqNum < 0x1_0000 && f.h.fragOff < 0x100_0000 && f.h.fragLen == |f.body| < 0x100_0000
  }

  predicate FragsOk(frags: seq<Frag>) {
    forall i :: 0 <= i < |frags| ==> FragOk(frags[i])
  }

  function FragsBytes(frags: seq<Frag>): seq<byte>
    requires FragsOk(frags)
  {
    if frags == [] then []
    else
      var h := frags[0].h;
      Fragment(h.mtype, h.msgLen, h.seqNum, h.fragOff, frags[0].body) + FragsBytes(frags[1..])
  }

  /** The fragments are accepted one after the other. */
  ghost predicate Chain(rEpoch: nat, maxLen: nat, frags: seq<Frag>, rings: seq<Ring>)
    requires FragsOk(frags)
  {
    && |rings| == |frags| + 1 && (forall i :: 0 <= i < |rings| ==> RingOk(rings[i]))
    && forall i :: 0 <= i < |frags| ==> Accept(rings[i], rEpoch, maxLen, frags[i].h, frags[i].body) == Some(rings[i + 1])
  }

  /** A fragment stands in front of the bytes, and it is accepted. */
  ghost predicate NextAccepted(r: Ring, rEpoch: nat, maxLen: nat, tail: seq<byte>)
    requires RingOk(r)
  {
    exists f: Frag, t: seq<byte> :: InFrontOf(tail, f, t) && Accept(r, rEpoch, maxLen, f.h, f.body).Some?
  }

  predicate InFrontOf(tail: seq<byte>, f: Frag, t: seq<byte>) {
    FragOk(f) && tail == Fragment(f.h.mtype, f.h.msgLen, f.h.seqNum, f.h.fragOff, f.body) + t
  }

  lemma NoneAccepted(r: Ring, rEpoch: nat, maxLen: nat, record: seq<byte>)
    requires RingOk(r)
    requires ParseFragment(record).Some? ==>
      Accept(r, rEpoch, maxLen, ParseFragment(record).value.0, ParseFragment(record).value.1).None?
    ensures !NextAccepted(r, rEpoch, maxLen, record)
  {
    hide RingOk, ParseFragment, Fragment, Accept;
    forall f: Frag, t: seq<byte> | InFrontOf(record, f, t) ensures Accept(r, rEpoch, maxLen, f.h, f.body).None? {
      FragmentExactly(record, f.h, f.body, t);
    }
  }

  /**
    Whatever the record: its fragments are accepted one by one up to the first that is not, those
    before it take effect, and the answer is whether nothing is left.
   */
  lemma {:induction false} OpenedExactly(r: Ring, rEpoch: nat, maxLen: nat, record: seq<byte>)
      returns (frags: seq<Frag>, rings: seq<Ring>, tail: seq<byte>)
    requires RingOk(r)
    ensures FragsOk(frags) && record == FragsBytes(frags) + tail
    ensures Chain(rEpoch, maxLen, frags, rings) && rings[0] == r
    ensures OpenRecord(r, rEpoch, maxLen, record) == (tail == [], rings[|frags|])
    ensures tail != [] ==> !NextAccepted(rings[|frags|], rEpoch, maxLen, tail)
    decreases |record|
  {
    hide RingOk, ParseFragment, Fragment, Accept, NextAccepted;
    frags, rings, tail := [], [r], record;
    if record != [] {
      if ParseFragment(record).Some? {
        var (h, body, rest) := ParseFragment(record).value;
        NumberFits(record);
        if Accept(r, rEpoch, maxLen, h, body).Some? {
          var r1 := Accept(r, rEpoch, maxLen, h, body).value;
          AcceptKeepsRing(r, rEpoch, maxLen, h, body);
          var more, after;
          more, after, tail := OpenedExactly(r1, rEpoch, maxLen, rest);
          FragmentExactly(record, h, body, rest);
          frags, rings := [Frag(h, body)] + more, [r] + after;
          ChainMore(r, rEpoch, maxLen, Frag(h, body), more, after);
          assert frags[1..] == more;
          assert record == FragsBytes(frags) + tail;
        } else {
          NoneAccepted(r, rEpoch, maxLen, record);
        }
      } else {
        NoneAccepted(r, rEpoch, maxLen, record);
      }
    }
  }

  lemma ChainMore(r: Ring, rEpoch: nat, maxLen: nat, f: Frag, more: seq<Frag>, after: seq<Ring>)
    requires RingOk(r) && FragOk(f) && FragsOk(more) && Chain(rEpoch, maxLen, more, after)
    requires Accept(r, rEpoch, maxLen, f.h, f.body) == Some(after[0])
    ensures FragsOk([f] + more) && Chain(rEpoch, maxLen, [f] + more, [r] + after)
  {
    hide RingOk, Accept;
    var frags, rings := [f] + more, [r] + after;
    forall i | 0 <= i < |rings| ensures RingOk(rings[i]) {
      if i > 0 { assert RingOk(after[i - 1]); }
    }
    forall i | 0 <= i < |frags| ensures Accept(rings[i], rEpoch, maxLen, frags[i].h, frags[i].body) == Some(rings[i + 1]) {
      if i > 0 { assert Accept(after[i - 1], rEpoch, maxLen, more[i - 1].h, more[i - 1].body) == Some(after[i]); }
    }
  }

  /**
    Any fragment at all is an error exactly when it reaches past its message, the message is too long,
    it is not the next one in epoch 1 or is seven ahead, or it disagrees with what the slot was opened for.
   */
  lemma RefusedAtAll(r: Ring, rEpoch: nat, maxLen: nat, h: HmHeader, body: seq<byte>)
    requires RingOk(r) && |body| == h.fragLen
    ensures |r.slots| == 7
    ensures Accept(r, rEpoch, maxLen, h, body).None? <==>
      || h.fragOff + h.fragLen > h.msgLen || h.msgLen > maxLen
      || (rEpoch == 1 && h.seqNum != r.readSeq) || h.seqNum == r.readSeq + 7
      || (Started(r, h.seqNum) && (r.slots[h.seqNum % 7].value.mtype != h.mtype || r.slots[h.seqNum % 7].value.msgLen != h.msgLen))
    ensures Accept(r, rEpoch, maxLen, h, body).Some? && !InWindow(r, h.seqNum) ==> Accept(r, rEpoch, maxLen, h, body) == Some(r)
  {
    hide Stored, PutHeader;
    assert SlotOk(r, h.seqNum % 7);
    NewType(h);
    if InWindow(r, h.seqNum) && r.slots[h.seqNum % 7].Some? {
      SameSlotSameNumber(r.readSeq, h.seqNum, r.slots[h.seqNum % 7].value.seqNum);
    }
  }

  // Fragments of what was sent.

  /** Bytes `off` to `off + todo` of message `k`. */
  datatype Piece = Piece(k: nat, off: nat, todo: nat)

  predicate IsPiece(queued: seq<Msg>, p: Piece) {
    p.k < |queued| && p.off + p.todo <= |queued[p.k].body| < 0x100_0000
  }

  /** The receiver has no reason to refuse it: not too long, the next one in epoch 1, not seven ahead. */
  predicate Welcome(r: Ring, rEpoch: nat, maxLen: nat, queued: seq<Msg>, p: Piece)
    requires IsPiece(queued, p)
  {
    |queued[p.k].body| <= maxLen && (rEpoch == 1 ==> p.k == r.readSeq) && p.k != r.readSeq + 7
  }

  predicate AllWelcome(r: Ring, rEpoch: nat, maxLen: nat, queued: seq<Msg>, ps: seq<Piece>) {
    forall i :: 0 <= i < |ps| ==> IsPiece(queued, ps[i]) && Welcome(r, rEpoch, maxLen, queued, ps[i])
  }

  predicate ArePieces(queued: seq<Msg>, ps: seq<Piece>) {
    forall i :: 0 <= i < |ps| ==> IsPiece(queued, ps[i])
  }

  /** A record of several fragments. */
  function RecordOf(queued: seq<Msg>, ps: seq<Piece>): seq<byte>
    requires ArePieces(queued, ps)
    decreases |ps|
  {
    if ps == [] then []
    else
      assert IsPiece(queued, ps[0]);
      FragmentBytes(queued[ps[0].k], ps[0].k, ps[0].off, ps[0].todo) + RecordOf(queued, ps[1..])
  }

  /** A slot has been opened for message `k`. */
  predicate Started(r: Ring, k: nat)
    requires |r.slots| == 7
  {
    r.slots[k % 7].Some? && r.slots[k % 7].value.seqNum == k
  }

  /** The bytes of message `k` that have arrived. */
  function Arrived(r: Ring, k: nat): set<nat>
    requires |r.slots| == 7
  {
    if Started(r, k) then r.slots[k % 7].value.marked else {}
  }

  /** The bytes of message `k` in the pieces. */
  function Covered(ps: seq<Piece>, k: nat): set<nat> {
    if ps == [] then {}
    else (if ps[0].k == k then Interval(ps[0].off, ps[0].off + ps[0].todo) else {}) + Covered(ps[1..], k)
  }

  predicate Mentioned(ps: seq<Piece>, k: nat) {
    exists i :: 0 <= i < |ps| && ps[i].k == k
  }

  predicate InWindow(r: Ring, k: nat) {
    r.readSeq <= k < r.readSeq + 7
  }

  /** What came with the pieces, for every message in the window. */
  ghost predicate Gained(r: Ring, r': Ring, ps: seq<Piece>)
    requires |r.slots| == |r'.slots| == 7
  {
    forall k: nat :: InWindow(r, k) ==> GainedOf(r, r', ps, k)
  }

  ghost predicate GainedOf(r: Ring, r': Ring, ps: seq<Piece>, k: nat)
    requires |r.slots| == |r'.slots| == 7
  {
    && (Started(r', k) <==> Started(r, k) || Mentioned(ps, k))
    && Arrived(r', k) == Arrived(r, k) + Covered(ps, k)
  }

  lemma WindowSlots(a: nat, b: nat, lo: nat)
    requires lo <= a < lo + 7 && lo <= b < lo + 7
    ensures a % 7 == b % 7 <==> a == b
  {
  }

  lemma StoredArrives(m: Incoming, off: nat, body: seq<byte>)
    requires IncomingOk(m) && off + |body| <= m.msgLen
    ensures Stored(m, off, body).marked == m.marked + Interval(off, off + |body|)
    ensures Stored(m, off, body).seqNum == m.seqNum
  {
  }

  lemma OnlyPiece(p: Piece, k: nat)
    ensures Covered([p], k) == (if p.k == k then Interval(p.off, p.off + p.todo) else {})
    ensures Mentioned([p], k) <==> p.k == k
  {
    assert [p][1..] == [];
    if p.k == k { assert [p][0].k == k; }
  }

  /** One fragment: its bytes are there, and everything else is as it was. */
  lemma PieceArrives(w: World, rEpoch: nat, maxLen: nat, p: Piece)
    requires Inv(w) && |w.queued| < TWO_16 && IsPiece(w.queued, p) && Welcome(w.ring, rEpoch, maxLen, w.queued, p)
    ensures var m := w.queued[p.k];
      var r := Accept(w.ring, rEpoch, maxLen, HmHeader(m.mtype, |m.body|, p.k, p.off, p.todo), m.body[p.off..p.off + p.todo]);
      r.Some? && r.value.readSeq == w.ring.readSeq && Inv(w.(ring := r.value)) && Gained(w.ring, r.value, [p])
  {
    hide Stored, HoldsPart, NewIncoming, IsFragment, InOrder, Interval, Covered, Mentioned;
    var m := w.queued[p.k];
    var h, body := HmHeader(m.mtype, |m.body|, p.k, p.off, p.todo), m.body[p.off..p.off + p.todo];
    RefusedExactly(w, rEpoch, maxLen, p.k, p.off, p.todo);
    AcceptHolds(w, rEpoch, maxLen, p.k, p.off, p.todo);
    AcceptKeepsRing(w.ring, rEpoch, maxLen, h, body);
    var r := Accept(w.ring, rEpoch, maxLen, h, body).value;
    forall k: nat | InWindow(w.ring, k) ensures GainedOf(w.ring, r, [p], k) {
      OnlyPiece(p, k);
      assert SlotOk(w.ring, p.k % 7);
      if InWindow(w.ring, p.k) {
        WindowSlots(p.k, k, w.ring.readSeq);
        SlotGains(w.ring, rEpoch, maxLen, h, body);
      }
    }
  }

  /** The slot the fragment goes into. */
  lemma SlotGains(r: Ring, rEpoch: nat, maxLen: nat, h: HmHeader, body: seq<byte>)
    requires RingOk(r) && |body| == h.fragLen && h.seqNum < TWO_16 && InWindow(r, h.seqNum)
    requires Accept(r, rEpoch, maxLen, h, body).Some?
    ensures var r' := Accept(r, rEpoch, maxLen, h, body).value;
      && |r'.slots| == 7 && Started(r', h.seqNum)
      && Arrived(r', h.seqNum) == Arrived(r, h.seqNum) + Interval(h.fragOff, h.fragOff + h.fragLen)
      && forall i :: 0 <= i < 7 && i != h.seqNum % 7 ==> r'.slots[i] == r.slots[i]
  {
    hide Stored, PutHeader, Interval;
    var idx := h.seqNum % 7;
    assert SlotOk(r, idx);
    if r.slots[idx].Some? {
      SameSlotSameNumber(r.readSeq, h.seqNum, r.slots[idx].value.seqNum);
      StoredArrives(r.slots[idx].value, h.fragOff, body);
    } else {
      StoredArrives(NewIncoming(h), h.fragOff, body);
    }
  }

  /** Nothing comes without pieces, and more with more of them. */
  lemma GainedMore(r: Ring, r1: Ring, r2: Ring, p: Piece, ps: seq<Piece>)
    requires |r.slots| == |r1.slots| == |r2.slots| == 7 && r1.readSeq == r.readSeq
    requires Gained(r, r1, [p]) && Gained(r1, r2, ps)
    ensures Gained(r, r2, [p] + ps)
  {
    hide Interval, Covered, Mentioned, Arrived, Started;
    forall k: nat | InWindow(r, k) ensures GainedOf(r, r2, [p] + ps, k) {
      OnlyPiece(p, k);
      CoveredMore(p, ps, k);
      assert GainedOf(r, r1, [p], k) && GainedOf(r1, r2, ps, k);
      assert Arrived(r, k) + Covered([p], k) + Covered(ps, k) == Arrived(r, k) + (Covered([p], k) + Covered(ps, k));
    }
  }

  lemma CoveredMore(p: Piece, ps: seq<Piece>, k: nat)
    ensures Covered([p] + ps, k) == Covered([p], k) + Covered(ps, k)
    ensures Mentioned([p] + ps, k) <==> Mentioned([p], k) || Mentioned(ps, k)
  {
    OnlyPiece(p, k);
    var all := [p] + ps;
    assert all[1..] == ps;
    if Mentioned(all, k) {
      var i :| 0 <= i < |all| && all[i].k == k;
      if i > 0 { assert ps[i - 1].k == k; }
    }
    if p.k == k { assert all[0].k == k; }
    if Mentioned(ps, k) {
      var i :| 0 <= i < |ps| && ps[i].k == k;
      assert all[i + 1].k == k;
    }
  }

  lemma NothingGained(r: Ring)
    requires |r.slots| == 7
    ensures Gained(r, r, [])
  {
  }

  /** A whole record, fragment by fragment. */
  lemma {:induction false} RecordArrives(w: World, rEpoch: nat, maxLen: nat, ps: seq<Piece>)
    requires Inv(w) && |w.queued| < TWO_16 && AllWelcome(w.ring, rEpoch, maxLen, w.queued, ps)
    ensures var (ok, r) := OpenRecord(w.ring, rEpoch, maxLen, RecordOf(w.queued, ps));
      ok && r.readSeq == w.ring.readSeq && Inv(w.(ring := r)) && |r.slots| == |w.ring.slots| == 7 && Gained(w.ring, r, ps)
    decreases |ps|
  {
    hide Inv, PutHeader, ParseFragment, Accept, Gained, Welcome;
    InvRing(w);
    if ps == [] {
      NothingGained(w.ring);
    } else {
      var p, m := ps[0], w.queued[ps[0].k];
      var h, body := HmHeader(m.mtype, |m.body|, p.k, p.off, p.todo), m.body[p.off..p.off + p.todo];
      var rest := RecordOf(w.queued, ps[1..]);
      FragmentRoundTrip(h, body, rest);
      PieceArrives(w, rEpoch, maxLen, p);
      var r := Accept(w.ring, rEpoch, maxLen, h, body).value;
      var w1 := w.(ring := r);
      InvRing(w1);
      StillWelcome(w.ring, r, rEpoch, maxLen, w.queued, ps);
      RecordArrives(w1, rEpoch, maxLen, ps[1..]);
      var r2 := OpenRecord(r, rEpoch, maxLen, rest).1;
      GainedMore(w.ring, r, r2, p, ps[1..]);
      assert [p] + ps[1..] == ps;
      assert w1.(ring := r2) == w.(ring := r2);
      assert PutHeader(h) + body + rest == RecordOf(w.queued, ps);
    }
  }

  lemma InvRing(w: World)
    requires Inv(w)
    ensures RingOk(w.ring) && |w.ring.slots| == 7
  {
  }

  lemma SameWelcome(r: Ring, r': Ring, rEpoch: nat, maxLen: nat, queued: seq<Msg>, ps: seq<Piece>)
    requires AllWelcome(r, rEpoch, maxLen, queued, ps) && r'.readSeq == r.readSeq
    ensures AllWelcome(r', rEpoch, maxLen, queued, ps)
  {
  }

  lemma StillWelcome(r: Ring, r': Ring, rEpoch: nat, maxLen: nat, queued: seq<Msg>, ps: seq<Piece>)
    requires ps != [] && AllWelcome(r, rEpoch, maxLen, queued, ps) && r'.readSeq == r.readSeq
    ensures AllWelcome(r', rEpoch, maxLen, queued, ps[1..])
  {
  }

  /** Records one after the other. */
  ghost function OpenAll(r: Ring, rEpoch: nat, maxLen: nat, queued: seq<Msg>, records: seq<seq<Piece>>): (r': Ring)
    requires RingOk(r) && forall i :: 0 <= i < |records| ==> ArePieces(queued, records[i])
    ensures RingOk(r')
    decreases |records|
  {
    if records == [] then r
    else OpenAll(OpenRecord(r, rEpoch, maxLen, RecordOf(queued, records[0])).1, rEpoch, maxLen, queued, records[1..])
  }

  function Flat(records: seq<seq<Piece>>): seq<Piece> {
    if records == [] then [] else records[0] + Flat(records[1..])
  }

  lemma {:induction false} GainedJoin(r: Ring, r1: Ring, r2: Ring, a: seq<Piece>, b: seq<Piece>)
    requires |r.slots| == |r1.slots| == |r2.slots| == 7 && r1.readSeq == r.readSeq
    requires Gained(r, r1, a) && Gained(r1, r2, b)
    ensures Gained(r, r2, a + b)
  {
    hide Interval, Covered, Mentioned, Arrived, Started;
    forall k: nat | InWindow(r, k) ensures GainedOf(r, r2, a + b, k) {
      CoveredJoin(a, b, k);
      assert GainedOf(r, r1, a, k) && GainedOf(r1, r2, b, k);
      assert Arrived(r, k) + Covered(a, k) + Covered(b, k) == Arrived(r, k) + (Covered(a, k) + Covered(b, k));
    }
  }

  lemma NothingCovered(k: nat)
    ensures Covered([], k) == {} && !Mentioned([], k)
  {
  }

  lemma {:induction false} CoveredJoin(a: seq<Piece>, b: seq<Piece>, k: nat)
    ensures Covered(a + b, k) == Covered(a, k) + Covered(b, k)
    ensures Mentioned(a + b, k) <==> Mentioned(a, k) || Mentioned(b, k)
    decreases |a|
  {
    hide Covered, Mentioned, Interval;
    if a == [] {
      NothingCovered(k);
      assert a + b == b;
    } else {
      var rest := a[1..];
      CoveredJoin(rest, b, k);
      CoveredMore(a[0], rest + b, k);
      CoveredMore(a[0], rest, k);
      assert [a[0]] + rest == a && [a[0]] + (rest + b) == a + b;
    }
  }

  lemma {:induction false} RecordsArrive(w: World, rEpoch: nat, maxLen: nat, records: seq<seq<Piece>>)
    requires Inv(w) && |w.queued| < TWO_16
    requires forall i :: 0 <= i < |records| ==> AllWelcome(w.ring, rEpoch, maxLen, w.queued, records[i])
    ensures RingOk(w.ring) && forall i :: 0 <= i < |records| ==> ArePieces(w.queued, records[i])
    ensures var r := OpenAll(w.ring, rEpoch, maxLen, w.queued, records);
      r.readSeq == w.ring.readSeq && Inv(w.(ring := r)) && |r.slots| == |w.ring.slots| == 7 && Gained(w.ring, r, Flat(records))
    decreases |records|
  {
    hide Inv, OpenRecord, Gained, RecordOf, RingOk, Welcome;
    InvRing(w);
    forall i | 0 <= i < |records| ensures ArePieces(w.queued, records[i]) {
      assert AllWelcome(w.ring, rEpoch, maxLen, w.queued, records[i]);
    }
    if records == [] {
      NothingGained(w.ring);
    } else {
      RecordArrives(w, rEpoch, maxLen, records[0]);
      var r := OpenRecord(w.ring, rEpoch, maxLen, RecordOf(w.queued, records[0])).1;
      var w1 := w.(ring := r);
      forall i | 0 <= i < |records[1..]| ensures AllWelcome(r, rEpoch, maxLen, w.queued, records[1..][i]) {
        assert AllWelcome(w.ring, rEpoch, maxLen, w.queued, records[i + 1]);
        SameWelcome(w.ring, r, rEpoch, maxLen, w.queued, records[i + 1]);
      }
      RecordsArrive(w1, rEpoch, maxLen, records[1..]);
      var r2 := OpenAll(r, rEpoch, maxLen, w.queued, records[1..]);
      GainedJoin(w.ring, r, r2, records[0], Flat(records[1..]));
      assert w1.(ring := r2) == w.(ring := r2);
    }
  }

  /** Message `k` is there: its slot was opened, and all of its bytes have come. */
  predicate Whole(queued: seq<Msg>, r: Ring, k: nat)
    requires |r.slots| == 7
  {
    k < |queued| && Started(r, k) && forall b :: 0 <= b < |queued[k].body| ==> b in Arrived(r, k)
  }

  /** The next message, once it is whole, is taken out, and the others stay. */
  lemma WholeIsTaken(w: World)
    requires Inv(w) && |w.queued| < TWO_16 && |w.ring.slots| == 7 && Whole(w.queued, w.ring, w.ring.readSeq)
    ensures Enabled(w, Take) && Current(w.ring) == Some(Raw(w.queued[w.ring.readSeq], w.ring.readSeq))
    ensures var w' := Do(w, Take);
      && Inv(w') && |w'.ring.slots| == 7 && w'.queued == w.queued && w'.ring.readSeq == w.ring.readSeq + 1
      && w'.delivered == w.delivered + [Raw(w.queued[w.ring.readSeq], w.ring.readSeq)]
      && forall k: nat :: w.ring.readSeq < k < w.ring.readSeq + 7 && Whole(w.queued, w.ring, k) ==> Whole(w.queued, w'.ring, k)
  {
    hide Raw, IsFragment, InOrder;
    var k := w.ring.readSeq;
    assert SlotOk(w.ring, k % 7);
    var m := w.ring.slots[k % 7].value;
    assert HoldsPart(w.queued, m);
    assert Arrived(w.ring, k) == m.marked;
    AllMarked(m, w.queued, k);
    CompleteIsRaw(w.queued, m);
    TakeKeeps(w);
    forall j: nat | k < j < k + 7 && Whole(w.queued, w.ring, j) ensures Whole(w.queued, Do(w, Take).ring, j) {
      WindowSlots(k, j, k);
      assert Do(w, Take).ring.slots[j % 7] == w.ring.slots[j % 7];
      assert Arrived(Do(w, Take).ring, j) == Arrived(w.ring, j);
    }
  }

  lemma AllMarked(m: Incoming, queued: seq<Msg>, k: nat)
    requires HoldsPart(queued, m) && m.seqNum == k
    requires forall b :: 0 <= b < |queued[k].body| ==> b in m.marked
    ensures IsComplete(m)
  {
  }

  ghost function TakeAll(w: World, n: nat): World
    decreases n
  {
    if n == 0 || !Enabled(w, Take) then w else TakeAll(Do(w, Take), n - 1)
  }

  /** The raw messages from number `k` on. */
  function RawFrom(queued: seq<Msg>, k: nat, n: nat): seq<seq<byte>>
    requires k + n <= |queued|
    decreases n
  {
    if n == 0 then [] else [Raw(queued[k], k)] + RawFrom(queued, k + 1, n - 1)
  }

  lemma {:induction false} WholeAreTaken(w: World, n: nat)
    requires Inv(w) && |w.queued| < TWO_16 && |w.ring.slots| == 7 && n <= 7 && w.ring.readSeq + n <= |w.queued|
    requires forall k: nat :: w.ring.readSeq <= k < w.ring.readSeq + n ==> Whole(w.queued, w.ring, k)
    ensures TakeAll(w, n).delivered == w.delivered + RawFrom(w.queued, w.ring.readSeq, n)
    decreases n
  {
    hide Inv, Raw, Whole, Enabled, Do;
    if n > 0 {
      WholeIsTaken(w);
      WholeAreTaken(Do(w, Take), n - 1);
    }
  }

  /**
    From any reachable state: when the pieces in some records, in any order and with any repetitions,
    cover the next messages, all of these can be taken out one after the other, byte for byte.
   */
  lemma FlightArrives(steps: seq<Step>, w: World, rEpoch: nat, maxLen: nat, records: seq<seq<Piece>>, n: nat)
    requires Reached(steps, w) && |w.queued| < TWO_16 && n <= 7 && |w.delivered| + n <= |w.queued|
    requires forall i :: 0 <= i < |records| ==> AllWelcome(w.ring, rEpoch, maxLen, w.queued, records[i])
    requires forall k: nat :: |w.delivered| <= k < |w.delivered| + n ==>
      Mentioned(Flat(records), k) && forall b :: 0 <= b < |w.queued[k].body| ==> b in Covered(Flat(records), k)
    ensures RingOk(w.ring) && forall i :: 0 <= i < |records| ==> ArePieces(w.queued, records[i])
    ensures TakeAll(w.(ring := OpenAll(w.ring, rEpoch, maxLen, w.queued, records)), n).delivered
         == w.delivered + RawFrom(w.queued, |w.delivered|, n)
  {
    hide Reached, Inv, AllWelcome, Mentioned, Covered, Gained, TakeAll, RawFrom, OpenAll, Started, Arrived;
    DeliveredInOrder(steps, w);
    InvRing(w);
    InvSeq(w);
    RecordsArrive(w, rEpoch, maxLen, records);
    var r := OpenAll(w.ring, rEpoch, maxLen, w.queued, records);
    forall k: nat | w.ring.readSeq <= k < w.ring.readSeq + n ensures Whole(w.queued, r, k) {
      GainedAt(w.ring, r, Flat(records), k);
    }
    WholeAreTaken(w.(ring := r), n);
  }

  lemma InvSeq(w: World)
    requires Inv(w)
    ensures w.ring.readSeq == |w.delivered|
  {
  }

  lemma GainedAt(r: Ring, r': Ring, ps: seq<Piece>, k: nat)
    requires |r.slots| == |r'.slots| == 7 && Gained(r, r', ps) && InWindow(r, k)
    ensures GainedOf(r, r', ps, k)
  {
  }
}
