/** The receiving half of d1_both.cc in place: every method does to the ring what DtlsReceive says. */
module DtlsReceiver {
  import opened Bits
  import opened HandshakeFragment
  import opened DtlsFlight
  import opened Reassembly
  import opened DtlsReceive

  const RT_APPLICATION_DATA: byte := 23
  const MT_CCS: byte := 1

  datatype OpenResult = Success | Discard | Error

  /** The object stands for the value of a slot. */
  ghost predicate Is(f: HmFragment?, slot: Option<Incoming>)
    reads f, if f == null then {} else {f.data, f.reassembly}
  {
    if f == null then slot.None?
    else f.Valid() && slot == Some(Incoming(f.mtype, f.seqNum, f.msgLen, f.data[..], f.marked))
  }

  /** The objects of a slot. */
  ghost function Parts(f: HmFragment?): set<object>
    reads f
  {
    if f == null then {} else {f, f.data} + (if f.reassembly == null then {} else {f.reassembly})
  }

  class Receiver {
    var readSeq: nat                      // handshake_read_seq
    const incoming: array<HmFragment?>    // incoming_messages
    var hasMessage: bool
    var hasCcs: bool                      // has_change_cipher_spec
    ghost var ring: Ring                  // what the fields stand for
    ghost var Repr: set<object>

    ghost predicate Valid()
      reads this, Repr
    {
      && this in Repr && incoming in Repr && incoming.Length == MAX_HANDSHAKE_FLIGHT
      && RingOk(ring) && ring.readSeq == readSeq
      && (forall i :: 0 <= i < MAX_HANDSHAKE_FLIGHT ==> incoming[i] != null ==> incoming[i] in Repr)
      && (forall i :: 0 <= i < MAX_HANDSHAKE_FLIGHT ==>
            Parts(incoming[i]) <= Repr - {this, incoming} && Is(incoming[i], ring.slots[i]))
      && (forall i, j :: 0 <= i < j < MAX_HANDSHAKE_FLIGHT ==> Parts(incoming[i]) !! Parts(incoming[j]))
    }

    constructor ()
      ensures Valid() && fresh(Repr) && ring == Ring(0, seq(MAX_HANDSHAKE_FLIGHT, _ => None)) && !hasMessage && !hasCcs
    {
      readSeq, hasMessage, hasCcs := 0, false, false;
      incoming := new HmFragment?[MAX_HANDSHAKE_FLIGHT](_ => null);
      ring := Ring(0, seq(MAX_HANDSHAKE_FLIGHT, _ => None));
      Repr := {this, incoming};
    }

    /** dtls1_get_incoming_message; the caller has checked the window up to seven. */
    method GetIncoming(h: HmHeader) returns (f: HmFragment?)
      requires Valid() && InRange(h)
      modifies Repr
      ensures Valid() && fresh(Repr - old(Repr)) && unchanged(`readSeq) && unchanged(`hasMessage) && unchanged(`hasCcs)
      ensures f == null ==> ring == old(ring)
      ensures f == null <==>
        || h.seqNum < readSeq || h.seqNum - readSeq >= MAX_HANDSHAKE_FLIGHT
        || (var slot := old(ring).slots[h.seqNum % MAX_HANDSHAKE_FLIGHT];
            slot.Some? && Mismatch(slot.value, h))
      ensures f != null ==>
        var idx := h.seqNum % MAX_HANDSHAKE_FLIGHT;
        && f == incoming[idx]
        && ring == old(ring).(slots := old(ring).slots[idx :=
             if old(ring).slots[idx].Some? then old(ring).slots[idx] else Some(NewIncoming(h))])
    {
      hide RingOk, PutHeader;
      assert RingSized(ring) && readSeq < TWO_16 by { RingShape(ring); }
      if h.seqNum < readSeq || h.seqNum - readSeq >= MAX_HANDSHAKE_FLIGHT {
        return null;
      }
      var idx := h.seqNum % MAX_HANDSHAKE_FLIGHT;
      f := incoming[idx];
      assert Is(f, ring.slots[idx]);
      if f != null {
        if f.mtype != h.mtype || f.msgLen != h.msgLen {
          return null;
        }
        assert ring.slots[idx := ring.slots[idx]] == ring.slots;
        return;
      }
      f := new HmFragment(h);
      NewKeepsRing(ring, h);
      assert f.data[..] == NewIncoming(h).data;
      incoming[idx] := f;
      ring := ring.(slots := ring.slots[idx := Some(NewIncoming(h))]);
      Repr := Repr + Parts(f);
    }

    /** One turn of the loop of dtls1_open_handshake, lines 389 to 436. */
    method AcceptFragment(h: HmHeader, body: seq<byte>, rEpoch: nat, maxLen: nat) returns (ok: bool)
      requires Valid() && InRange(h) && |body| == h.fragLen
      modifies Repr
      ensures Valid() && fresh(Repr - old(Repr)) && unchanged(`readSeq) && unchanged(`hasMessage) && unchanged(`hasCcs)
      ensures ok == Accept(old(ring), rEpoch, maxLen, h, body).Some?
      ensures ring == if ok then Accept(old(ring), rEpoch, maxLen, h, body).value else old(ring)
    {
      hide RingOk, Is, Stored, NewIncoming, Accept;
      AcceptGuards(ring, rEpoch, maxLen, h, body);
      if h.fragOff > h.msgLen || h.fragOff + h.fragLen > h.msgLen || h.msgLen > maxLen {
        return false;
      }
      if rEpoch == 1 && h.seqNum != readSeq {
        return false;
      }
      if h.seqNum < readSeq || h.seqNum > readSeq + MAX_HANDSHAKE_FLIGHT {
        return true;
      }
      AcceptKnown(ring, rEpoch, maxLen, h, body);
      var f := GetIncoming(h);
      if f == null {
        return false;
      }
      ghost var idx := h.seqNum % MAX_HANDSHAKE_FLIGHT;
      RingShape(ring);
      assert Is(f, ring.slots[idx]);
      AcceptAt(old(ring), ring, rEpoch, maxLen, h, body);
      IsFacts(f, ring.slots[idx]);
      if f.reassembly == null {
        StoredComplete(ring.slots[idx].value, h.fragOff, body);
        assert ring.slots[idx := ring.slots[idx]] == ring.slots;
        return true;
      }
      StoreInto(h.seqNum % MAX_HANDSHAKE_FLIGHT, h.fragOff, body);
      ok := true;
    }

    /** The copy and the mark, lines 432 to 435, on an incomplete message. */
    method StoreInto(idx: nat, off: nat, body: seq<byte>)
      requires Valid() && idx < MAX_HANDSHAKE_FLIGHT && incoming[idx] != null
      requires incoming[idx].reassembly != null && off + |body| <= incoming[idx].msgLen
      modifies Repr
      ensures Valid() && Repr == old(Repr) && unchanged(`readSeq) && unchanged(`hasMessage) && unchanged(`hasCcs)
      ensures |old(ring).slots| == MAX_HANDSHAKE_FLIGHT && SlotStorable(old(ring), idx, off, body)
      ensures ring == old(ring).(slots := old(ring).slots[idx := Some(Stored(old(ring).slots[idx].value, off, body))])
    {
      hide RingOk, Stored, Is, Interval, Patched, Covers, Masks;
      RingShape(ring);
      var f := incoming[idx];
      assert Is(f, ring.slots[idx]);
      IsFacts(f, ring.slots[idx]);
      StoredIs(ring, idx, off, body);
      f.Receive(off, body);
      IsStored(f, ring.slots[idx].value, off, body);
      ring := ring.(slots := ring.slots[idx := Some(Stored(ring.slots[idx].value, off, body))]);
    }

    /** dtls1_open_handshake on a record that dtls_open_record let through. */
    method OpenHandshake(rtype: byte, record: seq<byte>, nullCipher: bool, rEpoch: nat, maxLen: nat)
        returns (result: OpenResult)
      requires Valid()
      modifies Repr
      ensures Valid() && fresh(Repr - old(Repr)) && unchanged(`readSeq) && unchanged(`hasMessage)
      ensures rtype == RT_HANDSHAKE ==>
        (result.Success?, ring) == OpenRecord(old(ring), rEpoch, maxLen, record) && hasCcs == old(hasCcs)
      ensures rtype != RT_HANDSHAKE ==> ring == old(ring)
      ensures rtype != RT_HANDSHAKE ==>
        var goodCcs := rtype == RT_CHANGE_CIPHER_SPEC && nullCipher && record == [MT_CCS];
        && (result.Success? <==> goodCcs) && hasCcs == (old(hasCcs) || goodCcs)
        && (result.Discard? <==> rtype == RT_APPLICATION_DATA && !nullCipher)
    {
      hide RingOk, Accept, ParseFragment, Is;
      if rtype == RT_APPLICATION_DATA {
        return if nullCipher then Error else Discard;
      } else if rtype == RT_CHANGE_CIPHER_SPEC {
        if !nullCipher || |record| != 1 || record[0] != MT_CCS {
          return Error;
        }
        hasCcs := true;
        return Success;
      } else if rtype != RT_HANDSHAKE {
        return Error;
      }
      var cbs := record;
      while |cbs| > 0
        invariant Valid() && fresh(Repr - old(Repr)) && unchanged(`readSeq) && unchanged(`hasMessage) && unchanged(`hasCcs)
        invariant RingOk(old(ring)) && RingOk(ring)
        invariant OpenRecord(old(ring), rEpoch, maxLen, record) == OpenRecord(ring, rEpoch, maxLen, cbs)
        decreases |cbs|
      {
        ghost var before, was := ring, cbs;
        var parsed := ParseFragment(cbs);
        if parsed.None? {
          return Error;
        }
        NumberFits(cbs);
        cbs := parsed.value.2;
        var ok := AcceptFragment(parsed.value.0, parsed.value.1, rEpoch, maxLen);
        if !ok {
          return Error;
        }
      }
      result := Success;
    }

    /** dtls1_get_message; `raw` is the whole message with its header. */
    method GetMessage() returns (ok: bool, raw: seq<byte>)
      requires Valid()
      modifies this`hasMessage
      ensures Valid() && hasMessage == (old(hasMessage) || ok)
      ensures ok == Current(ring).Some?
      ensures ok ==> Current(ring) == Some(raw)
    {
      hide Is;
      var f := incoming[readSeq % MAX_HANDSHAKE_FLIGHT];
      assert Is(f, ring.slots[readSeq % MAX_HANDSHAKE_FLIGHT]);
      if f == null {
        IsNone(ring.slots[readSeq % MAX_HANDSHAKE_FLIGHT]);
        return false, [];
      }
      IsFacts(f, ring.slots[readSeq % MAX_HANDSHAKE_FLIGHT]);
      if f.reassembly != null {
        return false, [];
      }
      raw := f.data[..];
      hasMessage := true;
      ok := true;
    }

    /** dtls1_next_message, once the current message is complete. */
    method NextMessage()
      requires Valid() && hasMessage && Current(ring).Some?
      modifies this, incoming
      ensures Valid() && ring == Next(old(ring)) && !hasMessage && hasCcs == old(hasCcs) && Repr == old(Repr)
    {
      hide Is, RingOk;
      RingShape(ring);
      var index := readSeq % MAX_HANDSHAKE_FLIGHT;
      incoming[index] := null;
      EmptyIs();
      NextFields(ring);
      ring := Next(ring);
      readSeq := (readSeq + 1) % TWO_16;
      hasMessage := false;
    }

    /** dtls_has_unprocessed_handshake_data. */
    method HasUnprocessedData() returns (unprocessed: bool)
      requires Valid()
      ensures unprocessed <==> hasCcs || HasUnprocessed(ring, hasMessage)
    {
      hide RingOk;
      RingShape(ring);
      if hasCcs {
        return true;
      }
      var current := readSeq % MAX_HANDSHAKE_FLIGHT;
      for i := 0 to MAX_HANDSHAKE_FLIGHT
        invariant forall j :: 0 <= j < i && ring.slots[j].Some? ==> hasMessage && j == current
      {
        assert Is(incoming[i], ring.slots[i]);
        if hasMessage && i == current {
        } else if incoming[i] != null {
          return true;
        }
      }
      unprocessed := false;
    }
  }

  lemma IsNone(slot: Option<Incoming>)
    requires Is(null, slot)
    ensures slot.None?
  {
  }

  lemma EmptyIs()
    ensures Is(null, None)
  {
  }

  lemma NextFields(r: Ring)
    requires RingOk(r)
    ensures Next(r) == Ring((r.readSeq + 1) % TWO_16, r.slots[r.readSeq % MAX_HANDSHAKE_FLIGHT := None])
  {
  }

  predicate Mismatch(m: Incoming, h: HmHeader) {
    m.mtype != h.mtype || m.msgLen != h.msgLen
  }

  /** The checks of dtls1_open_handshake and dtls1_get_incoming_message, in their order. */
  lemma AcceptGuards(r: Ring, rEpoch: nat, maxLen: nat, h: HmHeader, body: seq<byte>)
    requires RingOk(r) && |body| == h.fragLen
    ensures var result := Accept(r, rEpoch, maxLen, h, body);
      var slot := r.slots[h.seqNum % MAX_HANDSHAKE_FLIGHT];
      && (!HeaderOk(h, maxLen) || (rEpoch == 1 && h.seqNum != r.readSeq) ==> result.None?)
      && (HeaderOk(h, maxLen) && !(rEpoch == 1 && h.seqNum != r.readSeq) ==>
            && (h.seqNum < r.readSeq || h.seqNum > r.readSeq + MAX_HANDSHAKE_FLIGHT ==> result == Some(r))
            && (h.seqNum == r.readSeq + MAX_HANDSHAKE_FLIGHT ==> result.None?)
            && (r.readSeq <= h.seqNum < r.readSeq + MAX_HANDSHAKE_FLIGHT && slot.Some? && Mismatch(slot.value, h)
                ==> result.None?))
  {
    hide Stored, PutHeader;
  }

  lemma AcceptKnown(r: Ring, rEpoch: nat, maxLen: nat, h: HmHeader, body: seq<byte>)
    requires RingOk(r) && |body| == h.fragLen && h.seqNum < TWO_16
    ensures Accept(r, rEpoch, maxLen, h, body).Some? ==> RingOk(Accept(r, rEpoch, maxLen, h, body).value)
  {
    if Accept(r, rEpoch, maxLen, h, body).Some? { AcceptKeepsRing(r, rEpoch, maxLen, h, body); }
  }

  /** Accept in two steps: find or make the slot, then store. */
  lemma AcceptAt(r: Ring, r1: Ring, rEpoch: nat, maxLen: nat, h: HmHeader, body: seq<byte>)
    requires RingOk(r) && RingOk(r1) && |body| == h.fragLen && HeaderOk(h, maxLen) && !(rEpoch == 1 && h.seqNum != r.readSeq)
    requires r.readSeq <= h.seqNum < r.readSeq + MAX_HANDSHAKE_FLIGHT
    requires var idx := h.seqNum % MAX_HANDSHAKE_FLIGHT;
      && (r.slots[idx].Some? ==> r.slots[idx].value.mtype == h.mtype && r.slots[idx].value.msgLen == h.msgLen)
      && r1 == r.(slots := r.slots[idx := if r.slots[idx].Some? then r.slots[idx] else Some(NewIncoming(h))])
    ensures var idx := h.seqNum % MAX_HANDSHAKE_FLIGHT;
      && r1.slots[idx].Some? && IncomingOk(r1.slots[idx].value) && r1.slots[idx].value.msgLen == h.msgLen
      && Accept(r, rEpoch, maxLen, h, body)
         == Some(r1.(slots := r1.slots[idx := Some(Stored(r1.slots[idx].value, h.fragOff, body))]))
  {
    hide PutHeader, Stored;
    var idx := h.seqNum % MAX_HANDSHAKE_FLIGHT;
    assert SlotOk(r1, idx);
    assert r1.slots[idx := None] == r.slots[idx := None];
    var m := Some(Stored(r1.slots[idx].value, h.fragOff, body));
    assert r1.slots[idx := m] == r.slots[idx := m];
  }

  lemma IsFacts(f: HmFragment, slot: Option<Incoming>)
    requires Is(f, slot)
    ensures f.Valid() && slot == Some(Incoming(f.mtype, f.seqNum, f.msgLen, f.data[..], f.marked))
    ensures f.reassembly == null <==> IsComplete(slot.value)
    ensures IncomingOk(slot.value)
  {
    hide Covers, Masks;
  }

  lemma StoredComplete(m: Incoming, off: nat, body: seq<byte>)
    requires IncomingOk(m) && off + |body| <= m.msgLen && IsComplete(m)
    ensures Stored(m, off, body) == m
  {
  }

  predicate SlotStorable(r: Ring, idx: nat, off: nat, body: seq<byte>) {
    && idx < |r.slots| && r.slots[idx].Some? && IncomingOk(r.slots[idx].value)
    && off + |body| <= r.slots[idx].value.msgLen
  }

  lemma StoredIs(r: Ring, idx: nat, off: nat, body: seq<byte>)
    requires RingOk(r) && SlotStorable(r, idx, off, body)
    ensures RingOk(r.(slots := r.slots[idx := Some(Stored(r.slots[idx].value, off, body))]))
  {
    hide Covers;
    var r' := r.(slots := r.slots[idx := Some(Stored(r.slots[idx].value, off, body))]);
    forall i | 0 <= i < MAX_HANDSHAKE_FLIGHT ensures SlotOk(r', i) { assert SlotOk(r, i); }
  }

  /** The object after Receive is the stored value. */
  lemma IsStored(f: HmFragment, m: Incoming, off: nat, body: seq<byte>)
    requires f.Valid() && IncomingOk(m) && !IsComplete(m) && off + |body| <= m.msgLen
    requires f.mtype == m.mtype && f.seqNum == m.seqNum && f.msgLen == m.msgLen
    requires f.data[..] == Patched(m.data, HM_HEADER_LENGTH + off, body)
    requires f.marked == m.marked + Interval(off, off + |body|)
    ensures Is(f, Some(Stored(m, off, body)))
  {
    hide Covers, Masks, Patched, Interval;
  }

  lemma RingShape(r: Ring)
    requires RingOk(r)
    ensures RingSized(r) && r.readSeq < TWO_16
  {
  }

  lemma NewKeepsRing(r: Ring, h: HmHeader)
    requires RingOk(r) && r.readSeq <= h.seqNum < r.readSeq + MAX_HANDSHAKE_FLIGHT && h.seqNum < TWO_16
    ensures RingOk(r.(slots := r.slots[h.seqNum % MAX_HANDSHAKE_FLIGHT := Some(NewIncoming(h))]))
  {
    var r' := r.(slots := r.slots[h.seqNum % MAX_HANDSHAKE_FLIGHT := Some(NewIncoming(h))]);
    forall i | 0 <= i < MAX_HANDSHAKE_FLIGHT ensures SlotOk(r', i) { assert SlotOk(r, i); }
  }
}
