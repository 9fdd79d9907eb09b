/** The receiving half of d1_both.cc on values: a ring of seven messages being assembled. */
module DtlsReceive {
  import opened Bits
  import opened HandshakeFragment
  import opened DtlsFlight
  import opened Reassembly
  import opened ByteString

  /** What an hm_fragment holds: header and body bytes, and which body bytes have arrived. */
  datatype Incoming = Incoming(mtype: byte, seqNum: nat, msgLen: nat, data: seq<byte>, marked: set<nat>)

  datatype Ring = Ring(readSeq: nat, slots: seq<Option<Incoming>>)

  predicate RingSized(r: Ring) {
    |r.slots| == MAX_HANDSHAKE_FLIGHT
  }

  predicate IncomingOk(m: Incoming) {
    |m.data| == HM_HEADER_LENGTH + m.msgLen && forall b :: b in m.marked ==> b < m.msgLen
  }

  /** Slot `i` is empty, or holds the one number of the current window that is `i` modulo seven. */
  predicate SlotOk(r: Ring, i: nat)
    requires i < |r.slots|
  {
    r.slots[i].Some? ==>
      var m := r.slots[i].value;
      IncomingOk(m) && r.readSeq <= m.seqNum < r.readSeq + MAX_HANDSHAKE_FLIGHT && m.seqNum < TWO_16
      && m.seqNum % MAX_HANDSHAKE_FLIGHT == i
  }

  predicate RingOk(r: Ring) {
    RingSized(r) && r.readSeq < TWO_16 && forall i :: 0 <= i < MAX_HANDSHAKE_FLIGHT ==> SlotOk(r, i)
  }

  ghost predicate IsComplete(m: Incoming) {
    Covers(m.marked, 0, m.msgLen)
  }

  /** dtls1_hm_fragment_new. */
  function NewIncoming(h: HmHeader): Incoming {
    Incoming(h.mtype, h.seqNum, h.msgLen,
             PutHeader(HmHeader(h.mtype, h.msgLen, h.seqNum, 0, h.msgLen)) + seq(h.msgLen, _ => 0), {})
  }

  /** A message after bytes `off` on have been copied in and marked, unless it was complete already. */
  ghost function Stored(m: Incoming, off: nat, body: seq<byte>): Incoming
    requires IncomingOk(m) && off + |body| <= m.msgLen
  {
    if IsComplete(m) then m
    else m.(data := Patched(m.data, HM_HEADER_LENGTH + off, body), marked := m.marked + Interval(off, off + |body|))
  }

  predicate HeaderOk(h: HmHeader, maxLen: nat) {
    h.fragOff + h.fragLen <= h.msgLen <= maxLen
  }

  /**
    One fragment of dtls1_open_handshake, lines 389 to 436; None is an error, and leaves the ring
    as it was. A number seven ahead passes the window check here and fails the one in
    dtls1_get_incoming_message.
   */
  ghost function Accept(r: Ring, rEpoch: nat, maxLen: nat, h: HmHeader, body: seq<byte>): Option<Ring>
    requires RingOk(r) && |body| == h.fragLen
  {
    if !HeaderOk(h, maxLen) then None
    else if rEpoch == 1 && h.seqNum != r.readSeq then None
    else if h.seqNum < r.readSeq || h.seqNum > r.readSeq + MAX_HANDSHAKE_FLIGHT then Some(r)
    else if h.seqNum - r.readSeq >= MAX_HANDSHAKE_FLIGHT then None
    else
      var idx := h.seqNum % MAX_HANDSHAKE_FLIGHT;
      assert SlotOk(r, idx);
      var m := if r.slots[idx].Some? then r.slots[idx].value else NewIncoming(h);
      if m.mtype != h.mtype || m.msgLen != h.msgLen then None
      else Some(r.(slots := r.slots[idx := Some(Stored(m, h.fragOff, body))]))
  }

  /** The window keeps its shape; the numbers in it stay apart modulo seven. */
  lemma AcceptKeepsRing(r: Ring, rEpoch: nat, maxLen: nat, h: HmHeader, body: seq<byte>)
    requires RingOk(r) && |body| == h.fragLen && h.seqNum < TWO_16
    requires Accept(r, rEpoch, maxLen, h, body).Some?
    ensures RingOk(Accept(r, rEpoch, maxLen, h, body).value)
    ensures Accept(r, rEpoch, maxLen, h, body).value.readSeq == r.readSeq
  {
    hide PutHeader, Covers;
    var r' := Accept(r, rEpoch, maxLen, h, body).value;
    if r' != r {
      var idx := h.seqNum % MAX_HANDSHAKE_FLIGHT;
      assert SlotOk(r, idx);
      if r.slots[idx].Some? { SameSlotSameNumber(r.readSeq, h.seqNum, r.slots[idx].value.seqNum); }
      forall i | 0 <= i < MAX_HANDSHAKE_FLIGHT ensures SlotOk(r', i) { assert SlotOk(r, i); }
    }
  }

  /** The assertion of line 277: within one window, a slot determines the number. */
  lemma SameSlotSameNumber(lo: nat, a: nat, b: nat)
    requires lo <= a < lo + MAX_HANDSHAKE_FLIGHT && lo <= b < lo + MAX_HANDSHAKE_FLIGHT
    requires a % MAX_HANDSHAKE_FLIGHT == b % MAX_HANDSHAKE_FLIGHT
    ensures a == b
  {
  }

  /** The loop of dtls1_open_handshake over a handshake record; false when it ends in an error. */
  ghost function OpenRecord(r: Ring, rEpoch: nat, maxLen: nat, record: seq<byte>): (result: (bool, Ring))
    requires RingOk(r)
    ensures RingOk(result.1) && result.1.readSeq == r.readSeq
    decreases |record|
  {
    if record == [] then (true, r)
    else
      match ParseFragment(record)
      case None => (false, r)
      case Some((h, body, rest)) =>
        NumberFits(record);
        match Accept(r, rEpoch, maxLen, h, body)
        case None => (false, r)
        case Some(r') =>
          AcceptKeepsRing(r, rEpoch, maxLen, h, body);
          OpenRecord(r', rEpoch, maxLen, rest)
  }

  lemma NumberFits(s: seq<byte>)
    requires ParseFragment(s).Some?
    ensures InRange(ParseFragment(s).value.0)
  {
    hide Pow2, BigEndian;
    Pow2Of24();
    FieldFits(s, 1);
    var s1 := s[1..];
    FieldFits(s1, 3);
    FieldFits(s1[3..], 2);
    FieldFits(s1[3..][2..], 3);
    FieldFits(s1[3..][2..][3..], 3);
  }

  lemma FieldFits(s: seq<byte>, n: nat)
    requires n <= |s|
    ensures GetBig(s, n).Some? && GetBig(s, n).value.0 < Pow2(8 * n) && GetBig(s, n).value.1 == s[n..]
  {
    BigEndianBound(s[..n]);
  }

  /** dtls1_get_message: the raw current message, once it is complete. */
  ghost function Current(r: Ring): Option<seq<byte>>
    requires RingOk(r)
  {
    var slot := r.slots[r.readSeq % MAX_HANDSHAKE_FLIGHT];
    if slot.Some? && IsComplete(slot.value) then Some(slot.value.data) else None
  }

  /** dtls1_next_message. */
  function Next(r: Ring): (r': Ring)
    requires RingOk(r)
    ensures RingOk(r')
  {
    var r' := Ring((r.readSeq + 1) % TWO_16, r.slots[r.readSeq % MAX_HANDSHAKE_FLIGHT := None]);
    NextKeepsRing(r);
    r'
  }

  lemma NextKeepsRing(r: Ring)
    requires RingOk(r)
    ensures RingOk(Ring((r.readSeq + 1) % TWO_16, r.slots[r.readSeq % MAX_HANDSHAKE_FLIGHT := None]))
  {
    var r' := Ring((r.readSeq + 1) % TWO_16, r.slots[r.readSeq % MAX_HANDSHAKE_FLIGHT := None]);
    forall i | 0 <= i < MAX_HANDSHAKE_FLIGHT
      ensures SlotOk(r', i)
    {
      assert SlotOk(r, i);
    }
  }

  /** dtls_has_unprocessed_handshake_data, on the ring. */
  predicate HasUnprocessed(r: Ring, hasMessage: bool)
    requires RingSized(r)
  {
    exists i :: 0 <= i < MAX_HANDSHAKE_FLIGHT && r.slots[i].Some?
                && !(hasMessage && i == r.readSeq % MAX_HANDSHAKE_FLIGHT)
  }
}
