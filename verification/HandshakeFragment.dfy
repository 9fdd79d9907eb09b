/** DTLS handshake fragments on the wire, section 4.2.2 of RFC 6347. */
module HandshakeFragment {
  import opened Bits
  import opened ByteString

  const HM_HEADER_LENGTH: nat := 12  // DTLS1_HM_HEADER_LENGTH

  /** hm_header_st. */
  datatype HmHeader = HmHeader(mtype: byte, msgLen: nat, seqNum: nat, fragOff: nat, fragLen: nat)

  predicate InRange(h: HmHeader) {
    h.msgLen < TWO_24 && h.seqNum < TWO_16 && h.fragOff < TWO_24 && h.fragLen < TWO_24
  }

  /** The header as the CBB_add calls of seal_next_message and dtls1_hm_fragment_new write it. */
  function PutHeader(h: HmHeader): (r: seq<byte>)
    ensures |r| == HM_HEADER_LENGTH
  {
    [h.mtype] + PutBig(h.msgLen, 3) + PutBig(h.seqNum, 2) + PutBig(h.fragOff, 3) + PutBig(h.fragLen, 3)
  }

  /** dtls1_parse_fragment: the header, the body of `frag_len` bytes, and what follows. */
  function ParseFragment(s: seq<byte>): (r: Option<(HmHeader, seq<byte>, seq<byte>)>)
    ensures r.Some? ==> |r.value.1| == r.value.0.fragLen && |r.value.2| + HM_HEADER_LENGTH + |r.value.1| == |s|
  {
    var (mtype, s1) :- GetBig(s, 1);
    var (msgLen, s2) :- GetBig(s1, 3);
    var (seqNum, s3) :- GetBig(s2, 2);
    var (fragOff, s4) :- GetBig(s3, 3);
    var (fragLen, s5) :- GetBig(s4, 3);
    if |s5| < fragLen then None
    else Some((HmHeader(mtype % 0x100, msgLen, seqNum, fragOff, fragLen), s5[..fragLen], s5[fragLen..]))
  }

  /** A fragment that was written is parsed back, whatever follows it. */
  lemma FragmentRoundTrip(h: HmHeader, body: seq<byte>, t: seq<byte>)
    requires InRange(h) && h.fragLen == |body|
    ensures ParseFragment(PutHeader(h) + body + t) == Some((h, body, t))
  {
    hide Pow2, BigEndian, PutBig, GetBig;
    Pow2Of24();
    var b := body + t;
    var t4 := PutBig(h.fragLen, 3) + b;
    var t3 := PutBig(h.fragOff, 3) + t4;
    var t2 := PutBig(h.seqNum, 2) + t3;
    var t1 := PutBig(h.msgLen, 3) + t2;
    assert PutHeader(h) + body + t == [h.mtype] + t1;
    OneByte(h.mtype, t1);
    GetPutBig(h.msgLen, 3, t2);
    GetPutBig(h.seqNum, 2, t3);
    GetPutBig(h.fragOff, 3, t4);
    GetPutBig(h.fragLen, 3, b);
    assert b[..h.fragLen] == body && b[h.fragLen..] == t;
  }

  lemma OneByte(b: byte, t: seq<byte>)
    ensures GetBig([b] + t, 1) == Some((b, t))
  {
    var s := [b] + t;
    assert s[..1] == [b] && s[1..] == t;
    assert BigEndian([b]) == b by { assert [b][..0] == []; }
  }
}
