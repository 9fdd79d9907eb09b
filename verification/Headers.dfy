/** The headers of messages, fragments and records, byte by byte: sections 6.2.1 and 7.4 of RFC 5246, 4.1 and 4.2.2 of RFC 6347. */
module Headers {
  import opened Bits
  import opened ByteString
  import opened HandshakeFragment
  import TlsMessages
  import DtlsFlight
  import DtlsSend

  /** Three bytes, most significant first. */
  function Three(v: nat): seq<byte>
    requires v < 0x100_0000
  {
    [v / 0x1_0000, v / 0x100 % 0x100, v % 0x100]
  }

  function Two(v: nat): seq<byte>
    requires v < 0x1_0000
  {
    [v / 0x100, v % 0x100]
  }

  lemma PutThree(v: nat)
    requires v < 0x100_0000
    ensures PutBig(v, 3) == Three(v)
  {
    assert PutBig(v / 0x1_0000, 1) == [] + [v / 0x1_0000];
    assert v / 0x100 / 0x100 == v / 0x1_0000;
    assert PutBig(v / 0x100, 2) == [v / 0x1_0000, v / 0x100 % 0x100];
  }

  lemma PutTwo(v: nat)
    requires v < 0x1_0000
    ensures PutBig(v, 2) == Two(v)
  {
    assert PutBig(v / 0x100, 1) == [] + [v / 0x100];
  }

  /** Numbers of a few bytes. */
  lemma SmallNumbers(s: seq<byte>)
    ensures |s| == 1 ==> BigEndian(s) == s[0]
    ensures |s| == 2 ==> BigEndian(s) == 0x100 * (s[0] as int) + s[1]
    ensures |s| == 3 ==> BigEndian(s) == 0x1_0000 * (s[0] as int) + 0x100 * (s[1] as int) + s[2]
  {
    if 1 <= |s| <= 3 {
      assert s[..1][..0] == [];
      assert BigEndian(s[..1]) == s[0] && s[..|s|] == s;
      if |s| >= 2 { assert s[..2][..1] == s[..1]; }
      if |s| >= 3 { assert s[..3][..2] == s[..2]; }
    }
  }

  /** A message of TLS in front of a buffer. */
  lemma MessageExactly(b: seq<byte>, mtype: byte, body: seq<byte>, raw: seq<byte>)
    requires |body| < 0x100_0000
    ensures TlsMessages.ParseMessage(b) == TlsMessages.Message(mtype, body, raw) <==>
      raw <= b && raw == [mtype] + Three(|body|) + body
  {
    hide Pow2, BigEndian, PutBig;
    PutThree(|body|);
    if TlsMessages.ParseMessage(b) == TlsMessages.Message(mtype, body, raw) {
      TlsMessages.RawIsMessage(b);
      TlsMessages.MessageIsPut(raw);
      TlsMessages.MessageStays(raw, []);
      assert raw + [] == raw && raw[0] == b[0];
    }
    if raw <= b && raw == [mtype] + Three(|body|) + body {
      assert b == raw + b[|raw|..];
      TlsMessages.MessageRoundTrip(mtype, body, b[|raw|..]);
    }
  }

  /** How much of a message is missing. */
  lemma NeedsExactly(b: seq<byte>)
    ensures |b| < 4 ==> TlsMessages.ParseMessage(b) == TlsMessages.Needs(4)
    ensures |b| >= 4 ==>
      var end := 4 + 0x1_0000 * (b[1] as int) + 0x100 * (b[2] as int) + b[3];
      TlsMessages.ParseMessage(b).Needs? <==> |b| < end
    ensures |b| >= 4 && TlsMessages.ParseMessage(b).Needs? ==>
      TlsMessages.ParseMessage(b).bytes == 4 + 0x1_0000 * (b[1] as int) + 0x100 * (b[2] as int) + b[3]
  {
    hide BigEndian;
    if |b| >= 4 { SmallNumbers(b[1..4]); }
  }

  /** A fragment of DTLS as its bytes. */
  function Fragment(mtype: byte, msgLen: nat, seqNum: nat, fragOff: nat, body: seq<byte>): seq<byte>
    requires msgLen < 0x100_0000 && seqNum < 0x1_0000 && fragOff < 0x100_0000 && |body| < 0x100_0000
  {
    [mtype] + Three(msgLen) + Two(seqNum) + Three(fragOff) + Three(|body|) + body
  }

  lemma HeaderIs(h: HmHeader, body: seq<byte>)
    requires InRange(h) && h.fragLen == |body|
    ensures PutHeader(h) + body == Fragment(h.mtype, h.msgLen, h.seqNum, h.fragOff, body)
  {
    hide PutBig;
    PutThree(h.msgLen);
    PutTwo(h.seqNum);
    PutThree(h.fragOff);
    PutThree(h.fragLen);
  }

  /** A fragment is read from exactly its bytes, whatever follows them. */
  lemma FragmentExactly(s: seq<byte>, h: HmHeader, body: seq<byte>, t: seq<byte>)
    ensures ParseFragment(s) == Some((h, body, t)) <==>
      && h.msgLen < 0x100_0000 && h.seqNum < 0x1_0000 && h.fragOff < 0x100_0000 && h.fragLen == |body| < 0x100_0000
      && s == Fragment(h.mtype, h.msgLen, h.seqNum, h.fragOff, body) + t
  {
    hide Pow2, BigEndian, PutBig, Three, Two;
    if ParseFragment(s) == Some((h, body, t)) {
      FieldsRead(s);
      HeaderIs(h, body);
      assert s == PutHeader(h) + body + t;
    }
    if InRange(h) && h.fragLen == |body| {
      HeaderIs(h, body);
      FragmentRoundTrip(h, body, t);
    }
  }

  lemma FieldsRead(s: seq<byte>)
    requires ParseFragment(s).Some?
    ensures var (h, body, t) := ParseFragment(s).value;
      InRange(h) && s == PutHeader(h) + body + t
  {
    hide Pow2, BigEndian, PutBig, GetBig;
    Pow2Of24();
    var (mtype, s1) := GetBig(s, 1).value;
    var (msgLen, s2) := GetBig(s1, 3).value;
    var (seqNum, s3) := GetBig(s2, 2).value;
    var (fragOff, s4) := GetBig(s3, 3).value;
    var (fragLen, s5) := GetBig(s4, 3).value;
    Read(s, 1);
    Read(s1, 3);
    Read(s2, 2);
    Read(s3, 3);
    Read(s4, 3);
    PutOne(mtype);
    var (h, body, t) := ParseFragment(s).value;
    assert s5 == body + t;
    assert PutHeader(h) + body + t
        == [h.mtype] + (PutBig(msgLen, 3) + (PutBig(seqNum, 2) + (PutBig(fragOff, 3) + (PutBig(fragLen, 3) + (body + t)))));
  }

  lemma Read(s: seq<byte>, n: nat)
    requires GetBig(s, n).Some?
    ensures GetBig(s, n).value.0 < Pow2(8 * n) && s == PutBig(GetBig(s, n).value.0, n) + GetBig(s, n).value.1
  {
    hide Pow2, BigEndian, PutBig;
    BigEndianBound(s[..n]);
    BigRoundTrip(BigEndian(s[..n]), n);
    BigEndianInjective(PutBig(BigEndian(s[..n]), n), s[..n]);
  }

  lemma PutOne(v: nat)
    requires v < 0x100
    ensures PutBig(v, 1) == [v]
  {
    assert PutBig(v / 0x100, 0) == [];
  }

  /** The record of a cut, as its bytes: content type 20 and a one, or content type 22 and a fragment. */
  lemma RecordBytes(outgoing: seq<DtlsSend.OutMsg>, items: seq<DtlsFlight.Item>, cut: DtlsFlight.Cut, r: DtlsSend.Record)
    requires |outgoing| == |items| && DtlsFlight.CutOk(items, cut) && DtlsSend.IsRecord(outgoing, items, cut, r)
    requires DtlsFlight.ItemOk(items[cut.at.written])
    ensures r.epoch == outgoing[cut.at.written].epoch
    ensures var it := items[cut.at.written];
      if it.Ccs? then r.rtype == 20 && r.payload == [1]
      else
        && r.rtype == 22 && |it.m.body| < 0x100_0000 && it.seqNum < 0x1_0000
        && r.payload == Fragment(it.m.mtype, |it.m.body|, it.seqNum, cut.at.offset,
                                 it.m.body[cut.at.offset..cut.at.offset + cut.todo])
  {
    hide PutHeader, Three, Two;
    var it := items[cut.at.written];
    if it.Handshake? {
      var body := it.m.body[cut.at.offset..cut.at.offset + cut.todo];
      HeaderIs(HmHeader(it.m.mtype, |it.m.body|, it.seqNum, cut.at.offset, cut.todo), body);
    }
  }
}
