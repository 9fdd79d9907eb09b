/**
  The bytes of a serialised session, spelled out as the ASN.1 structure that heads ssl_asn1.cc, and
  what the parser lets through.
 */
module SessionFormat {
  import opened Bits
  import opened ByteString
  import opened Der
  import opened Session
  import opened CertChain
  import opened SessionRoundTrip

  // Versions.

  /** The wire versions of SSL 3.0, TLS 1.0 to 1.2, draft 23 of TLS 1.3, and DTLS 1.0 and 1.2. */
  lemma WireVersions(wire: nat)
    ensures ProtocolVersion(wire).Some? <==>
      wire == 0x0300 || wire == 0x0301 || wire == 0x0302 || wire == 0x0303 || wire == 0x7f17 || wire == 0xfeff || wire == 0xfefd
    ensures wire < 0x0304 && ProtocolVersion(wire).Some? ==> ProtocolVersion(wire).value == wire
    ensures ProtocolVersion(0x7f17) == Some(0x0304)
    ensures ProtocolVersion(0xfeff) == ProtocolVersion(0x0302) && ProtocolVersion(0xfefd) == ProtocolVersion(0x0303)
  {
  }

  /** A printed session with good certificates and a known cipher comes back exactly for these versions. */
  lemma VersionsParseBack(s: Session, forTicket: bool, known: nat -> bool, t: seq<byte>)
    requires Typed(s) && CertsOk(s) && s.verifyResult >= 0 && ToBytes(s, forTicket).Some? && known(s.cipher.value)
    ensures Parse(ToBytes(s, forTicket).value + t, known) == Some((Normal(s, forTicket), t)) <==>
      || s.sslVersion == 0x0300
      || s.sslVersion == 0x0301 || s.sslVersion == 0x0302 || s.sslVersion == 0x0303
      || s.sslVersion == 0x7f17
      || s.sslVersion == 0xfeff || s.sslVersion == 0xfefd
  {
    hide Parse, ToBytes, Typed, CertsOk, Normal, ProtocolVersion;
    CipherThere(s, forTicket);
    SessionParsesBack(s, forTicket, known, t);
    WireVersions(s.sslVersion);
  }

  lemma CipherThere(s: Session, forTicket: bool)
    ensures ToBytes(s, forTicket).Some? ==> s.cipher.Some?
  {
  }

  // The layout.

  /** Length octets of the definite form, as short as they can be. */
  function LengthOctets(n: nat): seq<byte>
    requires n < 0x1_0000_0000
  {
    if n < 0x80 then [n]
    else if n < 0x100 then [0x81, n]
    else if n < 0x1_0000 then [0x82, n / 0x100, n % 0x100]
    else if n < 0x100_0000 then [0x83, n / 0x1_0000, n / 0x100 % 0x100, n % 0x100]
    else [0x84, n / 0x100_0000, n / 0x1_0000 % 0x100, n / 0x100 % 0x100, n % 0x100]
  }

  /** An element with a one-byte identifier. */
  function Tlv(id: byte, content: seq<byte>): seq<byte> {
    if |content| < 0x1_0000_0000 then [id] + LengthOctets(|content|) + content else []
  }

  function Int(v: nat): seq<byte> {
    Tlv(0x02, IntegerBytes(v))
  }

  function OctetString(data: seq<byte>): seq<byte> {
    Tlv(0x04, data)
  }

  function Bool(b: bool): seq<byte> {
    Tlv(0x01, [if b then 0xff else 0x00])
  }

  /** A field with an explicit tag, if it is there. */
  function Tagged(id: byte, present: bool, content: seq<byte>): seq<byte> {
    if present then Tlv(id, content) else []
  }

  function Have(data: Option<seq<byte>>): seq<byte> {
    if data.Some? then data.value else []
  }

  function FourBytes(v: nat): seq<byte> {
    [v / 0x100_0000 % 0x100, v / 0x1_0000 % 0x100, v / 0x100 % 0x100, v % 0x100]
  }

  /** The field with context-specific tag `k`. */
  function FieldBytes(s: Session, forTicket: bool, k: nat): seq<byte> {
    match k
    case 1 => Tagged(0xA1, true, Int(s.time))
    case 2 => Tagged(0xA2, true, Int(s.timeout))
    case 3 => Tagged(0xA3, s.certs != [] && s.peerSha256.None?, if s.certs == [] then [] else s.certs[0])
    case 4 => Tagged(0xA4, true, OctetString(s.sidCtx))
    case 5 => Tagged(0xA5, s.verifyResult != 0, Int(s.verifyResult % 0x1_0000_0000_0000_0000))
    case 8 => Tagged(0xA8, s.pskIdentity.Some?, OctetString(Have(s.pskIdentity)))
    case 9 => Tagged(0xA9, s.tickLifetimeHint > 0, Int(s.tickLifetimeHint))
    case 10 => Tagged(0xAA, s.tick.Some? && !forTicket, OctetString(Have(s.tick)))
    case 13 => Tagged(0xAD, s.peerSha256.Some?, OctetString(Have(s.peerSha256)))
    case 14 => Tagged(0xAE, s.originalHandshakeHash != [], OctetString(s.originalHandshakeHash))
    case 15 => Tagged(0xAF, s.sctList.Some?, OctetString(Have(s.sctList)))
    case 16 => Tagged(0xB0, s.ocspResponse.Some?, OctetString(Have(s.ocspResponse)))
    case 17 => Tagged(0xB1, s.extendedMasterSecret, Bool(true))
    case 18 => Tagged(0xB2, s.groupId > 0, Int(s.groupId))
    case 19 => Tagged(0xB3, |s.certs| >= 2 && s.peerSha256.None?, if s.certs == [] then [] else Concat(s.certs[1..]))
    case 21 => Tagged(0xB5, s.ticketAgeAdd.Some?, OctetString(FourBytes(if s.ticketAgeAdd.Some? then s.ticketAgeAdd.value else 0)))
    case 22 => Tagged(0xB6, !s.isServer, Bool(false))
    case 23 => Tagged(0xB7, s.peerSignatureAlgorithm != 0, Int(s.peerSignatureAlgorithm))
    case 24 => Tagged(0xB8, s.ticketMaxEarlyData != 0, Int(s.ticketMaxEarlyData))
    case 25 => Tagged(0xB9, s.timeout != s.authTimeout, Int(s.authTimeout))
    case 26 => Tagged(0xBA, s.earlyAlpn.Some?, OctetString(Have(s.earlyAlpn)))
    case _ => []
  }

  function FieldBytesFrom(s: Session, forTicket: bool, k: nat): seq<byte>
    decreases 27 - k
  {
    if k > 26 then [] else FieldBytes(s, forTicket, k) + FieldBytesFrom(s, forTicket, k + 1)
  }

  /** The five elements without a tag of their own. */
  function HeadBytes(s: Session, forTicket: bool): seq<byte>
    requires s.cipher.Some? && s.cipher.value < 0x1_0000
  {
    Int(1) + Int(s.sslVersion) + OctetString([s.cipher.value / 0x100, s.cipher.value % 0x100])
    + OctetString(if forTicket then [] else s.sessionId) + OctetString(s.masterKey)
  }

  lemma PutBigTwo(v: nat)
    ensures PutBig(v, 0) == [] && PutBig(v, 1) == [v % 0x100] && PutBig(v, 2) == [v / 0x100 % 0x100, v % 0x100]
  {
    assert PutBig(v / 0x100, 1) == PutBig(v / 0x100 / 0x100, 0) + [v / 0x100 % 0x100];
  }

  lemma PutBigFour(v: nat)
    ensures PutBig(v, 3) == [v / 0x1_0000 % 0x100, v / 0x100 % 0x100, v % 0x100]
    ensures PutBig(v, 4) == FourBytes(v)
  {
    PutBigTwo(v / 0x100);
    PutBigTwo(v / 0x100 / 0x100);
    assert PutBig(v / 0x100, 3) == PutBig(v / 0x100 / 0x100, 2) + [v / 0x100 % 0x100];
    assert v / 0x100 / 0x100 == v / 0x1_0000 && v / 0x100 / 0x100 / 0x100 == v / 0x100_0000;
  }

  lemma LengthIs(n: nat)
    requires n <= MAX_LENGTH
    ensures PutLength(n) == LengthOctets(n)
  {
    hide PutBig;
    PutBigTwo(n);
    PutBigFour(n);
    assert n < 0x1_0000 ==> n / 0x100 % 0x100 == n / 0x100;
    assert n < 0x100_0000 ==> n / 0x1_0000 % 0x100 == n / 0x1_0000;
    assert n < 0x1_0000_0000 ==> n / 0x100_0000 % 0x100 == n / 0x100_0000;
  }

  /** The elements of the model have these bytes. */
  lemma ElementIs(tag: nat, id: byte, content: seq<byte>)
    requires tag == id / 0x20 * 0x2000_0000 + id % 0x20 && id % 0x20 != 0x1f && Element(tag, content).Some?
    ensures Element(tag, content).value == Tlv(id, content)
  {
    hide PutLength, LengthOctets;
    LengthIs(|content|);
    assert tag / CLASS_STEP == id / 0x20 && tag % CLASS_STEP == id % 0x20;
    assert PutTag(tag) == [id];
  }

  /** Numbers are minimal and not negative: read most significant byte first they are the number. */
  lemma IntegerIs(v: nat)
    requires v < TWO_64
    ensures var c := IntegerBytes(v);
      BigEndian(c) == v && 0 < |c| <= 9 && c[0] < 0x80 && (|c| > 1 && c[0] == 0 ==> c[1] >= 0x80)
  {
    hide BigEndian, Minimal;
    IntegerRoundTrip(v);
    MinimalIs(v);
    MinimalHead(v);
    if v == 0 { MinimalZero(); }
    if Minimal(v)[0] >= 0x80 { LeadingZero(Minimal(v)); }
  }

  lemma {:induction false} MinimalIs(v: nat)
    ensures BigEndian(Minimal(v)) == v
  {
    if v >= 0x100 {
      MinimalIs(v / 0x100);
      assert Minimal(v)[..|Minimal(v)| - 1] == Minimal(v / 0x100);
    } else {
      assert [v as byte][..0] == [];
    }
  }

  lemma LeadingZero(s: seq<byte>)
    ensures BigEndian([0] + s) == BigEndian(s)
  {
    hide Pow2;
    BigEndianSplit([0], s);
    assert [0][..0] == [];
  }

  /** Network byte order. */
  lemma BigEndianIs(a: byte, b: byte, c: byte, d: byte)
    ensures BigEndian([a]) == a && BigEndian([a, b]) == 0x100 * a + b
    ensures BigEndian([a, b, c]) == 0x1_0000 * a + 0x100 * b + c
    ensures BigEndian([a, b, c, d]) == 0x100_0000 * a + 0x1_0000 * b + 0x100 * c + d
  {
    assert [a, b, c, d][..3] == [a, b, c] && [a, b, c][..2] == [a, b] && [a, b][..1] == [a] && [a][..0] == [];
  }

  lemma FieldIs(number: nat, id: byte, present: bool, content: Option<seq<byte>>, bytes: seq<byte>)
    requires 1 <= number <= 26 && id == 0xA0 + number
    requires present && content.Some? ==> content.value == bytes
    requires PrintItems(Field(number, present, content)).Some?
    ensures PrintItems(Field(number, present, content)).value == Tagged(id, present, bytes)
  {
    hide Element, Tlv;
    if present {
      ElementIs(Explicit(number), id, content.value);
      assert PrintItems([]) == Some([]);
      assert [Item(Explicit(number), content)][1..] == [];
    }
  }

  lemma ValuesAre(v: nat, data: seq<byte>, b: bool)
    ensures Number(v).Some? ==> Number(v).value == Int(v)
    ensures Octets(data).Some? ==> Octets(data).value == OctetString(data)
    ensures Boolean(b).Some? ==> Boolean(b).value == Bool(b)
  {
    hide Element, Tlv, IntegerBytes;
    if Number(v).Some? { ElementIs(INTEGER, 0x02, IntegerBytes(v)); }
    if Octets(data).Some? { ElementIs(OCTETSTRING, 0x04, data); }
    if Boolean(b).Some? { ElementIs(BOOLEAN, 0x01, [if b then 0xff else 0]); }
  }

  lemma NumberField(number: nat, id: byte, present: bool, v: nat)
    requires 1 <= number <= 26 && id == 0xA0 + number && PrintItems(Field(number, present, Number(v))).Some?
    ensures PrintItems(Field(number, present, Number(v))).value == Tagged(id, present, Int(v))
  {
    hide PrintItems, Tlv, Number, Int, Tagged, Field;
    ValuesAre(v, [], true);
    FieldIs(number, id, present, Number(v), Int(v));
  }

  lemma OctetsField(number: nat, id: byte, present: bool, data: Option<seq<byte>>)
    requires 1 <= number <= 26 && id == 0xA0 + number && PrintItems(Field(number, present, OctetsIf(data))).Some?
    requires present ==> data.Some?
    ensures PrintItems(Field(number, present, OctetsIf(data))).value == Tagged(id, present, OctetString(Have(data)))
  {
    hide PrintItems, Tlv, Octets, OctetString, Tagged, Field;
    if data.Some? { ValuesAre(0, data.value, true); }
    FieldIs(number, id, present, OctetsIf(data), OctetString(Have(data)));
  }

  lemma BooleanField(number: nat, id: byte, present: bool, b: bool)
    requires 1 <= number <= 26 && id == 0xA0 + number && PrintItems(Field(number, present, Boolean(b))).Some?
    ensures PrintItems(Field(number, present, Boolean(b))).value == Tagged(id, present, Bool(b))
  {
    hide PrintItems, Tlv, Boolean, Bool, Tagged, Field;
    ValuesAre(0, [], b);
    FieldIs(number, id, present, Boolean(b), Bool(b));
  }

  lemma FieldPrinted(s: Session, forTicket: bool, k: nat)
    requires Typed(s) && 1 <= k <= 26 && PrintItems(FieldAt(s, forTicket, k)).Some?
    ensures PrintItems(FieldAt(s, forTicket, k)).value == FieldBytes(s, forTicket, k)
  {
    hide PrintItems, Number, Octets, OctetsIf, Boolean, Int, OctetString, Bool, Tagged, PutBig, Concat, Field;
    match k {
      case 1 => NumberField(1, 0xA1, true, s.time);
      case 2 => NumberField(2, 0xA2, true, s.timeout);
      case 3 =>
        var leaf := if s.certs == [] then None else Some(s.certs[0]);
        FieldIs(3, 0xA3, s.certs != [] && s.peerSha256.None?, leaf, Have(leaf));
      case 4 => OctetsOf(s.sidCtx); OctetsField(4, 0xA4, true, Some(s.sidCtx));
      case 5 => NumberField(5, 0xA5, s.verifyResult != 0, s.verifyResult % TWO_64);
      case 8 => OctetsField(8, 0xA8, s.pskIdentity.Some?, s.pskIdentity);
      case 9 => NumberField(9, 0xA9, s.tickLifetimeHint > 0, s.tickLifetimeHint);
      case 10 => OctetsField(10, 0xAA, s.tick.Some? && !forTicket, s.tick);
      case 13 => OctetsField(13, 0xAD, s.peerSha256.Some?, s.peerSha256);
      case 14 =>
        OctetsOf(s.originalHandshakeHash);
        OctetsField(14, 0xAE, s.originalHandshakeHash != [], Some(s.originalHandshakeHash));
      case 15 => OctetsField(15, 0xAF, s.sctList.Some?, s.sctList);
      case 16 => OctetsField(16, 0xB0, s.ocspResponse.Some?, s.ocspResponse);
      case 17 => BooleanField(17, 0xB1, s.extendedMasterSecret, true);
      case 18 => NumberField(18, 0xB2, s.groupId > 0, s.groupId);
      case 19 =>
        var chain := if s.certs == [] then None else Some(Concat(s.certs[1..]));
        FieldIs(19, 0xB3, |s.certs| >= 2 && s.peerSha256.None?, chain, Have(chain));
      case 21 => AgeField(s);
      case 22 => BooleanField(22, 0xB6, !s.isServer, false);
      case 23 => NumberField(23, 0xB7, s.peerSignatureAlgorithm != 0, s.peerSignatureAlgorithm);
      case 24 => NumberField(24, 0xB8, s.ticketMaxEarlyData != 0, s.ticketMaxEarlyData);
      case 25 => NumberField(25, 0xB9, s.timeout != s.authTimeout, s.authTimeout);
      case 26 => OctetsField(26, 0xBA, s.earlyAlpn.Some?, s.earlyAlpn);
      case _ => NothingPrinted();
    }
  }

  lemma OctetsOf(data: seq<byte>)
    ensures OctetsIf(Some(data)) == Octets(data)
  {
  }

  lemma NothingPrinted()
    ensures PrintItems([]) == Some([])
  {
  }

  lemma AgeField(s: Session)
    requires Typed(s) && PrintItems(FieldAt(s, false, 21)).Some?
    ensures FieldAt(s, true, 21) == FieldAt(s, false, 21)
    ensures PrintItems(FieldAt(s, false, 21)).value == FieldBytes(s, false, 21) == FieldBytes(s, true, 21)
  {
    hide PrintItems, Octets, OctetString, Tagged, PutBig, Field, FourBytes;
    if s.ticketAgeAdd.Some? {
      var v := s.ticketAgeAdd.value;
      PutBigFour(v);
      OctetsOf(PutBig(v, 4));
      OctetsField(21, 0xB5, true, Some(PutBig(v, 4)));
    } else {
      FieldIs(21, 0xB5, false, None, OctetString(FourBytes(0)));
    }
  }

  lemma {:induction false} PrintBoth(a: seq<Item>, b: seq<Item>)
    ensures PrintItems(a + b) == (if PrintItems(a).None? || PrintItems(b).None? then None
                                  else Some(PrintItems(a).value + PrintItems(b).value))
  {
    hide Element;
    if a == [] {
      NothingPrinted();
      assert a + b == b;
      if PrintItems(b).Some? { assert [] + PrintItems(b).value == PrintItems(b).value; }
    } else {
      assert (a + b)[1..] == a[1..] + b && (a + b)[0] == a[0];
      PrintBoth(a[1..], b);
      if PrintItems(a).Some? && PrintItems(b).Some? {
        var head, x, y := Element(a[0].tag, a[0].content.value).value, PrintItems(a[1..]).value, PrintItems(b).value;
        assert head + (x + y) == head + x + y;
      }
    }
  }

  lemma {:induction false} FieldsPrinted(s: Session, forTicket: bool, k: nat)
    requires Typed(s) && 1 <= k && PrintItems(FieldsFrom(s, forTicket, k)).Some?
    ensures PrintItems(FieldsFrom(s, forTicket, k)).value == FieldBytesFrom(s, forTicket, k)
    decreases 27 - k
  {
    hide PrintItems, FieldAt, FieldBytes;
    if k > 26 {
      NothingPrinted();
    } else {
      PrintBoth(FieldAt(s, forTicket, k), FieldsFrom(s, forTicket, k + 1));
      FieldPrinted(s, forTicket, k);
      FieldsPrinted(s, forTicket, k + 1);
    }
  }

  lemma OneItem(tag: nat, id: byte, content: seq<byte>, more: seq<Item>)
    requires tag == id / 0x20 * 0x2000_0000 + id % 0x20 && id % 0x20 != 0x1f
    requires PrintItems([Item(tag, Some(content))] + more).Some?
    ensures PrintItems(more).Some?
    ensures PrintItems([Item(tag, Some(content))] + more).value == Tlv(id, content) + PrintItems(more).value
  {
    hide Element, Tlv;
    assert ([Item(tag, Some(content))] + more)[1..] == more;
    ElementIs(tag, id, content);
  }

  lemma HeadPrinted(s: Session, forTicket: bool, more: seq<Item>)
    requires Typed(s) && s.cipher.Some? && PrintItems(HeadItems(s, forTicket) + more).Some?
    ensures PrintItems(more).Some?
    ensures PrintItems(HeadItems(s, forTicket) + more).value == HeadBytes(s, forTicket) + PrintItems(more).value
  {
    hide PrintItems, Tlv, PutBig, IntegerBytes;
    var sid := if forTicket then [] else s.sessionId;
    var i1, i2, i3 := IntegerBytes(K_VERSION), IntegerBytes(s.sslVersion), PutBig(s.cipher.value, 2);
    var m4 := [Item(OCTETSTRING, Some(s.masterKey))] + more;
    var m3 := [Item(OCTETSTRING, Some(sid))] + m4;
    var m2 := [Item(OCTETSTRING, Some(i3))] + m3;
    var m1 := [Item(INTEGER, Some(i2))] + m2;
    assert HeadItems(s, forTicket) + more == [Item(INTEGER, Some(i1))] + m1;
    OneItem(INTEGER, 0x02, i1, m1);
    OneItem(INTEGER, 0x02, i2, m2);
    OneItem(OCTETSTRING, 0x04, i3, m3);
    OneItem(OCTETSTRING, 0x04, sid, m4);
    OneItem(OCTETSTRING, 0x04, s.masterKey, more);
    PutBigTwo(s.cipher.value);
  }

  /** A serialised session is a SEQUENCE of exactly these elements. */
  lemma SessionLayout(s: Session, forTicket: bool)
    requires Typed(s) && ToBytes(s, forTicket).Some?
    ensures s.cipher.Some?
    ensures ToBytes(s, forTicket).value == Tlv(0x30, HeadBytes(s, forTicket) + FieldBytesFrom(s, forTicket, 1))
  {
    hide PrintItems, Element, Tlv, HeadItems, HeadBytes, FieldsFrom, FieldBytesFrom;
    var fields := FieldsFrom(s, forTicket, 1);
    var body := PrintItems(HeadItems(s, forTicket) + fields).value;
    ElementIs(SEQUENCE, 0x30, body);
    HeadPrinted(s, forTicket, fields);
    FieldsPrinted(s, forTicket, 1);
  }

  // What the parser lets through.

  lemma {:induction false} AccumulateBound(s: seq<byte>, out: nat)
    requires out < TWO_64 && Accumulate(s, out).Some?
    ensures Accumulate(s, out).value < TWO_64
    decreases |s|
  {
    if s != [] { AccumulateBound(s[1..], out * 0x100 + s[0]); }
  }

  lemma IntegerBound(s: seq<byte>)
    ensures ParseInteger(s).Some? ==> ParseInteger(s).value < TWO_64
  {
    hide Accumulate;
    if ParseInteger(s).Some? { AccumulateBound(s, 0); }
  }

  lemma NumberBound(s: seq<byte>)
    ensures GetNumber(s).Some? ==> GetNumber(s).value.0 < TWO_64
  {
    hide ParseInteger, GetAsn1;
    if GetNumber(s).Some? { IntegerBound(GetAsn1(s, INTEGER).value.0); }
  }

  predicate HeadFits(h: Head, known: nat -> bool) {
    && ProtocolVersion(h.sslVersion).Some? && h.cipher < TWO_16 && known(h.cipher)
    && |h.sessionId| <= 32 && |h.masterKey| <= 48 && h.time < TWO_64 && h.timeout < TWO_32
  }

  lemma HeadParsed(s: seq<byte>, known: nat -> bool)
    requires ParseHead(s, known).Some?
    ensures HeadFits(ParseHead(s, known).value.0, known)
  {
    hide GetNumber, GetAsn1, ParseTimes, BigEndian, ProtocolVersion, Pow2;
    var (version, s1) := GetNumber(s).value;
    var (sslVersion, s2) := GetNumber(s1).value;
    var (cipherBytes, s3) := GetAsn1(s2, OCTETSTRING).value;
    var (sessionId, s4) := GetAsn1(s3, OCTETSTRING).value;
    var (masterKey, s5) := GetAsn1(s4, OCTETSTRING).value;
    Pow2Of16();
    BigEndianBound(cipherBytes);
    TimesParsed(s5);
  }

  lemma TimesParsed(s: seq<byte>)
    ensures ParseTimes(s).Some? ==> ParseTimes(s).value.0.time < TWO_64 && ParseTimes(s).value.0.timeout < TWO_32
  {
    hide GetNumber, GetAsn1;
    if ParseTimes(s).Some? { NumberBound(GetAsn1(s, Explicit(1)).value.0); }
  }

  predicate FirstFits(f: First) {
    && |f.sidCtx| <= 32 && f.verifyResult < TWO_63 && 0 !in Bytes(f.pskIdentity) && f.tickLifetimeHint < TWO_32
    && f.peer != Some([])
  }

  lemma FirstParsed(s: seq<byte>)
    requires ParseFirst(s).Some?
    ensures FirstFits(ParseFirst(s).value.0)
  {
    hide GetOptional, GetOptionalOctets, Only, ParseInteger;
  }

  predicate SecondFits(g: Second) {
    && (g.peerSha256.Some? ==> |g.peerSha256.value| == 32) && |g.originalHandshakeHash| <= 64 && g.groupId < TWO_16
  }

  lemma SecondParsed(s: seq<byte>)
    requires ParseSecond(s).Some?
    ensures SecondFits(ParseSecond(s).value.0)
  {
    hide GetOptional, GetOptionalOctets, GetOptionalBoolean, Only, ParseInteger;
  }

  predicate ThirdFits(t: Third) {
    && (t.ticketAgeAdd.Some? ==> t.ticketAgeAdd.value < TWO_32) && t.peerSignatureAlgorithm < TWO_16
    && t.ticketMaxEarlyData < TWO_32 && t.authTimeout < TWO_32
  }

  lemma ThirdParsed(s: seq<byte>, timeout: nat)
    requires ParseThird(s, timeout).Some?
    ensures ThirdFits(ParseThird(s, timeout).value.0)
  {
    hide GetOptional, GetOptionalOctets, GetOptionalBoolean, Only, ParseInteger, BigEndian, Pow2;
    Pow2Of32();
    var age := GetOptionalOctets(s, 21).value.0;
    if age.Some? { BigEndianBound(age.value); }
  }

  lemma {:induction false} ChainParsed(s: seq<byte>)
    requires ParseChain(s).Some?
    ensures forall i :: 0 <= i < |ParseChain(s).value| ==> IsElement(ParseChain(s).value[i])
    decreases |s|
  {
    hide IsElement, GetAny;
    if s != [] {
      var (cert, rest) := GetAnyElement(s).value;
      AnyEnds(s);
      assert s == cert + rest;
      ElementAt(cert, rest);
      ChainParsed(rest);
      assert ParseChain(s).value == [cert] + ParseChain(rest).value;
    }
  }

  /** Whatever the input, a session that is parsed fits its C types, is accepted for what it is, and its chain is elements. */
  lemma ParsedFits(s: seq<byte>, known: nat -> bool)
    requires Parse(s, known).Some?
    ensures var v := Parse(s, known).value.0;
      v.cipher.Some? && Typed(v) && Accepted(v, known) && CertsOk(v)
  {
    hide ParseHead, ParseFirst, ParseSecond, ParseThird, ParseChain, ProtocolVersion, IsElement, GetAsn1;
    var body := GetAsn1(s, SEQUENCE).value.0;
    var (h, b) := ParseHead(body, known).value;
    var (f, b1) := ParseFirst(b).value;
    var (g, b2) := ParseSecond(b1).value;
    var (t, b3) := ParseThird(b2, h.timeout).value;
    HeadParsed(body, known);
    FirstParsed(b);
    SecondParsed(b1);
    ThirdParsed(b2, h.timeout);
    WireVersions(h.sslVersion);
    if f.peer.Some? { ChainParsed(Bytes(g.chain)); }
  }

  /** So what was parsed, printed again, is parsed again. */
  lemma ParsedAgain(s: seq<byte>, known: nat -> bool, forTicket: bool, t: seq<byte>)
    requires Parse(s, known).Some? && ToBytes(Parse(s, known).value.0, forTicket).Some?
    ensures var v := Parse(s, known).value.0;
      Parse(ToBytes(v, forTicket).value + t, known) == Some((Normal(v, forTicket), t))
  {
    hide Parse, ToBytes, Typed, CertsOk, Normal;
    ParsedFits(s, known);
    SessionParsesBack(Parse(s, known).value.0, forTicket, known, t);
  }
}
