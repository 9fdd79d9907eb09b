/** The serialisation of SSL_SESSION in ssl_asn1.cc, as functions from sessions to bytes and back. */
module Session {
  import opened Bits
  import opened ByteString
  import opened Der

  const K_VERSION: nat := 1
  const MAX_SESSION_ID: nat := 32
  const MAX_MASTER_KEY: nat := 48
  const MAX_SID_CTX: nat := 32
  const MAX_MD_SIZE: nat := 64
  const SHA256_LENGTH: nat := 32

  /** SSL_SESSION; Option stands for a pointer that may be null or a field with a valid bit. */
  datatype Session = Session(
    sslVersion: nat,
    cipher: Option<nat>,          // the low 16 bits of its id
    sessionId: seq<byte>,
    masterKey: seq<byte>,
    time: nat,
    timeout: nat,
    certs: seq<seq<byte>>,
    sidCtx: seq<byte>,
    verifyResult: int,
    pskIdentity: Option<seq<byte>>,
    tickLifetimeHint: nat,
    tick: Option<seq<byte>>,
    peerSha256: Option<seq<byte>>,
    originalHandshakeHash: seq<byte>,
    sctList: Option<seq<byte>>,
    ocspResponse: Option<seq<byte>>,
    extendedMasterSecret: bool,
    groupId: nat,
    ticketAgeAdd: Option<nat>,
    isServer: bool,
    peerSignatureAlgorithm: nat,
    ticketMaxEarlyData: nat,
    authTimeout: nat,
    earlyAlpn: Option<seq<byte>>)

  // Writing: SSL_SESSION_to_bytes_full.

  /** An element to write; None where its contents could not be built. */
  datatype Item = Item(tag: nat, content: Option<seq<byte>>)

  function PrintItems(items: seq<Item>): Option<seq<byte>> {
    if items == [] then Some([])
    else
      var content :- items[0].content;
      var head :- Element(items[0].tag, content);
      var rest :- PrintItems(items[1..]);
      Some(head + rest)
  }

  function Explicit(number: nat): nat {
    CONTEXT_CONSTRUCTED + number
  }

  /** An explicitly tagged field, if it is present. */
  function Field(number: nat, present: bool, content: Option<seq<byte>>): seq<Item> {
    if present then [Item(Explicit(number), content)] else []
  }

  function Number(v: nat): Option<seq<byte>> {
    Element(INTEGER, IntegerBytes(v))
  }

  function Octets(data: seq<byte>): Option<seq<byte>> {
    Element(OCTETSTRING, data)
  }

  function Boolean(b: bool): Option<seq<byte>> {
    Element(BOOLEAN, [if b then 0xff else 0])
  }

  function OctetsIf(data: Option<seq<byte>>): Option<seq<byte>> {
    if data.Some? then Octets(data.value) else None
  }

  /** The field with tag number `k`: at most one item. */
  function FieldAt(s: Session, forTicket: bool, k: nat): seq<Item> {
    match k
    case 1 => Field(1, true, Number(s.time))
    case 2 => Field(2, true, Number(s.timeout))
    case 3 => Field(3, s.certs != [] && s.peerSha256.None?, if s.certs == [] then None else Some(s.certs[0]))
    case 4 => Field(4, true, Octets(s.sidCtx))
    case 5 => Field(5, s.verifyResult != 0, Number(s.verifyResult % TWO_64))
    case 8 => Field(8, s.pskIdentity.Some?, OctetsIf(s.pskIdentity))
    case 9 => Field(9, s.tickLifetimeHint > 0, Number(s.tickLifetimeHint))
    case 10 => Field(10, s.tick.Some? && !forTicket, OctetsIf(s.tick))
    case 13 => Field(13, s.peerSha256.Some?, OctetsIf(s.peerSha256))
    case 14 => Field(14, s.originalHandshakeHash != [], Octets(s.originalHandshakeHash))
    case 15 => Field(15, s.sctList.Some?, OctetsIf(s.sctList))
    case 16 => Field(16, s.ocspResponse.Some?, OctetsIf(s.ocspResponse))
    case 17 => Field(17, s.extendedMasterSecret, Boolean(true))
    case 18 => Field(18, s.groupId > 0, Number(s.groupId))
    case 19 => Field(19, |s.certs| >= 2 && s.peerSha256.None?, if s.certs == [] then None else Some(Concat(s.certs[1..])))
    case 21 => Field(21, s.ticketAgeAdd.Some?, if s.ticketAgeAdd.Some? then Octets(PutBig(s.ticketAgeAdd.value, 4)) else None)
    case 22 => Field(22, !s.isServer, Boolean(false))
    case 23 => Field(23, s.peerSignatureAlgorithm != 0, Number(s.peerSignatureAlgorithm))
    case 24 => Field(24, s.ticketMaxEarlyData != 0, Number(s.ticketMaxEarlyData))
    case 25 => Field(25, s.timeout != s.authTimeout, Number(s.authTimeout))
    case 26 => Field(26, s.earlyAlpn.Some?, OctetsIf(s.earlyAlpn))
    case _ => []
  }

  /** The fields with tag numbers from `k` on. */
  function FieldsFrom(s: Session, forTicket: bool, k: nat): seq<Item>
    decreases 27 - k
  {
    if k >= 27 then [] else FieldAt(s, forTicket, k) + FieldsFrom(s, forTicket, k + 1)
  }

  /** The five elements in front of the tagged fields. */
  function HeadItems(s: Session, forTicket: bool): seq<Item>
    requires s.cipher.Some?
  {
    [Item(INTEGER, Some(IntegerBytes(K_VERSION))),
     Item(INTEGER, Some(IntegerBytes(s.sslVersion))),
     Item(OCTETSTRING, Some(PutBig(s.cipher.value, 2))),
     Item(OCTETSTRING, Some(if forTicket then [] else s.sessionId)),
     Item(OCTETSTRING, Some(s.masterKey))]
  }

  function ToBytes(s: Session, forTicket: bool): Option<seq<byte>> {
    if s.cipher.None? then None
    else
      var body :- PrintItems(HeadItems(s, forTicket) + FieldsFrom(s, forTicket, 1));
      Element(SEQUENCE, body)
  }

  // Reading: SSL_SESSION_parse.

  function GetNumber(s: seq<byte>): Option<(nat, seq<byte>)> {
    var (content, rest) :- GetAsn1(s, INTEGER);
    var v :- ParseInteger(content);
    Some((v, rest))
  }

  /** CBS_get_optional_asn1. */
  function GetOptional(s: seq<byte>, number: nat): Option<(Option<seq<byte>>, seq<byte>)> {
    if !PeekTag(s, Explicit(number)) then Some((None, s))
    else
      var (content, rest) :- GetAsn1(s, Explicit(number));
      Some((Some(content), rest))
  }

  /** One element of type `tag` and nothing else. */
  function Only(s: seq<byte>, tag: nat): Option<seq<byte>> {
    var (content, rest) :- GetAsn1(s, tag);
    if rest == [] then Some(content) else None
  }

  /** CBS_get_optional_asn1_octet_string. */
  function GetOptionalOctets(s: seq<byte>, number: nat): Option<(Option<seq<byte>>, seq<byte>)> {
    var (child, rest) :- GetOptional(s, number);
    if child.None? then Some((None, rest))
    else
      var data :- Only(child.value, OCTETSTRING);
      Some((Some(data), rest))
  }

  /** CBS_get_optional_asn1_uint64 with the bound SSL_SESSION_parse_long, _u32 or _u16 puts on it. */
  function GetOptionalNumber(s: seq<byte>, number: nat, absent: nat, bound: nat): Option<(nat, seq<byte>)> {
    var (child, rest) :- GetOptional(s, number);
    if child.None? then (if absent < bound then Some((absent, rest)) else None)
    else
      var content :- Only(child.value, INTEGER);
      var v :- ParseInteger(content);
      if v < bound then Some((v, rest)) else None
  }

  /** CBS_get_optional_asn1_bool. */
  function GetOptionalBoolean(s: seq<byte>, number: nat, absent: bool): Option<(bool, seq<byte>)> {
    var (child, rest) :- GetOptional(s, number);
    if child.None? then Some((absent, rest))
    else
      var content :- Only(child.value, BOOLEAN);
      if content == [0] then Some((false, rest)) else if content == [0xff] then Some((true, rest)) else None
  }

  /** CBS_stow keeps no pointer to an empty string. */
  function Stowed(data: Option<seq<byte>>): Option<seq<byte>> {
    if data == Some([]) then None else data
  }

  function Bytes(data: Option<seq<byte>>): seq<byte> {
    if data.Some? then data.value else []
  }

  /** The certificate chain: elements to the end. */
  function ParseChain(s: seq<byte>): Option<seq<seq<byte>>>
    decreases |s|
  {
    if s == [] then Some([])
    else
      var (cert, rest) :- GetAnyElement(s);
      var certs :- ParseChain(rest);
      Some([cert] + certs)
  }

  /** ssl_protocol_version_from_wire: the protocol version a wire version stands for. */
  function ProtocolVersion(wire: nat): Option<nat> {
    match wire
    case 0x0300 | 0x0301 | 0x0302 | 0x0303 => Some(wire)
    case 0x7f17 => Some(0x0304)  // draft 23 of TLS 1.3
    case 0xfeff => Some(0x0302)  // DTLS 1.0 is analogous to TLS 1.1
    case 0xfefd => Some(0x0303)
    case _ => None
  }

  datatype Head = Head(sslVersion: nat, cipher: nat, sessionId: seq<byte>, masterKey: seq<byte>, time: nat, timeout: nat)

  datatype Times = Times(time: nat, timeout: nat)

  /** Lines 580 to 590. */
  function ParseTimes(s: seq<byte>): Option<(Times, seq<byte>)> {
    var (timeChild, s1) :- GetAsn1(s, Explicit(1));
    var (time, _) :- GetNumber(timeChild);
    var (timeoutChild, s2) :- GetAsn1(s1, Explicit(2));
    var (timeout, _) :- GetNumber(timeoutChild);
    if timeout >= TWO_32 then None else Some((Times(time, timeout), s2))
  }

  /** Lines 535 to 597. */
  function ParseHead(s: seq<byte>, known: nat -> bool): Option<(Head, seq<byte>)> {
    var (version, s1) :- GetNumber(s);
    if version != K_VERSION then None
    else
      var (sslVersion, s2) :- GetNumber(s1);
      if sslVersion >= TWO_16 || ProtocolVersion(sslVersion).None? then None
      else
        var (cipherBytes, s3) :- GetAsn1(s2, OCTETSTRING);
        if |cipherBytes| != 2 || !known(BigEndian(cipherBytes)) then None
        else
          var (sessionId, s4) :- GetAsn1(s3, OCTETSTRING);
          var (masterKey, s5) :- GetAsn1(s4, OCTETSTRING);
          if |sessionId| > MAX_SESSION_ID || |masterKey| > MAX_MASTER_KEY then None
          else
            var (times, s6) :- ParseTimes(s5);
            Some((Head(sslVersion, BigEndian(cipherBytes), sessionId, masterKey, times.time, times.timeout), s6))
  }

  datatype First = First(peer: Option<seq<byte>>, sidCtx: seq<byte>, verifyResult: nat, pskIdentity: Option<seq<byte>>,
                         tickLifetimeHint: nat, tick: Option<seq<byte>>)

  /** Lines 599 to 634. */
  function ParseFirst(s: seq<byte>): Option<(First, seq<byte>)> {
    var (peer, s3) :- GetOptional(s, 3);
    if peer == Some([]) then None
    else
      var (sidCtx, s4) :- GetOptionalOctets(s3, 4);
      if |Bytes(sidCtx)| > MAX_SID_CTX then None
      else
        var (verifyResult, s5) :- GetOptionalNumber(s4, 5, 0, TWO_63);
        var (_, s6) :- GetOptional(s5, 6);
        var (psk, s8) :- GetOptionalOctets(s6, 8);
        if 0 in Bytes(psk) then None
        else
          var (hint, s9) :- GetOptionalNumber(s8, 9, 0, TWO_32);
          var (tick, s10) :- GetOptionalOctets(s9, 10);
          Some((First(peer, Bytes(sidCtx), verifyResult, psk, hint, Stowed(tick)), s10))
  }

  datatype Second = Second(peerSha256: Option<seq<byte>>, originalHandshakeHash: seq<byte>, sctList: Option<seq<byte>>,
                           ocspResponse: Option<seq<byte>>, extendedMasterSecret: bool, groupId: nat,
                           chain: Option<seq<byte>>)

  /** Lines 636 to 698. */
  function ParseSecond(s: seq<byte>): Option<(Second, seq<byte>)> {
    var (sha, s13) :- GetOptionalOctets(s, 13);
    if sha.Some? && |sha.value| != SHA256_LENGTH then None
    else
      var (hash, s14) :- GetOptionalOctets(s13, 14);
      if |Bytes(hash)| > MAX_MD_SIZE then None
      else
        var (sct, s15) :- GetOptionalOctets(s14, 15);
        var (ocsp, s16) :- GetOptionalOctets(s15, 16);
        var (ems, s17) :- GetOptionalBoolean(s16, 17, false);
        var (group, s18) :- GetOptionalNumber(s17, 18, 0, TWO_16);
        var (chain, s19) :- GetOptional(s18, 19);
        if chain == Some([]) then None
        else Some((Second(sha, Bytes(hash), sct, ocsp, ems, group, chain), s19))
  }

  datatype Third = Third(ticketAgeAdd: Option<nat>, isServer: bool, peerSignatureAlgorithm: nat, ticketMaxEarlyData: nat,
                         authTimeout: nat, earlyAlpn: Option<seq<byte>>)

  /** Lines 700 to 752. */
  function ParseThird(s: seq<byte>, timeout: nat): Option<(Third, seq<byte>)> {
    var (age, s21) :- GetOptionalOctets(s, 21);
    if age.Some? && |age.value| != 4 then None
    else
      var (isServer, s22) :- GetOptionalBoolean(s21, 22, true);
      var (algorithm, s23) :- GetOptionalNumber(s22, 23, 0, TWO_16);
      var (early, s24) :- GetOptionalNumber(s23, 24, 0, TWO_32);
      var (auth, s25) :- GetOptionalNumber(s24, 25, timeout, TWO_32);
      var (alpn, s26) :- GetOptionalOctets(s25, 26);
      var ageAdd := if age.Some? then Some(BigEndian(age.value)) else None;
      Some((Third(ageAdd, isServer, algorithm, early, auth, Stowed(alpn)), s26))
  }

  /** The stack of certificates: the peer's, then the chain. */
  function ParseCerts(peer: Option<seq<byte>>, chain: Option<seq<byte>>): Option<seq<seq<byte>>> {
    if peer.None? then (if chain.Some? then None else Some([]))
    else
      var more :- ParseChain(Bytes(chain));
      Some([peer.value] + more)
  }

  /** The contents of the SEQUENCE. */
  function ParseBody(body: seq<byte>, known: nat -> bool): Option<Session> {
    var (h, b) :- ParseHead(body, known);
    var (f, b1) :- ParseFirst(b);
    var (g, b2) :- ParseSecond(b1);
    var certs :- ParseCerts(f.peer, g.chain);
    var (t, b3) :- ParseThird(b2, h.timeout);
    if b3 != [] then None
    else Some(Build(h, f, g, certs, t))
  }

  /** SSL_SESSION_parse: the session and what follows it. */
  function Parse(s: seq<byte>, known: nat -> bool): Option<(Session, seq<byte>)> {
    var (body, rest) :- GetAsn1(s, SEQUENCE);
    var value :- ParseBody(body, known);
    Some((value, rest))
  }

  function Build(h: Head, f: First, g: Second, certs: seq<seq<byte>>, t: Third): Session {
    Session(h.sslVersion, Some(h.cipher), h.sessionId, h.masterKey, h.time, h.timeout, certs, f.sidCtx, f.verifyResult,
            f.pskIdentity, f.tickLifetimeHint, f.tick, g.peerSha256, g.originalHandshakeHash, g.sctList, g.ocspResponse,
            g.extendedMasterSecret, g.groupId, t.ticketAgeAdd, t.isServer, t.peerSignatureAlgorithm, t.ticketMaxEarlyData,
            t.authTimeout, t.earlyAlpn)
  }
}
