/** ssl_asn1.cc in place: SSL_SESSION_to_bytes_full on a builder, SSL_SESSION_parse on a cursor. */
module SslAsn1 {
  import opened Bits
  import opened ByteString
  import opened Der
  import opened Session
  import opened Cbb
  import opened Cbs

  /** SSL_SESSION. */
  class SslSession {
    var sslVersion: nat
    var cipher: Option<nat>
    var sessionId: seq<byte>
    var masterKey: seq<byte>
    var time: nat
    var timeout: nat
    var certs: seq<seq<byte>>
    var sidCtx: seq<byte>
    var verifyResult: int
    var pskIdentity: Option<seq<byte>>
    var tickLifetimeHint: nat
    var tick: Option<seq<byte>>
    var peerSha256: Option<seq<byte>>
    var originalHandshakeHash: seq<byte>
    var sctList: Option<seq<byte>>
    var ocspResponse: Option<seq<byte>>
    var extendedMasterSecret: bool
    var groupId: nat
    var ticketAgeAdd: Option<nat>
    var isServer: bool
    var peerSignatureAlgorithm: nat
    var ticketMaxEarlyData: nat
    var authTimeout: nat
    var earlyAlpn: Option<seq<byte>>

    /** ssl_session_new. */
    constructor ()
    {
      sslVersion, cipher, sessionId, masterKey, time, timeout := 0, None, [], [], 0, 0;
      certs, sidCtx, verifyResult, pskIdentity, tickLifetimeHint, tick := [], [], 0, None, 0, None;
      peerSha256, originalHandshakeHash, sctList, ocspResponse := None, [], None, None;
      extendedMasterSecret, groupId, ticketAgeAdd, isServer := false, 0, None, true;
      peerSignatureAlgorithm, ticketMaxEarlyData, authTimeout, earlyAlpn := 0, 0, 0, None;
    }

    function Value(): Session
      reads this
    {
      Session(sslVersion, cipher, sessionId, masterKey, time, timeout, certs, sidCtx, verifyResult, pskIdentity,
              tickLifetimeHint, tick, peerSha256, originalHandshakeHash, sctList, ocspResponse, extendedMasterSecret,
              groupId, ticketAgeAdd, isServer, peerSignatureAlgorithm, ticketMaxEarlyData, authTimeout, earlyAlpn)
    }

    /** The fields hold values of their C types. */
    ghost predicate Typed()
      reads this
    {
      && sslVersion < TWO_16 && time < TWO_64 && timeout < TWO_32 && authTimeout < TWO_32
      && tickLifetimeHint < TWO_32 && ticketMaxEarlyData < TWO_32 && groupId < TWO_16 && peerSignatureAlgorithm < TWO_16
    }
  }

  // Writing.

  /** The builder holds `start` and, behind it, the printed items. */
  ghost predicate Holds(cbb: Builder, start: seq<byte>, items: seq<Item>)
    reads cbb
  {
    cbb.Built() == Onto(start, PrintItems(items))
  }

  lemma {:induction false} PrintMore(items: seq<Item>, it: Item)
    ensures PrintItems(items + [it])
         == if PrintItems(items).None? || it.content.None? || Element(it.tag, it.content.value).None? then None
            else Some(PrintItems(items).value + Element(it.tag, it.content.value).value)
  {
    hide Element;
    if items == [] {
      assert items + [it] == [it] && [it][1..] == [];
      assert PrintItems([]) == Some([]);
      if PrintItems([it]).Some? {
        var e := Element(it.tag, it.content.value).value;
        assert e + [] == [] + e;
      }
    } else {
      assert (items + [it])[1..] == items[1..] + [it];
      PrintMore(items[1..], it);
      if PrintItems(items + [it]).Some? {
        var head, middle := Element(items[0].tag, items[0].content.value).value, PrintItems(items[1..]).value;
        var last := Element(it.tag, it.content.value).value;
        assert head + (middle + last) == head + middle + last;
      }
    }
  }

  /** An item behind those the builder holds. */
  lemma HoldsMore(start: seq<byte>, items: seq<Item>, it: Item)
    ensures Onto(start, PrintItems(items + [it]))
         == if PrintItems(items).None? || it.content.None? then None
            else Onto(start + PrintItems(items).value, Element(it.tag, it.content.value))
  {
    hide Element, PrintItems;
    PrintMore(items, it);
    if PrintItems(items + [it]).Some? {
      var p, e := PrintItems(items).value, Element(it.tag, it.content.value).value;
      assert start + (p + e) == start + p + e;
    }
  }

  /** An element of its own, as one more item. */
  method AddItem(cbb: Builder, tag: nat, data: seq<byte>, ghost start: seq<byte>, ghost items: seq<Item>)
    requires Holds(cbb, start, items)
    modifies cbb
    ensures Holds(cbb, start, items + [Item(tag, Some(data))])
  {
    hide PrintItems, Element;
    HoldsMore(start, items, Item(tag, Some(data)));
    cbb.AddElement(tag, data);
  }

  /** The three kinds of contents an explicitly tagged field has, besides plain bytes. */
  datatype Inner = InnerNumber(v: nat) | InnerOctets(data: seq<byte>) | InnerBoolean(b: bool) | InnerBytes(data: seq<byte>)

  function InnerContent(i: Inner): Option<seq<byte>> {
    match i
    case InnerNumber(v) => Number(v)
    case InnerOctets(data) => Octets(data)
    case InnerBoolean(b) => Boolean(b)
    case InnerBytes(data) => Some(data)
  }

  /** One of the blocks of SSL_SESSION_to_bytes_full: an explicit tag around an element. */
  method AddField(cbb: Builder, number: nat, inner: Inner, ghost start: seq<byte>, ghost items: seq<Item>)
    requires Holds(cbb, start, items) && (inner.InnerNumber? ==> inner.v < TWO_64)
    modifies cbb
    ensures Holds(cbb, start, items + [Item(Explicit(number), InnerContent(inner))])
  {
    hide PrintItems, Element, PutTag, IntegerBytes;
    HoldsMore(start, items, Item(Explicit(number), InnerContent(inner)));
    ghost var before := cbb.buf;
    var child := cbb.AddAsn1(Explicit(number));
    match inner {
      case InnerNumber(v) => cbb.AddUint64(v);
      case InnerOctets(data) => cbb.AddElement(OCTETSTRING, data);
      case InnerBoolean(b) => cbb.AddBool(b);
      case InnerBytes(data) => cbb.AddBytes(data);
    }
    cbb.Close(child, before, Explicit(number), if InnerContent(inner).Some? then InnerContent(inner).value else []);
  }

  /** Lines 313 to 325: the certificates behind the first. */
  method JoinChain(certs: seq<seq<byte>>) returns (all: seq<byte>)
    requires certs != []
    ensures all == Concat(certs[1..])
  {
    all := [];
    assert certs[1..1] == [];
    for i := 1 to |certs|
      invariant all == Concat(certs[1..i])
    {
      assert certs[1..i + 1] == certs[1..i] + [certs[i]];
      ConcatMore(certs[1..i], certs[i]);
      all := all + certs[i];
    }
    assert certs[1..|certs|] == certs[1..];
  }

  /** The element SSL_SESSION_to_bytes_full starts with, up to its place for the length. */
  method WriteHead(s: SslSession, forTicket: bool, cbb: Builder, ghost start: seq<byte>)
    requires Holds(cbb, start, []) && s.cipher.Some? && s.sslVersion < TWO_64
    modifies cbb
    ensures Holds(cbb, start, HeadItems(s.Value(), forTicket))
  {
    hide Element, PrintItems, Onto, IntegerBytes, PutBig;
    var id := if forTicket then [] else s.sessionId;
    ghost var a := Item(INTEGER, Some(IntegerBytes(K_VERSION)));
    ghost var b := Item(INTEGER, Some(IntegerBytes(s.sslVersion)));
    ghost var c := Item(OCTETSTRING, Some(PutBig(s.cipher.value, 2)));
    ghost var d := Item(OCTETSTRING, Some(id));
    AddNumber(cbb, K_VERSION, start, []);
    assert [] + [a] == [a];
    AddNumber(cbb, s.sslVersion, start, [a]);
    assert [a] + [b] == [a, b];
    AddItem(cbb, OCTETSTRING, PutBig(s.cipher.value, 2), start, [a, b]);
    assert [a, b] + [c] == [a, b, c];
    AddItem(cbb, OCTETSTRING, id, start, [a, b, c]);
    assert [a, b, c] + [d] == [a, b, c, d];
    AddItem(cbb, OCTETSTRING, s.masterKey, start, [a, b, c, d]);
    assert [a, b, c, d] + [Item(OCTETSTRING, Some(s.masterKey))] == HeadItems(s.Value(), forTicket);
  }

  method AddNumber(cbb: Builder, v: nat, ghost start: seq<byte>, ghost items: seq<Item>)
    requires Holds(cbb, start, items) && v < TWO_64
    modifies cbb
    ensures Holds(cbb, start, items + [Item(INTEGER, Some(IntegerBytes(v)))])
  {
    hide PrintItems, Element, IntegerBytes;
    HoldsMore(start, items, Item(INTEGER, Some(IntegerBytes(v))));
    cbb.AddUint64(v);
  }

  /** The builder holds everything in front of field `k`; `all` is everything. */
  ghost predicate WrittenTo(cbb: Builder, w: Writing, k: nat)
    reads cbb
  {
    Holds(cbb, w.start, w.items) && w.items + FieldsFrom(w.value, w.forTicket, k) == w.all
  }

  /** What is being written: the session, the bytes in front, the items so far and all of them. */
  datatype Writing = Writing(value: Session, forTicket: bool, start: seq<byte>, items: seq<Item>, all: seq<Item>)

  /** One of the optional blocks, in the order of the tag numbers; `k` is the number after the last block. */
  method AddOptional(cbb: Builder, number: nat, present: bool, inner: Inner, ghost k: nat, ghost w: Writing)
      returns (ghost w': Writing)
    requires WrittenTo(cbb, w, k) && k <= number <= 26 && (present && inner.InnerNumber? ==> inner.v < TWO_64)
    requires forall n :: k <= n < number ==> FieldAt(w.value, w.forTicket, n) == []
    requires FieldAt(w.value, w.forTicket, number) == Field(number, present, InnerContent(inner))
    modifies cbb
    ensures WrittenTo(cbb, w', number + 1) && w' == w.(items := w'.items)
  {
    hide Element, PrintItems, FieldAt, FieldsFrom, Holds, InnerContent;
    SkipTo(w.value, w.forTicket, k, number);
    w' := w;
    if present {
      AddField(cbb, number, inner, w.start, w.items);
      w' := w.(items := w.items + [Item(Explicit(number), InnerContent(inner))]);
    }
  }

  lemma {:induction false} SkipTo(s: Session, forTicket: bool, k: nat, number: nat)
    requires k <= number <= 26 && forall n :: k <= n < number ==> FieldAt(s, forTicket, n) == []
    ensures FieldsFrom(s, forTicket, k) == FieldsFrom(s, forTicket, number)
    ensures FieldsFrom(s, forTicket, number) == FieldAt(s, forTicket, number) + FieldsFrom(s, forTicket, number + 1)
    decreases number - k
  {
    hide FieldAt;
    if k < number { SkipTo(s, forTicket, k + 1, number); }
  }

  /** The fields that WriteFirst writes. */
  lemma FieldsFirst(v: Session, forTicket: bool)
    ensures FieldAt(v, forTicket, 1) == Field(1, true, InnerContent(InnerNumber(v.time)))
    ensures FieldAt(v, forTicket, 2) == Field(2, true, InnerContent(InnerNumber(v.timeout)))
    ensures var hasPeer := |v.certs| > 0 && v.peerSha256.None?;
      FieldAt(v, forTicket, 3) == Field(3, hasPeer, InnerContent(InnerBytes(if hasPeer then v.certs[0] else [])))
    ensures FieldAt(v, forTicket, 4) == Field(4, true, InnerContent(InnerOctets(v.sidCtx)))
    ensures FieldAt(v, forTicket, 5) == Field(5, v.verifyResult != 0, InnerContent(InnerNumber(v.verifyResult % TWO_64)))
    ensures FieldAt(v, forTicket, 8) == Field(8, v.pskIdentity.Some?, InnerContent(InnerOctets(Bytes(v.pskIdentity))))
    ensures FieldAt(v, forTicket, 9) == Field(9, v.tickLifetimeHint > 0, InnerContent(InnerNumber(v.tickLifetimeHint)))
    ensures FieldAt(v, forTicket, 10) == Field(10, v.tick.Some? && !forTicket, InnerContent(InnerOctets(Bytes(v.tick))))
    ensures FieldAt(v, forTicket, 6) == [] && FieldAt(v, forTicket, 7) == []
  {
    hide Element, IntegerBytes, Concat, PutBig, Explicit;
  }

  /** Lines 216 to 279. */
  method WriteFirst(s: SslSession, forTicket: bool, cbb: Builder, ghost w: Writing) returns (ghost w': Writing)
    requires s.Typed() && w.value == s.Value() && w.forTicket == forTicket && WrittenTo(cbb, w, 1)
    modifies cbb
    ensures WrittenTo(cbb, w', 11) && w' == w.(items := w'.items)
  {
    hide Element, Concat, PutBig, WrittenTo, FieldAt, Field, InnerContent;
    FieldsFirst(s.Value(), forTicket);
    w' := AddOptional(cbb, 1, true, InnerNumber(s.time), 1, w);
    w' := AddOptional(cbb, 2, true, InnerNumber(s.timeout), 2, w');
    var hasPeer := |s.certs| > 0 && s.peerSha256.None?;
    w' := AddOptional(cbb, 3, hasPeer, InnerBytes(if hasPeer then s.certs[0] else []), 3, w');
    w' := AddOptional(cbb, 4, true, InnerOctets(s.sidCtx), 4, w');
    w' := AddOptional(cbb, 5, s.verifyResult != 0, InnerNumber(s.verifyResult % TWO_64), 5, w');
    w' := AddOptional(cbb, 8, s.pskIdentity.Some?, InnerOctets(Bytes(s.pskIdentity)), 6, w');
    w' := AddOptional(cbb, 9, s.tickLifetimeHint > 0, InnerNumber(s.tickLifetimeHint), 9, w');
    w' := AddOptional(cbb, 10, s.tick.Some? && !forTicket, InnerOctets(Bytes(s.tick)), 10, w');
  }

  /** The fields that WriteSecond writes. */
  lemma FieldsSecond(v: Session, forTicket: bool)
    ensures FieldAt(v, forTicket, 13) == Field(13, v.peerSha256.Some?, InnerContent(InnerOctets(Bytes(v.peerSha256))))
    ensures FieldAt(v, forTicket, 14) == Field(14, |v.originalHandshakeHash| > 0, InnerContent(InnerOctets(v.originalHandshakeHash)))
    ensures FieldAt(v, forTicket, 15) == Field(15, v.sctList.Some?, InnerContent(InnerOctets(Bytes(v.sctList))))
    ensures FieldAt(v, forTicket, 16) == Field(16, v.ocspResponse.Some?, InnerContent(InnerOctets(Bytes(v.ocspResponse))))
    ensures FieldAt(v, forTicket, 17) == Field(17, v.extendedMasterSecret, InnerContent(InnerBoolean(true)))
    ensures FieldAt(v, forTicket, 18) == Field(18, v.groupId > 0, InnerContent(InnerNumber(v.groupId)))
    ensures var hasChain := v.peerSha256.None? && |v.certs| >= 2;
      FieldAt(v, forTicket, 19) == Field(19, hasChain, InnerContent(InnerBytes(if hasChain then Concat(v.certs[1..]) else [])))
    ensures FieldAt(v, forTicket, 11) == [] && FieldAt(v, forTicket, 12) == []
  {
    hide Element, IntegerBytes, Concat, PutBig, Explicit;
  }

  /** Lines 281 to 350. */
  method WriteSecond(s: SslSession, cbb: Builder, ghost w: Writing) returns (ghost w': Writing)
    requires s.Typed() && w.value == s.Value() && WrittenTo(cbb, w, 11)
    modifies cbb
    ensures WrittenTo(cbb, w', 20) && w' == w.(items := w'.items)
  {
    hide Element, Concat, PutBig, WrittenTo, FieldAt, Field, InnerContent;
    FieldsSecond(s.Value(), w.forTicket);
    w' := AddOptional(cbb, 13, s.peerSha256.Some?, InnerOctets(Bytes(s.peerSha256)), 11, w);
    w' := AddOptional(cbb, 14, |s.originalHandshakeHash| > 0, InnerOctets(s.originalHandshakeHash), 14, w');
    w' := AddOptional(cbb, 15, s.sctList.Some?, InnerOctets(Bytes(s.sctList)), 15, w');
    w' := AddOptional(cbb, 16, s.ocspResponse.Some?, InnerOctets(Bytes(s.ocspResponse)), 16, w');
    w' := AddOptional(cbb, 17, s.extendedMasterSecret, InnerBoolean(true), 17, w');
    w' := AddOptional(cbb, 18, s.groupId > 0, InnerNumber(s.groupId), 18, w');
    var chain: seq<byte> := [];
    var hasChain := s.peerSha256.None? && |s.certs| >= 2;
    if hasChain {
      chain := JoinChain(s.certs);
    }
    w' := AddOptional(cbb, 19, hasChain, InnerBytes(chain), 19, w');
  }

  /** The fields that WriteThird writes. */
  lemma FieldsThird(v: Session, forTicket: bool)
    ensures var age := if v.ticketAgeAdd.Some? then PutBig(v.ticketAgeAdd.value, 4) else [];
      FieldAt(v, forTicket, 21) == Field(21, v.ticketAgeAdd.Some?, InnerContent(InnerOctets(age)))
    ensures FieldAt(v, forTicket, 22) == Field(22, !v.isServer, InnerContent(InnerBoolean(false)))
    ensures FieldAt(v, forTicket, 23) == Field(23, v.peerSignatureAlgorithm != 0, InnerContent(InnerNumber(v.peerSignatureAlgorithm)))
    ensures FieldAt(v, forTicket, 24) == Field(24, v.ticketMaxEarlyData != 0, InnerContent(InnerNumber(v.ticketMaxEarlyData)))
    ensures FieldAt(v, forTicket, 25) == Field(25, v.timeout != v.authTimeout, InnerContent(InnerNumber(v.authTimeout)))
    ensures FieldAt(v, forTicket, 26) == Field(26, v.earlyAlpn.Some?, InnerContent(InnerOctets(Bytes(v.earlyAlpn))))
    ensures FieldAt(v, forTicket, 20) == []
  {
    hide Element, IntegerBytes, Concat, PutBig, Explicit;
  }

  /** Lines 352 to 396. */
  method WriteThird(s: SslSession, cbb: Builder, ghost w: Writing) returns (ghost w': Writing)
    requires s.Typed() && w.value == s.Value() && WrittenTo(cbb, w, 20)
    modifies cbb
    ensures WrittenTo(cbb, w', 27) && w' == w.(items := w'.items)
  {
    hide Element, Concat, PutBig, WrittenTo, FieldAt, Field, InnerContent;
    FieldsThird(s.Value(), w.forTicket);
    var age := if s.ticketAgeAdd.Some? then PutBig(s.ticketAgeAdd.value, 4) else [];
    w' := AddOptional(cbb, 21, s.ticketAgeAdd.Some?, InnerOctets(age), 20, w);
    w' := AddOptional(cbb, 22, !s.isServer, InnerBoolean(false), 22, w');
    w' := AddOptional(cbb, 23, s.peerSignatureAlgorithm != 0, InnerNumber(s.peerSignatureAlgorithm), 23, w');
    w' := AddOptional(cbb, 24, s.ticketMaxEarlyData != 0, InnerNumber(s.ticketMaxEarlyData), 24, w');
    w' := AddOptional(cbb, 25, s.timeout != s.authTimeout, InnerNumber(s.authTimeout), 25, w');
    w' := AddOptional(cbb, 26, s.earlyAlpn.Some?, InnerOctets(Bytes(s.earlyAlpn)), 26, w');
  }

  /** SSL_SESSION_to_bytes_full into a new builder, finished. */
  method ToBytesFull(s: SslSession, forTicket: bool) returns (bytes: Option<seq<byte>>)
    requires s.Typed()
    ensures bytes == ToBytes(s.Value(), forTicket)
  {
    hide Element, PrintItems, FieldAt, HeadItems, PutTag;
    if s.cipher.None? {
      return None;
    }
    var cbb := new Builder();
    var session := cbb.AddAsn1(SEQUENCE);
    ghost var start, value := cbb.buf, s.Value();
    ghost var all := HeadItems(value, forTicket) + FieldsFrom(value, forTicket, 1);
    assert [] + PutTag(SEQUENCE) + [0] == start;
    NothingHeld(start);
    WriteHead(s, forTicket, cbb, start);
    ghost var w := Writing(value, forTicket, start, HeadItems(value, forTicket), all);
    w := WriteFirst(s, forTicket, cbb, w);
    w := WriteSecond(s, cbb, w);
    w := WriteThird(s, cbb, w);
    assert w.items == all;
    ghost var body := PrintItems(all);
    cbb.Close(session, [], SEQUENCE, if body.Some? then body.value else []);
    bytes := cbb.Built();
    FromNothing(if body.Some? then Element(SEQUENCE, body.value) else None);
  }

  lemma FromNothing(o: Option<seq<byte>>)
    ensures Onto([], o) == o
  {
    if o.Some? { assert [] + o.value == o.value; }
  }

  lemma NothingHeld(start: seq<byte>)
    ensures Onto(start, PrintItems([])) == Some(start)
  {
    assert start + [] == start;
  }

  // Reading.

  /** Lines 580 to 590. */
  method ParseTimesInto(session: Cursor, ret: SslSession) returns (ok: bool, ghost times: Times)
    modifies session, ret`time, ret`timeout
    ensures ok == ParseTimes(old(session.rest)).Some?
    ensures ok ==> Some((times, session.rest)) == ParseTimes(old(session.rest))
    ensures ok ==> ret.time == times.time && ret.timeout == times.timeout
  {
    hide GetAsn1, GetNumber;
    var child, time, timeout;
    times := Times(0, 0);
    ok, child := session.GetTagged(Explicit(1));
    if !ok {
      return false, times;
    }
    var inner := new Cursor(child);
    ok, time := inner.GetUint64();
    if !ok {
      return false, times;
    }
    ret.time := time;
    ok, child := session.GetTagged(Explicit(2));
    if !ok {
      return false, times;
    }
    inner := new Cursor(child);
    ok, timeout := inner.GetUint64();
    if !ok || timeout >= TWO_32 {
      return false, times;
    }
    ret.timeout := timeout;
    times := Times(time, timeout);
  }

  /** Lines 535 to 597. */
  method ParseHeadInto(session: Cursor, ret: SslSession, known: nat -> bool) returns (ok: bool, ghost head: Head)
    modifies session, ret
    ensures ok == ParseHead(old(session.rest), known).Some?
    ensures ok ==> Some((head, session.rest)) == ParseHead(old(session.rest), known)
    ensures ok ==> HasHead(ret, head) && ret.timeout == head.timeout
  {
    hide GetAsn1, GetNumber, ParseTimes, BigEndian, ProtocolVersion;
    var version, sslVersion, cipherBytes, sessionId, masterKey;
    ghost var times;
    head := Head(0, 0, [], [], 0, 0);
    ok, version := session.GetUint64();
    if !ok || version != K_VERSION {
      return false, head;
    }
    ok, sslVersion := session.GetUint64();
    if !ok || sslVersion >= TWO_16 || ProtocolVersion(sslVersion).None? {
      return false, head;
    }
    ret.sslVersion := sslVersion;
    ok, cipherBytes := session.GetTagged(OCTETSTRING);
    if !ok || |cipherBytes| != 2 || !known(BigEndian(cipherBytes)) {
      return false, head;
    }
    ret.cipher := Some(BigEndian(cipherBytes));
    ok, sessionId := session.GetTagged(OCTETSTRING);
    if !ok || |sessionId| > MAX_SESSION_ID {
      return false, head;
    }
    ok, masterKey := session.GetTagged(OCTETSTRING);
    if !ok || |masterKey| > MAX_MASTER_KEY {
      return false, head;
    }
    ret.sessionId, ret.masterKey := sessionId, masterKey;
    ok, times := ParseTimesInto(session, ret);
    if !ok {
      return false, head;
    }
    head := Head(sslVersion, BigEndian(cipherBytes), sessionId, masterKey, times.time, times.timeout);
  }

  ghost predicate HasHead(ret: SslSession, h: Head)
    reads ret`sslVersion, ret`cipher, ret`sessionId, ret`masterKey, ret`time, ret`timeout
  {
    && ret.sslVersion == h.sslVersion && ret.cipher == Some(h.cipher) && ret.sessionId == h.sessionId
    && ret.masterKey == h.masterKey && ret.time == h.time && ret.timeout == h.timeout
  }

  /** Lines 599 to 634; the peer's certificate is handed back for the chain. */
  method ParseFirstInto(session: Cursor, ret: SslSession) returns (ok: bool, peer: Option<seq<byte>>, ghost first: First)
    modifies session, ret`sidCtx, ret`verifyResult, ret`pskIdentity, ret`tickLifetimeHint, ret`tick
    ensures ok == ParseFirst(old(session.rest)).Some?
    ensures ok ==> Some((first, session.rest)) == ParseFirst(old(session.rest)) && peer == first.peer
    ensures ok ==> HasFirst(ret, first)
  {
    hide GetOptional, GetOptionalOctets, GetOptionalNumber;
    var sidCtx, verifyResult, hostName, psk, hint, tick;
    first := First(None, [], 0, None, 0, None);
    ok, peer := session.GetOptionalAsn1(3);
    if !ok || peer == Some([]) {
      return false, peer, first;
    }
    ok, sidCtx := session.GetOctets(4);
    if !ok || |Bytes(sidCtx)| > MAX_SID_CTX {
      return false, peer, first;
    }
    ret.sidCtx := Bytes(sidCtx);
    ok, verifyResult := session.GetOptionalUint(5, 0, TWO_63);
    if !ok {
      return false, peer, first;
    }
    ret.verifyResult := verifyResult;
    ok, hostName := session.GetOptionalAsn1(6);
    if !ok {
      return false, peer, first;
    }
    ok, psk := session.GetOctets(8);
    if !ok || 0 in Bytes(psk) {
      return false, peer, first;
    }
    ret.pskIdentity := psk;
    ok, hint := session.GetOptionalUint(9, 0, TWO_32);
    if !ok {
      return false, peer, first;
    }
    ret.tickLifetimeHint := hint;
    ok, tick := session.GetOctets(10);
    if !ok {
      return false, peer, first;
    }
    ret.tick := Stowed(tick);
    first := First(peer, Bytes(sidCtx), verifyResult, psk, hint, Stowed(tick));
  }

  ghost predicate HasFirst(ret: SslSession, f: First)
    reads ret`sidCtx, ret`verifyResult, ret`pskIdentity, ret`tickLifetimeHint, ret`tick
  {
    && ret.sidCtx == f.sidCtx && ret.verifyResult == f.verifyResult && ret.pskIdentity == f.pskIdentity
    && ret.tickLifetimeHint == f.tickLifetimeHint && ret.tick == f.tick
  }

  /** Lines 636 to 698; the contents of the chain are handed back. */
  method ParseSecondInto(session: Cursor, ret: SslSession) returns (ok: bool, chain: Option<seq<byte>>, ghost second: Second)
    modifies session, ret`peerSha256, ret`originalHandshakeHash, ret`sctList, ret`ocspResponse
    modifies ret`extendedMasterSecret, ret`groupId
    ensures ok == ParseSecond(old(session.rest)).Some?
    ensures ok ==> Some((second, session.rest)) == ParseSecond(old(session.rest)) && chain == second.chain
    ensures ok ==> HasSecond(ret, second)
  {
    hide GetOptional, GetOptionalOctets, GetOptionalNumber, GetOptionalBoolean;
    chain, second := None, Second(None, [], None, None, false, 0, None);
    var sha, hash, sct, ocsp, ems, group;
    ok, sha := session.GetOctets(13);
    if !ok || (sha.Some? && |sha.value| != SHA256_LENGTH) {
      return false, chain, second;
    }
    ret.peerSha256 := sha;
    ok, hash := session.GetOctets(14);
    if !ok || |Bytes(hash)| > MAX_MD_SIZE {
      return false, chain, second;
    }
    ret.originalHandshakeHash := Bytes(hash);
    ok, sct := session.GetOctets(15);
    if !ok {
      return false, chain, second;
    }
    ret.sctList := sct;
    ok, ocsp := session.GetOctets(16);
    if !ok {
      return false, chain, second;
    }
    ret.ocspResponse := ocsp;
    ok, ems := session.GetOptionalBool(17, false);
    if !ok {
      return false, chain, second;
    }
    ret.extendedMasterSecret := ems;
    ok, group := session.GetOptionalUint(18, 0, TWO_16);
    if !ok {
      return false, chain, second;
    }
    ret.groupId := group;
    ok, chain := session.GetOptionalAsn1(19);
    if !ok || chain == Some([]) {
      return false, chain, second;
    }
    second := Second(sha, Bytes(hash), sct, ocsp, ems, group, chain);
  }

  ghost predicate HasSecond(ret: SslSession, g: Second)
    reads ret`peerSha256, ret`originalHandshakeHash, ret`sctList, ret`ocspResponse, ret`extendedMasterSecret, ret`groupId
  {
    && ret.peerSha256 == g.peerSha256 && ret.originalHandshakeHash == g.originalHandshakeHash && ret.sctList == g.sctList
    && ret.ocspResponse == g.ocspResponse && ret.extendedMasterSecret == g.extendedMasterSecret && ret.groupId == g.groupId
  }

  /** The stack of certificates, lines 672 to 698. */
  method ParseCertsInto(peer: Option<seq<byte>>, chain: Option<seq<byte>>, ret: SslSession) returns (ok: bool)
    modifies ret`certs
    ensures ok == ParseCerts(peer, chain).Some?
    ensures ok ==> Some(ret.certs) == ParseCerts(peer, chain)
  {
    hide GetAny, GetAnyElement;
    ret.certs := [];
    if peer.None? {
      return chain.None?;
    }
    ret.certs := [peer.value];
    var rest := new Cursor(Bytes(chain));
    ghost var done: seq<seq<byte>> := [];
    ChainFrom([], ParseChain(rest.rest));
    while |rest.rest| > 0
      invariant fresh(rest) && ret.certs == [peer.value] + done
      invariant ParseChain(Bytes(chain)) == Joined(done, ParseChain(rest.rest))
      decreases |rest.rest|
    {
      var before := rest.rest;
      ElementIs(before);
      var got, tag, content := rest.GetAnyAsn1();
      if !got {
        return false;
      }
      var cert := before[..|before| - |rest.rest|];
      ChainFrom(done + [cert], ParseChain(rest.rest));
      JoinOne(done, cert, ParseChain(rest.rest));
      done := done + [cert];
      ret.certs := ret.certs + [cert];
    }
    assert done + [] == done;
    ok := true;
  }

  /** Certificates read, in front of those still to come. */
  function Joined(done: seq<seq<byte>>, more: Option<seq<seq<byte>>>): Option<seq<seq<byte>>> {
    if more.Some? then Some(done + more.value) else None
  }

  lemma ChainFrom(done: seq<seq<byte>>, more: Option<seq<seq<byte>>>)
    ensures Joined([], more) == more
  {
    if more.Some? { assert [] + more.value == more.value; }
  }

  lemma JoinOne(done: seq<seq<byte>>, cert: seq<byte>, more: Option<seq<seq<byte>>>)
    ensures Joined(done, Joined([cert], more)) == Joined(done + [cert], more)
  {
    if more.Some? { assert done + ([cert] + more.value) == done + [cert] + more.value; }
  }

  lemma ElementIs(s: seq<byte>)
    requires s != []
    ensures GetAny(s).None? ==> ParseChain(s).None?
    ensures GetAny(s).Some? ==>
      ParseChain(s) == Joined([s[..|s| - |GetAny(s).value.2|]], ParseChain(GetAny(s).value.2))
  {
    hide GetAny;
  }

  /** Lines 700 to 752. */
  method ParseThirdInto(session: Cursor, ret: SslSession) returns (ok: bool, ghost third: Third)
    modifies session, ret`ticketAgeAdd, ret`isServer, ret`peerSignatureAlgorithm, ret`ticketMaxEarlyData
    modifies ret`authTimeout, ret`earlyAlpn
    ensures ok == ParseThird(old(session.rest), ret.timeout).Some?
    ensures ok ==> Some((third, session.rest)) == ParseThird(old(session.rest), ret.timeout)
    ensures ok ==> HasThird(ret, third)
  {
    hide GetOptional, GetOptionalOctets, GetOptionalNumber, GetOptionalBoolean, BigEndian;
    var age, isServer, algorithm, early, auth, alpn;
    third := Third(None, true, 0, 0, 0, None);
    ok, age := session.GetOctets(21);
    if !ok || (age.Some? && |age.value| != 4) {
      return false, third;
    }
    ret.ticketAgeAdd := if age.Some? then Some(BigEndian(age.value)) else None;
    ok, isServer := session.GetOptionalBool(22, true);
    if !ok {
      return false, third;
    }
    ret.isServer := isServer;
    ok, algorithm := session.GetOptionalUint(23, 0, TWO_16);
    if !ok {
      return false, third;
    }
    ret.peerSignatureAlgorithm := algorithm;
    ok, early := session.GetOptionalUint(24, 0, TWO_32);
    if !ok {
      return false, third;
    }
    ret.ticketMaxEarlyData := early;
    ok, auth := session.GetOptionalUint(25, ret.timeout, TWO_32);
    if !ok {
      return false, third;
    }
    ret.authTimeout := auth;
    ok, alpn := session.GetOctets(26);
    if !ok {
      return false, third;
    }
    ret.earlyAlpn := Stowed(alpn);
    third := Third(ret.ticketAgeAdd, isServer, algorithm, early, auth, Stowed(alpn));
  }

  ghost predicate HasThird(ret: SslSession, t: Third)
    reads ret`ticketAgeAdd, ret`isServer, ret`peerSignatureAlgorithm, ret`ticketMaxEarlyData, ret`authTimeout, ret`earlyAlpn
  {
    && ret.ticketAgeAdd == t.ticketAgeAdd && ret.isServer == t.isServer
    && ret.peerSignatureAlgorithm == t.peerSignatureAlgorithm && ret.ticketMaxEarlyData == t.ticketMaxEarlyData
    && ret.authTimeout == t.authTimeout && ret.earlyAlpn == t.earlyAlpn
  }

  lemma BuildIs(ret: SslSession, h: Head, f: First, g: Second, t: Third)
    requires HasHead(ret, h) && HasFirst(ret, f) && HasSecond(ret, g) && HasThird(ret, t)
    ensures ret.Value() == Build(h, f, g, ret.certs, t)
  {
  }

  /** SSL_SESSION_parse. */
  method SessionParse(cbs: Cursor, known: nat -> bool) returns (ok: bool, ret: SslSession)
    modifies cbs
    ensures ok == Parse(old(cbs.rest), known).Some? && fresh(ret)
    ensures ok ==> Some((ret.Value(), cbs.rest)) == Parse(old(cbs.rest), known)
  {
    hide GetAsn1, ParseBody, SslSession.Value;
    ret := new SslSession();
    var body;
    ok, body := cbs.GetTagged(SEQUENCE);
    if !ok {
      return;
    }
    var session := new Cursor(body);
    ok := ParseBodyInto(session, ret, known);
  }

  /** Lines 535 to 757. */
  method ParseBodyInto(session: Cursor, ret: SslSession, known: nat -> bool) returns (ok: bool)
    modifies session, ret
    ensures ok == ParseBody(old(session.rest), known).Some?
    ensures ok ==> Some(ret.Value()) == ParseBody(old(session.rest), known)
  {
    hide ParseHead, ParseFirst, ParseSecond, ParseThird, ParseCerts, Build, SslSession.Value;
    hide HasHead, HasFirst, HasSecond, HasThird;
    var peer, chain;
    ghost var h, f, g, t;
    ok, h := ParseHeadInto(session, ret, known);
    if !ok {
      return;
    }
    ok, peer, f := ParseFirstInto(session, ret);
    if !ok {
      return;
    }
    ok, chain, g := ParseSecondInto(session, ret);
    if !ok {
      return;
    }
    ok := ParseCertsInto(peer, chain, ret);
    if !ok {
      return;
    }
    ok, t := ParseThirdInto(session, ret);
    if !ok || session.rest != [] {
      return false;
    }
    BuildIs(ret, h, f, g, t);
  }
}
