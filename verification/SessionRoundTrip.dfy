/** Parsing a serialised session gives the session back, up to what the format does not keep. */
module SessionRoundTrip {
  import opened Bits
  import opened ByteString
  import opened Der
  import opened Session
  import opened CertChain

  /** What a reader can expect of a serialised session. */
  function Normal(s: Session, forTicket: bool): Session {
    s.(sessionId := if forTicket then [] else s.sessionId,
       tick := if forTicket then None else Stowed(s.tick),
       certs := if s.peerSha256.Some? then [] else s.certs,
       earlyAlpn := Stowed(s.earlyAlpn))
  }

  /** The fields hold values of their C types: numbers in range, arrays in size, C strings without NUL. */
  predicate Typed(s: Session) {
    && s.sslVersion < TWO_16 && (s.cipher.Some? ==> s.cipher.value < TWO_16)
    && |s.sessionId| <= 32 && |s.masterKey| <= 48
    && s.time < TWO_64 && s.timeout < TWO_32 && s.authTimeout < TWO_32
    && |s.sidCtx| <= 32
    && -(TWO_63 as int) <= s.verifyResult < TWO_63
    && 0 !in Bytes(s.pskIdentity)
    && s.tickLifetimeHint < TWO_32 && s.ticketMaxEarlyData < TWO_32
    && (s.peerSha256.Some? ==> |s.peerSha256.value| == 32)
    && |s.originalHandshakeHash| <= 64
    && s.groupId < TWO_16 && s.peerSignatureAlgorithm < TWO_16
    && (s.ticketAgeAdd.Some? ==> s.ticketAgeAdd.value < TWO_32)
  }

  /** What the parser insists on and the printer does not: the version and cipher are known, the result is not negative. */
  predicate Accepted(s: Session, known: nat -> bool)
    requires s.cipher.Some?
  {
    ProtocolVersion(s.sslVersion).Some? && known(s.cipher.value) && s.verifyResult >= 0
  }

  /** The certificates that are written: a leaf that is not empty, then single elements. */
  predicate CertsOk(s: Session) {
    s.certs != [] && s.peerSha256.None? ==>
      s.certs[0] != [] && forall i :: 1 <= i < |s.certs| ==> IsElement(s.certs[i])
  }

  // Items.

  /** The first of the printed items is read, and the others are left. */
  lemma NextItem(items: seq<Item>)
    requires items != [] && PrintItems(items).Some? && items[0].tag < TWO_32
    ensures items[0].content.Some? && PrintItems(items[1..]).Some?
    ensures GetAny(PrintItems(items).value) == Some((items[0].tag, items[0].content.value, PrintItems(items[1..]).value))
    ensures PeekTag(PrintItems(items).value, items[0].tag)
    ensures forall other :: other != items[0].tag ==> !PeekTag(PrintItems(items).value, other)
  {
    hide Element, GetAny, PeekTag;
    ElementRoundTrip(items[0].tag, items[0].content.value, PrintItems(items[1..]).value);
  }

  predicate TagsFrom(items: seq<Item>, k: nat) {
    forall i :: 0 <= i < |items| ==> Explicit(k) <= items[i].tag < Explicit(27)
  }

  lemma FieldTag(s: Session, forTicket: bool, k: nat)
    requires 1 <= k <= 26
    ensures |FieldAt(s, forTicket, k)| <= 1
    ensures FieldAt(s, forTicket, k) != [] ==> FieldAt(s, forTicket, k)[0].tag == Explicit(k)
  {
    hide Element, IntegerBytes, Concat, PutBig;
  }

  lemma {:induction false} FieldsTags(s: Session, forTicket: bool, k: nat)
    requires k >= 1
    ensures TagsFrom(FieldsFrom(s, forTicket, k), k)
    decreases 27 - k
  {
    hide FieldAt;
    if k < 27 {
      FieldTag(s, forTicket, k);
      FieldsTags(s, forTicket, k + 1);
    }
  }

  lemma NoSuchTag(items: seq<Item>, k: nat)
    requires TagsFrom(items, k + 1) && PrintItems(items).Some? && k < 27
    ensures !PeekTag(PrintItems(items).value, Explicit(k))
  {
    if items != [] {
      assert items[0].tag < TWO_32;
      NextItem(items);
    }
  }

  /** The bytes of the fields from number `k` on. */
  function Rest(s: Session, forTicket: bool, k: nat): seq<byte> {
    var r := PrintItems(FieldsFrom(s, forTicket, k));
    if r.Some? then r.value else []
  }

  predicate Prints(s: Session, forTicket: bool, k: nat) {
    PrintItems(FieldsFrom(s, forTicket, k)).Some?
  }

  /** The contents of field `k`, if it is written. */
  function ContentAt(s: Session, forTicket: bool, k: nat): Option<seq<byte>> {
    if FieldAt(s, forTicket, k) == [] then None else FieldAt(s, forTicket, k)[0].content
  }

  /** Reading optional field `k` where the fields from `k` on stand. */
  lemma OptionalStep(s: Session, forTicket: bool, k: nat)
    requires 1 <= k <= 26 && Prints(s, forTicket, k)
    ensures Prints(s, forTicket, k + 1)
    ensures FieldAt(s, forTicket, k) != [] ==> FieldAt(s, forTicket, k)[0].content.Some?
    ensures GetOptional(Rest(s, forTicket, k), k) == Some((ContentAt(s, forTicket, k), Rest(s, forTicket, k + 1)))
    ensures FieldAt(s, forTicket, k) != [] ==>
      GetAsn1(Rest(s, forTicket, k), Explicit(k)) == Some((FieldAt(s, forTicket, k)[0].content.value, Rest(s, forTicket, k + 1)))
  {
    hide FieldAt, PeekTag, GetAny, PrintItems;
    var items, more := FieldsFrom(s, forTicket, k), FieldsFrom(s, forTicket, k + 1);
    FieldTag(s, forTicket, k);
    if FieldAt(s, forTicket, k) == [] {
      assert items == more;
      FieldsTags(s, forTicket, k + 1);
      NoSuchTag(more, k);
    } else {
      assert items[1..] == more;
      NextItem(items);
    }
  }

  /** A number without a field leaves the bytes as they are. */
  lemma NoField(s: Session, forTicket: bool, k: nat)
    requires 1 <= k <= 26 && FieldAt(s, forTicket, k) == []
    ensures Prints(s, forTicket, k) == Prints(s, forTicket, k + 1)
    ensures Rest(s, forTicket, k) == Rest(s, forTicket, k + 1)
  {
    hide FieldAt, PrintItems;
    assert FieldsFrom(s, forTicket, k) == FieldsFrom(s, forTicket, k + 1);
  }

  // Typed fields.

  lemma OnlyElement(tag: nat, content: seq<byte>)
    requires tag < TWO_32 && Element(tag, content).Some?
    ensures Only(Element(tag, content).value, tag) == Some(content)
  {
    hide Element, GetAny;
    ElementRoundTrip(tag, content, []);
    assert Element(tag, content).value + [] == Element(tag, content).value;
  }

  lemma OctetsStep(s: Session, forTicket: bool, k: nat, data: Option<seq<byte>>)
    requires 1 <= k <= 26 && Prints(s, forTicket, k)
    requires FieldAt(s, forTicket, k) == Field(k, data.Some?, OctetsIf(data))
    ensures Prints(s, forTicket, k + 1)
    ensures GetOptionalOctets(Rest(s, forTicket, k), k) == Some((data, Rest(s, forTicket, k + 1)))
  {
    hide FieldAt, Rest, Prints, GetOptional, Element, Only, GetAsn1;
    OptionalStep(s, forTicket, k);
    if data.Some? { OnlyElement(OCTETSTRING, data.value); }
  }

  lemma NumberStep(s: Session, forTicket: bool, k: nat, present: bool, v: nat, absent: nat, bound: nat)
    requires 1 <= k <= 26 && Prints(s, forTicket, k) && v < TWO_64
    requires FieldAt(s, forTicket, k) == Field(k, present, Number(v)) && (!present ==> v == absent)
    ensures Prints(s, forTicket, k + 1)
    ensures GetOptionalNumber(Rest(s, forTicket, k), k, absent, bound)
         == if v < bound then Some((v, Rest(s, forTicket, k + 1))) else None
  {
    hide FieldAt, Rest, Prints, GetOptional, Element, Only, IntegerBytes, ParseInteger, GetAsn1;
    OptionalStep(s, forTicket, k);
    if present {
      IntegerRoundTrip(v);
      OnlyElement(INTEGER, IntegerBytes(v));
    }
  }

  lemma BooleanStep(s: Session, forTicket: bool, k: nat, b: bool, absent: bool)
    requires 1 <= k <= 26 && Prints(s, forTicket, k)
    requires FieldAt(s, forTicket, k) == Field(k, b != absent, Boolean(b))
    ensures Prints(s, forTicket, k + 1)
    ensures GetOptionalBoolean(Rest(s, forTicket, k), k, absent) == Some((b, Rest(s, forTicket, k + 1)))
  {
    hide FieldAt, Rest, Prints, GetOptional, Element, Only, GetAsn1;
    OptionalStep(s, forTicket, k);
    if b != absent { OnlyElement(BOOLEAN, [if b then 0xff else 0]); }
  }

  // The parts of the parser.

  predicate WritesCerts(s: Session) {
    s.certs != [] && s.peerSha256.None?
  }

  function PeerOf(s: Session): Option<seq<byte>> {
    if WritesCerts(s) then Some(s.certs[0]) else None
  }

  function ChainOf(s: Session): Option<seq<byte>> {
    if WritesCerts(s) && |s.certs| >= 2 then Some(Concat(s.certs[1..])) else None
  }

  function FirstOf(s: Session, forTicket: bool): First
    requires s.verifyResult >= 0
  {
    First(PeerOf(s), s.sidCtx, s.verifyResult, s.pskIdentity, s.tickLifetimeHint,
          if forTicket then None else Stowed(s.tick))
  }

  lemma FirstRoundTrip(s: Session, forTicket: bool)
    requires Typed(s) && Prints(s, forTicket, 3)
    ensures Prints(s, forTicket, 13)
    ensures ParseFirst(Rest(s, forTicket, 3))
         == if PeerOf(s) == Some([]) || s.verifyResult < 0 then None
            else Some((FirstOf(s, forTicket), Rest(s, forTicket, 13)))
  {
    hide Rest, Prints, GetOptional, GetOptionalOctets, GetOptionalNumber, Element, IntegerBytes, Concat, ProtocolVersion;
    OptionalStep(s, forTicket, 3);
    OctetsStep(s, forTicket, 4, Some(s.sidCtx));
    NumberStep(s, forTicket, 5, s.verifyResult != 0, s.verifyResult % TWO_64, 0, TWO_63);
    OptionalStep(s, forTicket, 6);
    NoField(s, forTicket, 7);
    OctetsStep(s, forTicket, 8, s.pskIdentity);
    NumberStep(s, forTicket, 9, s.tickLifetimeHint > 0, s.tickLifetimeHint, 0, TWO_32);
    OctetsStep(s, forTicket, 10, if forTicket then None else s.tick);
    NoField(s, forTicket, 11);
    NoField(s, forTicket, 12);
  }

  function SecondOf(s: Session): Second {
    Second(s.peerSha256, s.originalHandshakeHash, s.sctList, s.ocspResponse, s.extendedMasterSecret, s.groupId, ChainOf(s))
  }

  lemma SecondRoundTrip(s: Session, forTicket: bool)
    requires Typed(s) && Prints(s, forTicket, 13)
    ensures Prints(s, forTicket, 21)
    ensures ParseSecond(Rest(s, forTicket, 13))
         == if ChainOf(s) == Some([]) then None else Some((SecondOf(s), Rest(s, forTicket, 21)))
  {
    hide Rest, Prints, GetOptional, GetOptionalOctets, GetOptionalNumber, GetOptionalBoolean, Element, IntegerBytes, Concat;
    hide ProtocolVersion;
    var hash := if s.originalHandshakeHash == [] then None else Some(s.originalHandshakeHash);
    OctetsStep(s, forTicket, 13, s.peerSha256);
    OctetsStep(s, forTicket, 14, hash);
    OctetsStep(s, forTicket, 15, s.sctList);
    OctetsStep(s, forTicket, 16, s.ocspResponse);
    BooleanStep(s, forTicket, 17, s.extendedMasterSecret, false);
    NumberStep(s, forTicket, 18, s.groupId > 0, s.groupId, 0, TWO_16);
    OptionalStep(s, forTicket, 19);
    NoField(s, forTicket, 20);
  }

  function ThirdOf(s: Session): Third {
    Third(s.ticketAgeAdd, s.isServer, s.peerSignatureAlgorithm, s.ticketMaxEarlyData, s.authTimeout, Stowed(s.earlyAlpn))
  }

  lemma ThirdRoundTrip(s: Session, forTicket: bool)
    requires Typed(s) && Prints(s, forTicket, 21)
    ensures ParseThird(Rest(s, forTicket, 21), s.timeout) == Some((ThirdOf(s), []))
  {
    hide Rest, Prints, GetOptional, GetOptionalOctets, GetOptionalNumber, GetOptionalBoolean, Element, IntegerBytes, Concat;
    hide ProtocolVersion, PutBig, BigEndian, Pow2;
    var age := if s.ticketAgeAdd.Some? then Some(PutBig(s.ticketAgeAdd.value, 4)) else None;
    if s.ticketAgeAdd.Some? {
      SmallPowers();
      BigRoundTrip(s.ticketAgeAdd.value, 4);
    }
    OctetsStep(s, forTicket, 21, age);
    BooleanStep(s, forTicket, 22, s.isServer, true);
    NumberStep(s, forTicket, 23, s.peerSignatureAlgorithm != 0, s.peerSignatureAlgorithm, 0, TWO_16);
    NumberStep(s, forTicket, 24, s.ticketMaxEarlyData != 0, s.ticketMaxEarlyData, 0, TWO_32);
    NumberStep(s, forTicket, 25, s.timeout != s.authTimeout, s.authTimeout, s.timeout, TWO_32);
    OctetsStep(s, forTicket, 26, s.earlyAlpn);
    assert Rest(s, forTicket, 27) == [] by { NothingLeft(s, forTicket); }
  }

  lemma NothingLeft(s: Session, forTicket: bool)
    ensures Rest(s, forTicket, 27) == []
  {
  }

  // The head.

  function HeadOf(s: Session, forTicket: bool): Head
    requires s.cipher.Some?
  {
    Head(s.sslVersion, s.cipher.value, if forTicket then [] else s.sessionId, s.masterKey, s.time, s.timeout)
  }

  /** The bytes of items `i` on, of all that stand in the SEQUENCE. */
  function Behind(items: seq<Item>, i: nat): seq<byte>
    requires i <= |items|
  {
    var r := PrintItems(items[i..]);
    if r.Some? then r.value else []
  }

  lemma ItemStep(items: seq<Item>, i: nat)
    requires i < |items| && PrintItems(items[i..]).Some? && items[i].tag < TWO_32
    ensures PrintItems(items[i + 1..]).Some? && items[i].content.Some?
    ensures GetAsn1(Behind(items, i), items[i].tag) == Some((items[i].content.value, Behind(items, i + 1)))
  {
    hide GetAny, PeekTag, PrintItems;
    NextItem(items[i..]);
    assert items[i..][1..] == items[i + 1..];
  }

  /** A time stands alone in its field. */
  lemma TimeStep(s: Session, forTicket: bool, k: nat, v: nat)
    requires 1 <= k <= 2 && Prints(s, forTicket, k) && v < TWO_64
    requires FieldAt(s, forTicket, k) == Field(k, true, Number(v))
    ensures Prints(s, forTicket, k + 1)
    ensures GetAsn1(Rest(s, forTicket, k), Explicit(k)).Some?
    ensures var (child, rest) := GetAsn1(Rest(s, forTicket, k), Explicit(k)).value;
      rest == Rest(s, forTicket, k + 1) && GetNumber(child) == Some((v, []))
  {
    hide FieldAt, Rest, Prints, GetOptional, Element, IntegerBytes, ParseInteger, GetAny;
    OptionalStep(s, forTicket, k);
    IntegerRoundTrip(v);
    var child := Number(v).value;
    ElementRoundTrip(INTEGER, IntegerBytes(v), []);
    assert child + [] == child;
  }

  lemma HeadRoundTrip(s: Session, forTicket: bool, known: nat -> bool)
    requires Typed(s) && s.cipher.Some?
    requires PrintItems(HeadItems(s, forTicket) + FieldsFrom(s, forTicket, 1)).Some?
    ensures Prints(s, forTicket, 3)
    ensures ParseHead(PrintItems(HeadItems(s, forTicket) + FieldsFrom(s, forTicket, 1)).value, known)
         == if ProtocolVersion(s.sslVersion).None? || !known(s.cipher.value) then None
            else Some((HeadOf(s, forTicket), Rest(s, forTicket, 3)))
  {
    hide PrintItems, GetAsn1, IntegerBytes, ParseInteger, Rest, Prints, BigEndian, PutBig, Pow2, FieldsFrom, Behind;
    var items := HeadItems(s, forTicket) + FieldsFrom(s, forTicket, 1);
    IntegerRoundTrip(K_VERSION);
    IntegerRoundTrip(s.sslVersion);
    SmallPowers();
    BigRoundTrip(s.cipher.value, 2);
    AllBehind(items);
    ItemStep(items, 0);
    ItemStep(items, 1);
    ItemStep(items, 2);
    ItemStep(items, 3);
    ItemStep(items, 4);
    HeadIsOver(s, forTicket);
    TimeStep(s, forTicket, 1, s.time);
    TimeStep(s, forTicket, 2, s.timeout);
  }

  lemma AllBehind(items: seq<Item>)
    requires PrintItems(items).Some?
    ensures Behind(items, 0) == PrintItems(items).value && PrintItems(items[0..]).Some?
  {
    assert items[0..] == items;
  }

  lemma HeadIsOver(s: Session, forTicket: bool)
    requires s.cipher.Some?
    ensures var items := HeadItems(s, forTicket) + FieldsFrom(s, forTicket, 1);
      Behind(items, 5) == Rest(s, forTicket, 1) && (PrintItems(items[5..]).Some? <==> Prints(s, forTicket, 1))
  {
    hide PrintItems, FieldsFrom;
    var items := HeadItems(s, forTicket) + FieldsFrom(s, forTicket, 1);
    assert items[5..] == FieldsFrom(s, forTicket, 1);
  }

  // The whole session.

  /** The certificates come back exactly when they are as CertsOk says. */
  lemma CertsRoundTrip(s: Session)
    ensures WritesCerts(s) && PeerOf(s) != Some([]) && ChainOf(s) != Some([]) ==>
      (ParseCerts(PeerOf(s), ChainOf(s)) == Some(s.certs) <==> CertsOk(s))
    ensures WritesCerts(s) && (PeerOf(s) == Some([]) || ChainOf(s) == Some([])) ==> !CertsOk(s)
    ensures !WritesCerts(s) ==> ParseCerts(PeerOf(s), ChainOf(s)) == Some([])
  {
    hide IsElement, Concat, ParseChain;
    if WritesCerts(s) {
      var chain := s.certs[1..];
      ChainRoundTrip(chain);
      assert (forall i :: 0 <= i < |chain| ==> IsElement(chain[i])) <==> (forall i :: 1 <= i < |s.certs| ==> IsElement(s.certs[i])) by {
        Shifted(s.certs);
      }
      assert s.certs == [s.certs[0]] + chain;
      if chain == [] { assert Concat(chain) == [] by { ConcatNothing(); } }
      if chain != [] && Concat(chain) == [] { NothingIsNoChain(chain); }
    }
  }

  lemma Shifted(certs: seq<seq<byte>>)
    requires certs != []
    ensures (forall i :: 0 <= i < |certs[1..]| ==> IsElement(certs[1..][i])) <==> (forall i :: 1 <= i < |certs| ==> IsElement(certs[i]))
  {
    hide IsElement;
    if forall i :: 0 <= i < |certs[1..]| ==> IsElement(certs[1..][i]) {
      forall i | 1 <= i < |certs| ensures IsElement(certs[i]) { assert certs[i] == certs[1..][i - 1]; }
    }
  }

  lemma ConcatNothing()
    ensures Concat([]) == []
  {
  }

  /** Entries that add up to nothing are not elements. */
  lemma NothingIsNoChain(chain: seq<seq<byte>>)
    requires chain != [] && Concat(chain) == []
    ensures !IsElement(chain[0])
  {
    hide IsElement;
    assert chain[0] == [];
    if IsElement(chain[0]) { NotEmpty(chain[0]); }
  }

  /** What the parser builds from the parts is the session. */
  lemma BuildNormal(s: Session, forTicket: bool, certs: seq<seq<byte>>)
    requires s.cipher.Some? && s.verifyResult >= 0
    ensures Build(HeadOf(s, forTicket), FirstOf(s, forTicket), SecondOf(s), certs, ThirdOf(s))
         == Normal(s, forTicket).(certs := certs)
  {
  }

  /**
    Parsing a serialised session succeeds with nothing left over and gives the same session, with
    certificates left out when their hash is kept instead, a ticket's own session ID and ticket
    left out, and empty strings read as absent; exactly when its version and cipher are known, its
    verify_result is not negative, and the certificates it writes are a leaf that is not empty
    and single DER elements.
   */
  lemma SessionParsesBack(s: Session, forTicket: bool, known: nat -> bool, t: seq<byte>)
    requires Typed(s) && ToBytes(s, forTicket).Some?
    ensures Parse(ToBytes(s, forTicket).value + t, known) == Some((Normal(s, forTicket), t))
       <==> Accepted(s, known) && CertsOk(s)
  {
    hide PrintItems, Element, GetAny, ParseHead, ParseFirst, ParseSecond, ParseThird, Rest, Prints, FieldsFrom, CertsOk, ProtocolVersion;
    hide ParseCerts, PeerOf, ChainOf, Build, Normal, Typed, HeadOf, FirstOf, SecondOf, ThirdOf;
    var body := PrintItems(HeadItems(s, forTicket) + FieldsFrom(s, forTicket, 1)).value;
    ElementRoundTrip(SEQUENCE, body, t);
    HeadRoundTrip(s, forTicket, known);
    FirstRoundTrip(s, forTicket);
    SecondRoundTrip(s, forTicket);
    ThirdRoundTrip(s, forTicket);
    CertsRoundTrip(s);
    if s.verifyResult >= 0 {
      PartsFit(s, forTicket);
      var certs := ParseCerts(PeerOf(s), ChainOf(s));
      if certs.Some? { BuildNormal(s, forTicket, certs.value); }
    }
  }

  lemma PartsFit(s: Session, forTicket: bool)
    requires s.cipher.Some? && s.verifyResult >= 0
    ensures FirstOf(s, forTicket).peer == PeerOf(s) && SecondOf(s).chain == ChainOf(s)
    ensures HeadOf(s, forTicket).timeout == s.timeout
    ensures Normal(s, forTicket).certs == if WritesCerts(s) then s.certs else []
    ensures forall certs :: Normal(s, forTicket).(certs := certs) == Normal(s, forTicket) <==> certs == Normal(s, forTicket).certs
    ensures !WritesCerts(s) ==> CertsOk(s) && PeerOf(s).None? && ChainOf(s).None?
  {
    hide IsElement, Concat;
  }
}
