/** SSL_SESSION_parse accepts exactly the bytes that spell a session, and gives that session. */
module SessionExact {
  import opened Bits
  import opened ByteString
  import opened Der
  import opened DerExact
  import opened Session
  import opened CertChain
  import opened SessionRoundTrip
  import opened SessionFormat
  import opened SessionGrammar

  /** The contents of the tagged fields, by tag number. */
  type Contents = c: seq<Option<seq<byte>>> | |c| == 27 witness seq(27, (_: nat) => None)

  /** The fields with tag numbers from `k` on, before `end`. */
  function Raw(c: Contents, k: nat, end: nat): seq<byte>
    requires 1 <= k <= end <= 27
    decreases end - k
  {
    if k == end then [] else OptionalField(k, c[k]) + Raw(c, k + 1, end)
  }

  lemma RawNext(c: Contents, k: nat, end: nat, rest: seq<byte>)
    requires 1 <= k < end <= 27
    ensures Raw(c, k, end) + rest == OptionalField(k, c[k]) + (Raw(c, k + 1, end) + rest)
  {
    hide OptionalField;
  }

  lemma RawEnd(c: Contents, k: nat, rest: seq<byte>)
    requires 1 <= k <= 27
    ensures Raw(c, k, k) + rest == rest
  {
  }

  lemma {:induction false} RawSame(c: Contents, d: Contents, k: nat, end: nat)
    requires 1 <= k <= end <= 27 && forall j :: k <= j < end ==> c[j] == d[j]
    ensures Raw(c, k, end) == Raw(d, k, end)
    decreases end - k
  {
    hide OptionalField;
    if k < end { RawSame(c, d, k + 1, end); }
  }

  lemma {:induction false} RawJoin(c: Contents, k: nat, mid: nat, end: nat)
    requires 1 <= k <= mid <= end <= 27
    ensures Raw(c, k, end) == Raw(c, k, mid) + Raw(c, mid, end)
    decreases mid - k
  {
    hide OptionalField;
    if k < mid {
      RawJoin(c, k + 1, mid, end);
      assert OptionalField(k, c[k]) + (Raw(c, k + 1, mid) + Raw(c, mid, end))
          == OptionalField(k, c[k]) + Raw(c, k + 1, mid) + Raw(c, mid, end);
    } else {
      assert [] + Raw(c, mid, end) == Raw(c, mid, end);
    }
  }

  predicate AllShort(c: Contents) {
    forall k :: 1 <= k <= 26 ==> Short(c[k])
  }

  /** The next field is read, and what follows it left. */
  lemma ReadsNext(c: Contents, k: nat, end: nat, rest: seq<byte>)
    requires 1 <= k < end <= 27 && AllShort(c) && From(rest, end)
    ensures From(Raw(c, k, end) + rest, k)
    ensures GetOptional(Raw(c, k, end) + rest, k) == Some((c[k], Raw(c, k + 1, end) + rest))
    decreases end - k
  {
    hide OptionalField, GetOptional, Short;
    RawNext(c, k, end, rest);
    RestFrom(c, k + 1, end, rest);
    Takes(k, c[k], Raw(c, k + 1, end) + rest);
  }

  lemma {:induction false} RestFrom(c: Contents, k: nat, end: nat, rest: seq<byte>)
    requires 1 <= k <= end <= 27 && AllShort(c) && From(rest, end)
    ensures From(Raw(c, k, end) + rest, k)
    decreases end - k
  {
    hide OptionalField, GetOptional, Short;
    if k == end {
      RawEnd(c, k, rest);
    } else {
      RawNext(c, k, end, rest);
      RestFrom(c, k + 1, end, rest);
      Takes(k, c[k], Raw(c, k + 1, end) + rest);
    }
  }

  lemma EmptyField(k: nat)
    requires 1 <= k <= 26
    ensures OptionalField(k, None) == []
  {
  }

  /** A field that has no tag number of its own is not there. */
  lemma Skips(c: Contents, k: nat, end: nat, rest: seq<byte>)
    requires 1 <= k < end <= 27 && c[k].None?
    ensures Raw(c, k, end) + rest == Raw(c, k + 1, end) + rest
  {
    hide Raw, OptionalField;
    EmptyField(k);
    RawNext(c, k, end, rest);
    assert [] + (Raw(c, k + 1, end) + rest) == Raw(c, k + 1, end) + rest;
  }

  // Texts that read as empty when they are not there, or as absent when they are empty.

  predicate OctetsOr(c: Option<seq<byte>>, data: seq<byte>) {
    if c.None? then data == [] else |data| < 0x1_0000_0000 && c.value == OctetString(data)
  }

  predicate StowedIn(c: Option<seq<byte>>, data: Option<seq<byte>>) {
    data != Some([]) && OctetsOr(c, Have(data))
  }

  lemma OctetsOrIn(c: Option<seq<byte>>, data: seq<byte>)
    ensures OctetsOr(c, data) <==> OctetsIn(c, if c.None? then None else Some(data)) && (c.None? ==> data == [])
  {
  }

  lemma StowedOf(c: Option<seq<byte>>, data: Option<seq<byte>>)
    ensures OctetsIn(c, data) ==> StowedIn(c, Stowed(data)) && OctetsOr(c, Bytes(data))
  {
  }

  lemma StowedBack(c: Option<seq<byte>>, data: Option<seq<byte>>)
    requires StowedIn(c, data)
    ensures var d := if c.None? then None else Some(Have(data)); OctetsIn(c, d) && Stowed(d) == data
  {
  }

  // The fields one by one, as the parser groups them.

  predicate FirstIn(c: Contents, f: First) {
    && f.peer == c[3] && c[3] != Some([])
    && OctetsOr(c[4], f.sidCtx) && |f.sidCtx| <= 32
    && NumberIn(c[5], f.verifyResult, 0) && f.verifyResult < 0x8000_0000_0000_0000
    && OctetsIn(c[8], f.pskIdentity) && 0 !in Have(f.pskIdentity)
    && NumberIn(c[9], f.tickLifetimeHint, 0) && f.tickLifetimeHint < 0x1_0000_0000
    && StowedIn(c[10], f.tick)
    && c[7].None? && c[11].None? && c[12].None?
  }

  lemma FirstSpelled(s: seq<byte>) returns (c: Contents)
    requires ParseFirst(s).Some?
    ensures var (f, rest) := ParseFirst(s).value;
      AllShort(c) && FirstIn(c, f) && s == Raw(c, 3, 13) + rest
  {
    hide GetOptional, GetOptionalOctets, GetOptionalNumber, OptionalField, Raw, NumberIn, OctetsIn, OctetsOr, StowedIn, Short, Stowed;
    var (peer, s3) := GetOptional(s, 3).value;
    var (sidCtx, s4) := GetOptionalOctets(s3, 4).value;
    OctetsRest(s3, 4);
    var (verifyResult, s5) := GetOptionalNumber(s4, 5, 0, TWO_63).value;
    NumberRest(s4, 5, 0, TWO_63);
    var (host, s6) := GetOptional(s5, 6).value;
    var (psk, s8) := GetOptionalOctets(s6, 8).value;
    OctetsRest(s6, 8);
    var (hint, s9) := GetOptionalNumber(s8, 9, 0, TWO_32).value;
    NumberRest(s8, 9, 0, TWO_32);
    var (tick, s10) := GetOptionalOctets(s9, 10).value;
    OctetsRest(s9, 10);
    var c4, c5, c8 := GetOptional(s3, 4).value.0, GetOptional(s4, 5).value.0, GetOptional(s6, 8).value.0;
    var c9, c10 := GetOptional(s8, 9).value.0, GetOptional(s9, 10).value.0;
    c := [None, None, None, peer, c4, c5, host, None, c8, c9, c10] + seq(16, _ => None);
    Took(s, 3);
    Took(s3, 4);
    Took(s4, 5);
    Took(s5, 6);
    Took(s6, 8);
    Took(s8, 9);
    Took(s9, 10);
    NothingShort();
    OctetsTaken(s3, 4, c4, s4, sidCtx);
    StowedOf(c4, sidCtx);
    NumberTaken(s4, 5, 0, TWO_63, c5, s5, verifyResult);
    OctetsTaken(s6, 8, c8, s8, psk);
    NumberTaken(s8, 9, 0, TWO_32, c9, s9, hint);
    OctetsTaken(s9, 10, c10, s10, tick);
    StowedOf(c10, tick);
    FirstJoined(c, s, s3, s4, s5, s6, s8, s9, s10);
  }

  lemma NothingShort()
    ensures Short(None)
  {
  }

  lemma FirstJoined(c: Contents, s: seq<byte>, s3: seq<byte>, s4: seq<byte>, s5: seq<byte>, s6: seq<byte>, s8: seq<byte>,
                    s9: seq<byte>, s10: seq<byte>)
    requires c[7].None? && c[11].None? && c[12].None?
    requires s == OptionalField(3, c[3]) + s3 && s3 == OptionalField(4, c[4]) + s4 && s4 == OptionalField(5, c[5]) + s5
    requires s5 == OptionalField(6, c[6]) + s6 && s6 == OptionalField(8, c[8]) + s8 && s8 == OptionalField(9, c[9]) + s9
    requires s9 == OptionalField(10, c[10]) + s10
    ensures s == Raw(c, 3, 13) + s10
  {
    hide OptionalField, Raw;
    RawEnd(c, 13, s10);
    Skips(c, 12, 13, s10);
    Skips(c, 11, 13, s10);
    RawNext(c, 10, 13, s10);
    RawNext(c, 9, 13, s10);
    RawNext(c, 8, 13, s10);
    Skips(c, 7, 13, s10);
    RawNext(c, 6, 13, s10);
    RawNext(c, 5, 13, s10);
    RawNext(c, 4, 13, s10);
    RawNext(c, 3, 13, s10);
  }

  lemma FirstReads(c: Contents, f: First, rest: seq<byte>)
    requires AllShort(c) && FirstIn(c, f) && From(rest, 13)
    ensures ParseFirst(Raw(c, 3, 13) + rest) == Some((f, rest))
  {
    hide GetOptional, GetOptionalOctets, GetOptionalNumber, OptionalField, Raw, NumberIn, OctetsIn, OctetsOr, StowedIn, AllShort, Stowed;
    hide From;
    ReadsNext(c, 3, 13, rest);
    ReadsNext(c, 4, 13, rest);
    ReadsNext(c, 5, 13, rest);
    ReadsNext(c, 6, 13, rest);
    Skips(c, 7, 13, rest);
    ReadsNext(c, 8, 13, rest);
    ReadsNext(c, 9, 13, rest);
    ReadsNext(c, 10, 13, rest);
    Skips(c, 11, 13, rest);
    Skips(c, 12, 13, rest);
    RawEnd(c, 13, rest);
    var sidCtx := if c[4].None? then None else Some(f.sidCtx);
    var tick := if c[10].None? then None else Some(Have(f.tick));
    OctetsOrIn(c[4], f.sidCtx);
    StowedBack(c[10], f.tick);
    OctetsTaken(Raw(c, 4, 13) + rest, 4, c[4], Raw(c, 5, 13) + rest, sidCtx);
    NumberTaken(Raw(c, 5, 13) + rest, 5, 0, TWO_63, c[5], Raw(c, 6, 13) + rest, f.verifyResult);
    OctetsTaken(Raw(c, 8, 13) + rest, 8, c[8], Raw(c, 9, 13) + rest, f.pskIdentity);
    NumberTaken(Raw(c, 9, 13) + rest, 9, 0, TWO_32, c[9], Raw(c, 10, 13) + rest, f.tickLifetimeHint);
    OctetsTaken(Raw(c, 10, 13) + rest, 10, c[10], Raw(c, 11, 13) + rest, tick);
  }

  predicate SecondIn(c: Contents, g: Second) {
    && OctetsIn(c[13], g.peerSha256) && (g.peerSha256.Some? ==> |g.peerSha256.value| == 32)
    && OctetsOr(c[14], g.originalHandshakeHash) && |g.originalHandshakeHash| <= 64
    && OctetsIn(c[15], g.sctList)
    && OctetsIn(c[16], g.ocspResponse)
    && BooleanIn(c[17], g.extendedMasterSecret, false)
    && NumberIn(c[18], g.groupId, 0) && g.groupId < 0x1_0000
    && g.chain == c[19] && c[19] != Some([])
    && c[20].None?
  }

  lemma SecondSpelled(s: seq<byte>) returns (c: Contents)
    requires ParseSecond(s).Some?
    ensures var (g, rest) := ParseSecond(s).value;
      AllShort(c) && SecondIn(c, g) && s == Raw(c, 13, 21) + rest
  {
    hide GetOptional, GetOptionalOctets, GetOptionalNumber, GetOptionalBoolean, OptionalField, Raw, NumberIn, OctetsIn, OctetsOr;
    hide BooleanIn, Short, StowedIn, Stowed;
    var (sha, s13) := GetOptionalOctets(s, 13).value;
    OctetsRest(s, 13);
    var (hash, s14) := GetOptionalOctets(s13, 14).value;
    OctetsRest(s13, 14);
    var (sct, s15) := GetOptionalOctets(s14, 15).value;
    OctetsRest(s14, 15);
    var (ocsp, s16) := GetOptionalOctets(s15, 16).value;
    OctetsRest(s15, 16);
    var (ems, s17) := GetOptionalBoolean(s16, 17, false).value;
    BooleanRest(s16, 17, false);
    var (group, s18) := GetOptionalNumber(s17, 18, 0, TWO_16).value;
    NumberRest(s17, 18, 0, TWO_16);
    var (chain, s19) := GetOptional(s18, 19).value;
    var c13, c14, c15 := GetOptional(s, 13).value.0, GetOptional(s13, 14).value.0, GetOptional(s14, 15).value.0;
    var c16, c17, c18 := GetOptional(s15, 16).value.0, GetOptional(s16, 17).value.0, GetOptional(s17, 18).value.0;
    c := seq(13, _ => None) + [c13, c14, c15, c16, c17, c18, chain] + seq(7, _ => None);
    Took(s, 13);
    Took(s13, 14);
    Took(s14, 15);
    Took(s15, 16);
    Took(s16, 17);
    Took(s17, 18);
    Took(s18, 19);
    NothingShort();
    OctetsTaken(s, 13, c13, s13, sha);
    OctetsTaken(s13, 14, c14, s14, hash);
    StowedOf(c14, hash);
    OctetsTaken(s14, 15, c15, s15, sct);
    OctetsTaken(s15, 16, c16, s16, ocsp);
    BooleanTaken(s16, 17, false, c17, s17, ems);
    NumberTaken(s17, 18, 0, TWO_16, c18, s18, group);
    SecondJoined(c, s, s13, s14, s15, s16, s17, s18, s19);
  }

  lemma SecondJoined(c: Contents, s: seq<byte>, s13: seq<byte>, s14: seq<byte>, s15: seq<byte>, s16: seq<byte>,
                     s17: seq<byte>, s18: seq<byte>, s19: seq<byte>)
    requires c[20].None?
    requires s == OptionalField(13, c[13]) + s13 && s13 == OptionalField(14, c[14]) + s14
    requires s14 == OptionalField(15, c[15]) + s15 && s15 == OptionalField(16, c[16]) + s16
    requires s16 == OptionalField(17, c[17]) + s17 && s17 == OptionalField(18, c[18]) + s18
    requires s18 == OptionalField(19, c[19]) + s19
    ensures s == Raw(c, 13, 21) + s19
  {
    hide OptionalField, Raw;
    RawEnd(c, 21, s19);
    Skips(c, 20, 21, s19);
    RawNext(c, 19, 21, s19);
    RawNext(c, 18, 21, s19);
    RawNext(c, 17, 21, s19);
    RawNext(c, 16, 21, s19);
    RawNext(c, 15, 21, s19);
    RawNext(c, 14, 21, s19);
    RawNext(c, 13, 21, s19);
  }

  lemma SecondReads(c: Contents, g: Second, rest: seq<byte>)
    requires AllShort(c) && SecondIn(c, g) && From(rest, 21)
    ensures ParseSecond(Raw(c, 13, 21) + rest) == Some((g, rest))
  {
    hide GetOptional, GetOptionalOctets, GetOptionalNumber, GetOptionalBoolean, OptionalField, Raw, NumberIn, OctetsIn, OctetsOr;
    hide BooleanIn, AllShort, From;
    ReadsNext(c, 13, 21, rest);
    ReadsNext(c, 14, 21, rest);
    ReadsNext(c, 15, 21, rest);
    ReadsNext(c, 16, 21, rest);
    ReadsNext(c, 17, 21, rest);
    ReadsNext(c, 18, 21, rest);
    ReadsNext(c, 19, 21, rest);
    Skips(c, 20, 21, rest);
    RawEnd(c, 21, rest);
    var hash := if c[14].None? then None else Some(g.originalHandshakeHash);
    OctetsOrIn(c[14], g.originalHandshakeHash);
    OctetsTaken(Raw(c, 13, 21) + rest, 13, c[13], Raw(c, 14, 21) + rest, g.peerSha256);
    OctetsTaken(Raw(c, 14, 21) + rest, 14, c[14], Raw(c, 15, 21) + rest, hash);
    OctetsTaken(Raw(c, 15, 21) + rest, 15, c[15], Raw(c, 16, 21) + rest, g.sctList);
    OctetsTaken(Raw(c, 16, 21) + rest, 16, c[16], Raw(c, 17, 21) + rest, g.ocspResponse);
    BooleanTaken(Raw(c, 17, 21) + rest, 17, false, c[17], Raw(c, 18, 21) + rest, g.extendedMasterSecret);
    NumberTaken(Raw(c, 18, 21) + rest, 18, 0, TWO_16, c[18], Raw(c, 19, 21) + rest, g.groupId);
  }

  predicate AgeIn(c: Option<seq<byte>>, age: Option<nat>) {
    if c.None? then age.None? else age.Some? && age.value < 0x1_0000_0000 && c.value == OctetString(FourBytes(age.value))
  }

  predicate ThirdIn(c: Contents, t: Third, timeout: nat) {
    && AgeIn(c[21], t.ticketAgeAdd)
    && BooleanIn(c[22], t.isServer, true)
    && NumberIn(c[23], t.peerSignatureAlgorithm, 0) && t.peerSignatureAlgorithm < 0x1_0000
    && NumberIn(c[24], t.ticketMaxEarlyData, 0) && t.ticketMaxEarlyData < 0x1_0000_0000
    && NumberIn(c[25], t.authTimeout, timeout) && t.authTimeout < 0x1_0000_0000
    && StowedIn(c[26], t.earlyAlpn)
  }

  /** Four bytes in network order. */
  lemma FourExactly(data: seq<byte>, v: nat)
    requires v < 0x1_0000_0000
    ensures |data| == 4 && BigEndian(data) == v <==> data == FourBytes(v)
  {
    hide BigEndian, Pow2;
    SmallPowers();
    PutBigFour(v);
    BigRoundTrip(v, 4);
    if |data| == 4 && BigEndian(data) == v { BigEndianInjective(data, PutBig(v, 4)); }
  }

  lemma AgeOf(c: Option<seq<byte>>, data: Option<seq<byte>>)
    requires OctetsIn(c, data) && (data.Some? ==> |data.value| == 4)
    ensures AgeIn(c, if data.Some? then Some(BigEndian(data.value)) else None)
  {
    hide BigEndian, Pow2, OctetString, FourBytes;
    if data.Some? {
      SmallPowers();
      BigEndianBound(data.value);
      FourExactly(data.value, BigEndian(data.value));
    }
  }

  lemma ThirdSpelled(s: seq<byte>, timeout: nat) returns (c: Contents)
    requires ParseThird(s, timeout).Some?
    ensures var (t, rest) := ParseThird(s, timeout).value;
      AllShort(c) && ThirdIn(c, t, timeout) && s == Raw(c, 21, 27) + rest
  {
    hide GetOptional, GetOptionalOctets, GetOptionalNumber, GetOptionalBoolean, OptionalField, Raw, NumberIn, OctetsIn, OctetsOr;
    hide BooleanIn, Short, StowedIn, Stowed, AgeIn, BigEndian;
    var (age, s21) := GetOptionalOctets(s, 21).value;
    OctetsRest(s, 21);
    var (isServer, s22) := GetOptionalBoolean(s21, 22, true).value;
    BooleanRest(s21, 22, true);
    var (algorithm, s23) := GetOptionalNumber(s22, 23, 0, TWO_16).value;
    NumberRest(s22, 23, 0, TWO_16);
    var (early, s24) := GetOptionalNumber(s23, 24, 0, TWO_32).value;
    NumberRest(s23, 24, 0, TWO_32);
    var (auth, s25) := GetOptionalNumber(s24, 25, timeout, TWO_32).value;
    NumberRest(s24, 25, timeout, TWO_32);
    var (alpn, s26) := GetOptionalOctets(s25, 26).value;
    OctetsRest(s25, 26);
    var c21, c22, c23 := GetOptional(s, 21).value.0, GetOptional(s21, 22).value.0, GetOptional(s22, 23).value.0;
    var c24, c25, c26 := GetOptional(s23, 24).value.0, GetOptional(s24, 25).value.0, GetOptional(s25, 26).value.0;
    c := seq(21, _ => None) + [c21, c22, c23, c24, c25, c26];
    Took(s, 21);
    Took(s21, 22);
    Took(s22, 23);
    Took(s23, 24);
    Took(s24, 25);
    Took(s25, 26);
    NothingShort();
    OctetsTaken(s, 21, c21, s21, age);
    AgeOf(c21, age);
    BooleanTaken(s21, 22, true, c22, s22, isServer);
    NumberTaken(s22, 23, 0, TWO_16, c23, s23, algorithm);
    NumberTaken(s23, 24, 0, TWO_32, c24, s24, early);
    NumberTaken(s24, 25, timeout, TWO_32, c25, s25, auth);
    OctetsTaken(s25, 26, c26, s26, alpn);
    StowedOf(c26, alpn);
    ThirdJoined(c, s, s21, s22, s23, s24, s25, s26);
  }

  lemma ThirdJoined(c: Contents, s: seq<byte>, s21: seq<byte>, s22: seq<byte>, s23: seq<byte>, s24: seq<byte>,
                    s25: seq<byte>, s26: seq<byte>)
    requires s == OptionalField(21, c[21]) + s21 && s21 == OptionalField(22, c[22]) + s22
    requires s22 == OptionalField(23, c[23]) + s23 && s23 == OptionalField(24, c[24]) + s24
    requires s24 == OptionalField(25, c[25]) + s25 && s25 == OptionalField(26, c[26]) + s26
    ensures s == Raw(c, 21, 27) + s26
  {
    hide OptionalField, Raw;
    RawEnd(c, 27, s26);
    RawNext(c, 26, 27, s26);
    RawNext(c, 25, 27, s26);
    RawNext(c, 24, 27, s26);
    RawNext(c, 23, 27, s26);
    RawNext(c, 22, 27, s26);
    RawNext(c, 21, 27, s26);
  }

  lemma ThirdReads(c: Contents, t: Third, timeout: nat, rest: seq<byte>)
    requires AllShort(c) && ThirdIn(c, t, timeout) && From(rest, 27)
    ensures ParseThird(Raw(c, 21, 27) + rest, timeout) == Some((t, rest))
  {
    hide GetOptional, GetOptionalOctets, GetOptionalNumber, GetOptionalBoolean, OptionalField, Raw, NumberIn, OctetsIn, OctetsOr;
    hide BooleanIn, AllShort, From, StowedIn, Stowed, BigEndian, FourBytes;
    ReadsNext(c, 21, 27, rest);
    ReadsNext(c, 22, 27, rest);
    ReadsNext(c, 23, 27, rest);
    ReadsNext(c, 24, 27, rest);
    ReadsNext(c, 25, 27, rest);
    ReadsNext(c, 26, 27, rest);
    RawEnd(c, 27, rest);
    var age := if c[21].None? then None else Some(FourBytes(t.ticketAgeAdd.value));
    var alpn := if c[26].None? then None else Some(Have(t.earlyAlpn));
    AgeBack(c[21], t.ticketAgeAdd);
    StowedBack(c[26], t.earlyAlpn);
    OctetsTaken(Raw(c, 21, 27) + rest, 21, c[21], Raw(c, 22, 27) + rest, age);
    BooleanTaken(Raw(c, 22, 27) + rest, 22, true, c[22], Raw(c, 23, 27) + rest, t.isServer);
    NumberTaken(Raw(c, 23, 27) + rest, 23, 0, TWO_16, c[23], Raw(c, 24, 27) + rest, t.peerSignatureAlgorithm);
    NumberTaken(Raw(c, 24, 27) + rest, 24, 0, TWO_32, c[24], Raw(c, 25, 27) + rest, t.ticketMaxEarlyData);
    NumberTaken(Raw(c, 25, 27) + rest, 25, timeout, TWO_32, c[25], Raw(c, 26, 27) + rest, t.authTimeout);
    OctetsTaken(Raw(c, 26, 27) + rest, 26, c[26], Raw(c, 27, 27) + rest, alpn);
  }

  lemma AgeBack(c: Option<seq<byte>>, age: Option<nat>)
    requires AgeIn(c, age)
    ensures OctetsIn(c, if c.None? then None else Some(FourBytes(age.value)))
    ensures c.Some? ==> |FourBytes(age.value)| == 4 && BigEndian(FourBytes(age.value)) == age.value
    ensures c.None? <==> age.None?
  {
    hide OctetString, BigEndian, FourBytes;
    if c.Some? { FourExactly(FourBytes(age.value), age.value); }
  }

  // The head: five elements, and two times behind which anything may stand.

  predicate TimeIn(c: Option<seq<byte>>, v: nat) {
    c.Some? && Int(v) <= c.value
  }

  function HeadPart(h: Head): seq<byte>
    requires h.cipher < 0x1_0000
  {
    Int(1) + Int(h.sslVersion) + OctetString([h.cipher / 0x100, h.cipher % 0x100]) + OctetString(h.sessionId) + OctetString(h.masterKey)
  }

  predicate HeadIn(c: Contents, h: Head, known: nat -> bool) {
    && ProtocolVersion(h.sslVersion).Some? && h.cipher < 0x1_0000 && known(h.cipher)
    && |h.sessionId| <= 32 && |h.masterKey| <= 48
    && TimeIn(c[1], h.time) && h.time < 0x1_0000_0000_0000_0000
    && TimeIn(c[2], h.timeout) && h.timeout < 0x1_0000_0000
  }

  lemma NumberExactly(s: seq<byte>, v: nat, t: seq<byte>)
    requires v < TWO_64
    ensures GetNumber(s) == Some((v, t)) <==> s == Int(v) + t
  {
    hide GetAsn1, ParseInteger, IntegerBytes, Tlv;
    IntegerRoundTrip(v);
    TlvExactly(s, 0x02, IntegerBytes(v), t);
    if GetNumber(s) == Some((v, t)) { IntegerExact(GetAsn1(s, INTEGER).value.0, v); }
  }

  lemma NumberRead(s: seq<byte>)
    requires GetNumber(s).Some?
    ensures var (v, t) := GetNumber(s).value; v < TWO_64 && s == Int(v) + t
  {
    hide GetNumber, Int;
    NumberBound(s);
    NumberExactly(s, GetNumber(s).value.0, GetNumber(s).value.1);
  }

  lemma OctetsRead(s: seq<byte>)
    requires GetAsn1(s, OCTETSTRING).Some?
    ensures var (data, t) := GetAsn1(s, OCTETSTRING).value; |data| < 0x1_0000_0000 && s == OctetString(data) + t
  {
    hide GetAsn1, Tlv;
    ContentShort(s, OCTETSTRING);
    TlvExactly(s, 0x04, GetAsn1(s, OCTETSTRING).value.0, GetAsn1(s, OCTETSTRING).value.1);
  }

  lemma OctetsReads(data: seq<byte>, t: seq<byte>)
    requires |data| < 0x1_0000_0000
    ensures GetAsn1(OctetString(data) + t, OCTETSTRING) == Some((data, t))
  {
    hide GetAsn1, Tlv;
    TlvExactly(OctetString(data) + t, 0x04, data, t);
  }

  lemma ExplicitRead(s: seq<byte>, k: nat)
    requires 1 <= k <= 26 && GetAsn1(s, Explicit(k)).Some?
    ensures var (content, t) := GetAsn1(s, Explicit(k)).value; Short(Some(content)) && s == OptionalField(k, Some(content)) + t
  {
    hide GetAsn1, Tlv;
    assert Explicit(k) == TagOf(0xA0 + k);
    ContentShort(s, Explicit(k));
    TlvExactly(s, 0xA0 + k, GetAsn1(s, Explicit(k)).value.0, GetAsn1(s, Explicit(k)).value.1);
  }

  lemma ExplicitReads(k: nat, content: seq<byte>, t: seq<byte>)
    requires 1 <= k <= 26 && Short(Some(content))
    ensures GetAsn1(OptionalField(k, Some(content)) + t, Explicit(k)) == Some((content, t))
  {
    hide GetAsn1, Tlv;
    assert Explicit(k) == TagOf(0xA0 + k);
    TlvExactly(OptionalField(k, Some(content)) + t, 0xA0 + k, content, t);
  }

  /** The cipher has two bytes. */
  lemma TwoExactly(data: seq<byte>, v: nat)
    requires v < 0x1_0000
    ensures |data| == 2 && BigEndian(data) == v <==> data == [v / 0x100, v % 0x100]
  {
    hide BigEndian, Pow2;
    SmallPowers();
    PutBigTwo(v);
    BigRoundTrip(v, 2);
    if |data| == 2 && BigEndian(data) == v { BigEndianInjective(data, PutBig(v, 2)); }
  }

  lemma TimesSpelled(s: seq<byte>) returns (c1: seq<byte>, c2: seq<byte>)
    requires ParseTimes(s).Some?
    ensures var (v, rest) := ParseTimes(s).value;
      && Short(Some(c1)) && Short(Some(c2)) && s == OptionalField(1, Some(c1)) + (OptionalField(2, Some(c2)) + rest)
      && TimeIn(Some(c1), v.time) && v.time < TWO_64 && TimeIn(Some(c2), v.timeout) && v.timeout < TWO_32
  {
    hide GetAsn1, GetNumber, OptionalField, Int, Short;
    c1 := GetAsn1(s, Explicit(1)).value.0;
    var s1 := GetAsn1(s, Explicit(1)).value.1;
    c2 := GetAsn1(s1, Explicit(2)).value.0;
    ExplicitRead(s, 1);
    ExplicitRead(s1, 2);
    NumberRead(c1);
    NumberRead(c2);
  }

  lemma TimesRead(c1: seq<byte>, c2: seq<byte>, time: nat, timeout: nat, rest: seq<byte>)
    requires Short(Some(c1)) && Short(Some(c2)) && time < TWO_64 && timeout < TWO_32
    requires TimeIn(Some(c1), time) && TimeIn(Some(c2), timeout)
    ensures ParseTimes(OptionalField(1, Some(c1)) + (OptionalField(2, Some(c2)) + rest)) == Some((Times(time, timeout), rest))
  {
    hide GetAsn1, GetNumber, OptionalField, Int, Short;
    ExplicitReads(1, c1, OptionalField(2, Some(c2)) + rest);
    ExplicitReads(2, c2, rest);
    assert c1 == Int(time) + c1[|Int(time)|..] && c2 == Int(timeout) + c2[|Int(timeout)|..];
    NumberExactly(c1, time, c1[|Int(time)|..]);
    NumberExactly(c2, timeout, c2[|Int(timeout)|..]);
  }

  lemma HeadSpelled(s: seq<byte>, known: nat -> bool) returns (c: Contents)
    requires ParseHead(s, known).Some?
    ensures var (h, rest) := ParseHead(s, known).value;
      AllShort(c) && HeadIn(c, h, known) && s == HeadPart(h) + (Raw(c, 1, 3) + rest)
  {
    hide GetAsn1, GetNumber, OptionalField, Raw, Int, OctetString, ProtocolVersion, Short, ParseTimes, BigEndian, TimeIn, Pow2;
    var (h, rest) := ParseHead(s, known).value;
    var (version, s1) := GetNumber(s).value;
    var (sslVersion, s2) := GetNumber(s1).value;
    var (cipher, s3) := GetAsn1(s2, OCTETSTRING).value;
    var (sid, s4) := GetAsn1(s3, OCTETSTRING).value;
    var (key, s5) := GetAsn1(s4, OCTETSTRING).value;
    var c1, c2 := TimesSpelled(s5);
    c := [None, Some(c1), Some(c2)] + seq(24, _ => None);
    NumberRead(s);
    NumberRead(s1);
    OctetsRead(s2);
    OctetsRead(s3);
    OctetsRead(s4);
    SmallPowers();
    BigEndianBound(cipher);
    TwoExactly(cipher, BigEndian(cipher));
    NothingShort();
    RawNext(c, 1, 3, rest);
    RawNext(c, 2, 3, rest);
    RawEnd(c, 3, rest);
    Nested(Int(1), Int(sslVersion), OctetString(cipher), OctetString(sid), OctetString(key), s5);
  }

  lemma Nested(a: seq<byte>, b: seq<byte>, c: seq<byte>, d: seq<byte>, e: seq<byte>, t: seq<byte>)
    ensures a + b + c + d + e + t == a + (b + (c + (d + (e + t))))
  {
  }

  lemma HeadReads(c: Contents, h: Head, known: nat -> bool, rest: seq<byte>)
    requires AllShort(c) && HeadIn(c, h, known)
    ensures ParseHead(HeadPart(h) + (Raw(c, 1, 3) + rest), known) == Some((h, rest))
  {
    hide GetAsn1, GetNumber, OptionalField, Raw, Int, OctetString, Short, ParseTimes, BigEndian, TimeIn;
    WireVersions(h.sslVersion);
    hide ProtocolVersion;
    var cipher, t := [h.cipher / 0x100, h.cipher % 0x100], Raw(c, 1, 3) + rest;
    Nested(Int(1), Int(h.sslVersion), OctetString(cipher), OctetString(h.sessionId), OctetString(h.masterKey), t);
    var t5 := OctetString(h.masterKey) + t;
    var t4 := OctetString(h.sessionId) + t5;
    var t3 := OctetString(cipher) + t4;
    var t2 := Int(h.sslVersion) + t3;
    NumberExactly(Int(1) + t2, 1, t2);
    NumberExactly(t2, h.sslVersion, t3);
    OctetsReads(cipher, t4);
    OctetsReads(h.sessionId, t5);
    OctetsReads(h.masterKey, t);
    TwoExactly(cipher, h.cipher);
    RawNext(c, 1, 3, rest);
    RawNext(c, 2, 3, rest);
    RawEnd(c, 3, rest);
    assert Short(c[1]) && Short(c[2]);
    TimesThere(c, h, known);
    TimesRead(c[1].value, c[2].value, h.time, h.timeout, rest);
  }

  lemma TimesThere(c: Contents, h: Head, known: nat -> bool)
    requires HeadIn(c, h, known)
    ensures c[1].Some? && c[2].Some?
  {
  }

  // Certificates.

  /** A leaf, and behind it elements; nothing without a leaf. */
  predicate CertsIn(c: Contents, certs: seq<seq<byte>>) {
    if c[3].None? then certs == [] && c[19].None?
    else
      && certs != [] && certs[0] == c[3].value
      && Concat(certs[1..]) == Have(c[19]) && forall i :: 1 <= i < |certs| ==> IsElement(certs[i])
  }

  lemma {:induction false} ChainConcat(s: seq<byte>)
    requires ParseChain(s).Some?
    ensures Concat(ParseChain(s).value) == s
    decreases |s|
  {
    hide GetAny;
    if s != [] {
      var (cert, rest) := GetAnyElement(s).value;
      AnyEnds(s);
      assert s == cert + rest;
      ChainConcat(rest);
      assert ParseChain(s).value == [cert] + ParseChain(rest).value;
      assert ParseChain(s).value[1..] == ParseChain(rest).value;
    }
  }

  lemma CertsExactly(c: Contents, certs: seq<seq<byte>>)
    ensures ParseCerts(c[3], c[19]) == Some(certs) <==> CertsIn(c, certs)
  {
    hide ParseChain, IsElement, Concat;
    if c[3].Some? {
      var s := Bytes(c[19]);
      if ParseCerts(c[3], c[19]) == Some(certs) {
        ChainParsed(s);
        ChainConcat(s);
        assert certs[1..] == ParseChain(s).value;
        assert forall i :: 1 <= i < |certs| ==> certs[i] == certs[1..][i - 1];
      }
      if CertsIn(c, certs) {
        ChainRoundTrip(certs[1..]);
        Shifted(certs);
        assert certs == [certs[0]] + certs[1..];
      }
    }
  }

  // The session.

  function HeadOfParsed(v: Session): Head
    requires v.cipher.Some?
  {
    Head(v.sslVersion, v.cipher.value, v.sessionId, v.masterKey, v.time, v.timeout)
  }

  /** The fields say what the session holds. */
  predicate Spells(c: Contents, v: Session, known: nat -> bool) {
    && v.cipher.Some? && v.verifyResult >= 0 && AllShort(c)
    && HeadIn(c, HeadOfParsed(v), known)
    && FirstIn(c, First(c[3], v.sidCtx, v.verifyResult, v.pskIdentity, v.tickLifetimeHint, v.tick))
    && SecondIn(c, Second(v.peerSha256, v.originalHandshakeHash, v.sctList, v.ocspResponse, v.extendedMasterSecret, v.groupId, c[19]))
    && CertsIn(c, v.certs)
    && ThirdIn(c, Third(v.ticketAgeAdd, v.isServer, v.peerSignatureAlgorithm, v.ticketMaxEarlyData, v.authTimeout, v.earlyAlpn), v.timeout)
  }

  /** A SEQUENCE of the head and the fields. */
  function Spelling(c: Contents, v: Session): seq<byte>
    requires v.cipher.Some? && v.cipher.value < 0x1_0000
  {
    HeadPart(HeadOfParsed(v)) + Raw(c, 1, 27)
  }

  /** Fields of three groups in one. */
  lemma Merged(a: Contents, b: Contents, d: Contents, e: Contents) returns (c: Contents)
    ensures forall k :: 1 <= k < 3 ==> c[k] == a[k]
    ensures forall k :: 3 <= k < 13 ==> c[k] == b[k]
    ensures forall k :: 13 <= k < 21 ==> c[k] == d[k]
    ensures forall k :: 21 <= k < 27 ==> c[k] == e[k]
    ensures AllShort(a) && AllShort(b) && AllShort(d) && AllShort(e) ==> AllShort(c)
    ensures Raw(c, 1, 3) == Raw(a, 1, 3) && Raw(c, 3, 13) == Raw(b, 3, 13)
    ensures Raw(c, 13, 21) == Raw(d, 13, 21) && Raw(c, 21, 27) == Raw(e, 21, 27)
  {
    hide Raw, Short;
    c := a[..3] + b[3..13] + d[13..21] + e[21..];
    RawSame(c, a, 1, 3);
    RawSame(c, b, 3, 13);
    RawSame(c, d, 13, 21);
    RawSame(c, e, 21, 27);
  }

  /** What is parsed is spelled by its bytes. */
  lemma ParsedIsSpelled(s: seq<byte>, known: nat -> bool) returns (c: Contents)
    requires Parse(s, known).Some?
    ensures var (v, t) := Parse(s, known).value;
      && Spells(c, v, known) && |Spelling(c, v)| < 0x1_0000_0000
      && s == Tlv(0x30, Spelling(c, v)) + t
  {
    hide ParseHead, ParseFirst, ParseSecond, ParseThird, ParseCerts, GetAsn1, Tlv, Raw, HeadIn, FirstIn, SecondIn, ThirdIn, CertsIn;
    hide HeadPart, AllShort;
    var (body, t) := GetAsn1(s, SEQUENCE).value;
    ContentShort(s, SEQUENCE);
    TlvExactly(s, 0x30, body, t);
    var (h, b) := ParseHead(body, known).value;
    var (f, b1) := ParseFirst(b).value;
    var (g, b2) := ParseSecond(b1).value;
    var (d, b3) := ParseThird(b2, h.timeout).value;
    var ch := HeadSpelled(body, known);
    var cf := FirstSpelled(b);
    var cg := SecondSpelled(b1);
    var cd := ThirdSpelled(b2, h.timeout);
    c := Merged(ch, cf, cg, cd);
    SpelledSame(c, ch, cf, cg, cd, h, f, g, d, known);
    PartsAre(c, f, g);
    CertsExactly(c, Parse(s, known).value.0.certs);
    AllJoined(c, HeadPart(h));
  }

  lemma PartsAre(c: Contents, f: First, g: Second)
    requires FirstIn(c, f) && SecondIn(c, g)
    ensures f.peer == c[3] && g.chain == c[19]
  {
  }

  lemma SpelledSame(c: Contents, ch: Contents, cf: Contents, cg: Contents, cd: Contents, h: Head, f: First, g: Second, d: Third,
                    known: nat -> bool)
    requires HeadIn(ch, h, known) && FirstIn(cf, f) && SecondIn(cg, g) && ThirdIn(cd, d, h.timeout)
    requires forall k :: 1 <= k < 3 ==> c[k] == ch[k]
    requires forall k :: 3 <= k < 13 ==> c[k] == cf[k]
    requires forall k :: 13 <= k < 21 ==> c[k] == cg[k]
    requires forall k :: 21 <= k < 27 ==> c[k] == cd[k]
    ensures HeadIn(c, h, known) && FirstIn(c, f) && SecondIn(c, g) && ThirdIn(c, d, h.timeout) && h.cipher < 0x1_0000
  {
    hide ProtocolVersion, NumberIn, OctetsIn, BooleanIn, OctetsOr, StowedIn, AgeIn, TimeIn;
  }

  lemma AllJoined(c: Contents, head: seq<byte>)
    ensures head + Raw(c, 1, 27) == head + (Raw(c, 1, 3) + (Raw(c, 3, 13) + (Raw(c, 13, 21) + (Raw(c, 21, 27) + []))))
  {
    hide Raw;
    RawJoin(c, 1, 3, 27);
    RawJoin(c, 3, 13, 27);
    RawJoin(c, 13, 21, 27);
  }

  /** And what spells a session is parsed as that session, whatever follows it. */
  lemma SpelledIsParsed(c: Contents, v: Session, known: nat -> bool, t: seq<byte>)
    requires Spells(c, v, known) && v.cipher.value < 0x1_0000 && |Spelling(c, v)| < 0x1_0000_0000
    ensures Parse(Tlv(0x30, Spelling(c, v)) + t, known) == Some((v, t))
  {
    hide ParseHead, ParseFirst, ParseSecond, ParseThird, ParseCerts, GetAsn1, Tlv, Raw, HeadIn, FirstIn, SecondIn, ThirdIn, CertsIn;
    hide HeadPart, AllShort;
    var body, h := Spelling(c, v), HeadOfParsed(v);
    TlvExactly(Tlv(0x30, body) + t, 0x30, body, t);
    AllJoined(c, HeadPart(h));
    var b2 := Raw(c, 21, 27) + [];
    var b1 := Raw(c, 13, 21) + b2;
    var b := Raw(c, 3, 13) + b1;
    var f := First(c[3], v.sidCtx, v.verifyResult, v.pskIdentity, v.tickLifetimeHint, v.tick);
    var g := Second(v.peerSha256, v.originalHandshakeHash, v.sctList, v.ocspResponse, v.extendedMasterSecret, v.groupId, c[19]);
    var d := Third(v.ticketAgeAdd, v.isServer, v.peerSignatureAlgorithm, v.ticketMaxEarlyData, v.authTimeout, v.earlyAlpn);
    RestFrom(c, 21, 27, []);
    RestFrom(c, 13, 21, b2);
    HeadReads(c, h, known, b);
    FirstReads(c, f, b1);
    SecondReads(c, g, b2);
    ThirdReads(c, d, v.timeout, []);
    CertsExactly(c, v.certs);
  }
}
