/** Exactly the bytes that SSL_SESSION_parse accepts, and for which session. */
module SessionGrammar {
  import opened Bits
  import opened ByteString
  import opened Der
  import opened DerExact
  import opened Session
  import opened CertChain
  import opened SessionRoundTrip
  import opened SessionFormat

  // Elements with one-byte identifiers, up to the longest length there is.

  function TagOf(id: byte): nat {
    id / 0x20 * 0x2000_0000 + id % 0x20
  }

  lemma LengthExactly(s: seq<byte>, n: nat, t: seq<byte>)
    requires n < 0x1_0000_0000
    ensures ParseLength(s) == Some((n, t)) <==> s == LengthOctets(n) + t
  {
    hide Pow2, BigEndian, GetBig, LengthOctets, ParseLength;
    if n <= MAX_LENGTH {
      LengthIs(n);
      if ParseLength(s) == Some((n, t)) { LengthExact(s); }
      if s == LengthOctets(n) + t { LengthRoundTrip(n, t); }
    } else {
      LongestLength(s, t);
    }
  }

  lemma LongestLength(s: seq<byte>, t: seq<byte>)
    ensures ParseLength(s) == Some((0xFFFF_FFFF, t)) <==> s == LengthOctets(0xFFFF_FFFF) + t
  {
    hide Pow2, BigEndian;
    var ones := [0xFF, 0xFF, 0xFF, 0xFF];
    SmallPowers();
    BigEndianIs(0xFF, 0xFF, 0xFF, 0xFF);
    if s == LengthOctets(0xFFFF_FFFF) + t {
      assert s[1..] == ones + t && s[1..][..4] == ones && s[1..][4..] == t;
    }
    if ParseLength(s) == Some((0xFFFF_FFFF, t)) {
      var n := s[0] - 0x80;
      BigEndianBound(s[1..][..n]);
      assert n == 4;
      BigEndianInjective(s[1..][..4], ones);
      assert s == [s[0]] + (s[1..][..4] + s[1..][4..]);
    }
  }

  lemma PeekExactly(s: seq<byte>, id: byte)
    requires id % 0x20 != 0x1f
    ensures PeekTag(s, TagOf(id)) <==> s != [] && s[0] == id
    ensures ParseTag(s).Some? && ParseTag(s).value.0 == TagOf(id) ==> ParseTag(s).value.1 == s[1..]
  {
    hide ParseBase128;
    if s != [] && s[0] % 0x20 != 0x1f && ParseTag(s).Some? {
      assert ParseTag(s).value.0 / CLASS_STEP == s[0] / 0x20 && ParseTag(s).value.0 % CLASS_STEP == s[0] % 0x20;
      assert TagOf(id) / CLASS_STEP == id / 0x20 && TagOf(id) % CLASS_STEP == id % 0x20;
    }
    if s != [] && s[0] % 0x20 == 0x1f && ParseTag(s).Some? {
      assert ParseTag(s).value.0 % CLASS_STEP >= 0x1f;
      assert TagOf(id) % CLASS_STEP == id % 0x20;
    }
  }

  /** An element stands in front of the bytes exactly when its identifier, length and contents do. */
  lemma TlvExactly(s: seq<byte>, id: byte, content: seq<byte>, t: seq<byte>)
    requires id % 0x20 != 0x1f && |content| < 0x1_0000_0000
    ensures GetAsn1(s, TagOf(id)) == Some((content, t)) <==> s == Tlv(id, content) + t
  {
    hide ParseTag, ParseLength, LengthOctets;
    PeekExactly(s, id);
    LengthExactly(if s == [] then [] else s[1..], |content|, content + t);
    assert Tlv(id, content) + t == [id] + (LengthOctets(|content|) + (content + t));
    if GetAsn1(s, TagOf(id)) == Some((content, t)) {
      var (len, s2) := ParseLength(s[1..]).value;
      assert s2 == content + t;
      assert s == [s[0]] + s[1..];
    }
    if s == Tlv(id, content) + t {
      assert s[1..] == LengthOctets(|content|) + (content + t);
      OneByteTag(s, id);
      assert (content + t)[..|content|] == content && (content + t)[|content|..] == t;
    }
  }

  lemma OneByteTag(s: seq<byte>, id: byte)
    requires s != [] && s[0] == id && id % 0x20 != 0x1f
    ensures ParseTag(s) == Some((TagOf(id), s[1..]))
  {
  }

  lemma ContentShort(s: seq<byte>, tag: nat)
    requires GetAsn1(s, tag).Some?
    ensures |GetAsn1(s, tag).value.0| < 0x1_0000_0000
  {
    hide ParseTag, BigEndian, Pow2;
    var (_, s1) := ParseTag(s).value;
    var (len, _) := ParseLength(s1).value;
    if s1[0] >= 0x80 {
      var n := s1[0] - 0x80;
      BigEndianBound(s1[1..][..n]);
      SmallPowers();
      Pow2Mono(8 * n, 32);
    }
  }

  /** One element and nothing else. */
  lemma OnlyExactly(s: seq<byte>, id: byte, content: seq<byte>)
    requires id % 0x20 != 0x1f
    ensures Only(s, TagOf(id)) == Some(content) <==> |content| < 0x1_0000_0000 && s == Tlv(id, content)
  {
    hide GetAsn1;
    if Only(s, TagOf(id)) == Some(content) { ContentShort(s, TagOf(id)); }
    if |content| < 0x1_0000_0000 {
      TlvExactly(s, id, content, []);
      assert Tlv(id, content) + [] == Tlv(id, content);
    }
  }

  // Values.

  lemma IntExactly(s: seq<byte>, v: nat)
    requires v < TWO_64
    ensures Only(s, INTEGER).Some? && ParseInteger(Only(s, INTEGER).value) == Some(v) <==> s == Int(v)
  {
    hide Only, ParseInteger, IntegerBytes, Tlv;
    IntegerRoundTrip(v);
    OnlyExactly(s, 0x02, IntegerBytes(v));
    if Only(s, INTEGER).Some? {
      OnlyExactly(s, 0x02, Only(s, INTEGER).value);
      IntegerExact(Only(s, INTEGER).value, v);
    }
  }

  lemma BoolExactly(s: seq<byte>, b: bool)
    ensures Only(s, BOOLEAN) == Some([if b then 0xff else 0]) <==> s == Bool(b)
  {
    hide Only, Tlv;
    OnlyExactly(s, 0x01, [if b then 0xff else 0]);
  }

  // Fields.

  /** The field with tag number `k`, if it is there. */
  function OptionalField(k: nat, c: Option<seq<byte>>): seq<byte>
    requires 1 <= k <= 26
  {
    Tagged(0xA0 + k, c.Some?, Have(c))
  }

  /** Nothing, or an identifier from tag number `k` on. */
  predicate From(s: seq<byte>, k: nat) {
    s == [] || s[0] >= 0xA0 + k
  }

  predicate Short(c: Option<seq<byte>>) {
    |Have(c)| < 0x1_0000_0000
  }

  /** What a reader makes of an optional field, from the bytes to the field and back. */
  lemma Took(s: seq<byte>, k: nat)
    requires 1 <= k <= 26 && GetOptional(s, k).Some?
    ensures var (c, rest) := GetOptional(s, k).value; Short(c) && s == OptionalField(k, c) + rest
  {
    hide GetAsn1, PeekTag, Tlv;
    var (c, rest) := GetOptional(s, k).value;
    assert Explicit(k) == TagOf(0xA0 + k);
    if c.Some? {
      ContentShort(s, Explicit(k));
      TlvExactly(s, 0xA0 + k, c.value, rest);
    }
  }

  lemma Takes(k: nat, c: Option<seq<byte>>, rest: seq<byte>)
    requires 1 <= k <= 26 && Short(c) && From(rest, k + 1)
    ensures GetOptional(OptionalField(k, c) + rest, k) == Some((c, rest)) && From(OptionalField(k, c) + rest, k)
  {
    hide GetAsn1, PeekTag, LengthOctets;
    var s := OptionalField(k, c) + rest;
    assert Explicit(k) == TagOf(0xA0 + k);
    PeekExactly(s, 0xA0 + k);
    if c.Some? {
      TlvExactly(s, 0xA0 + k, c.value, rest);
      assert s[0] == 0xA0 + k;
    } else {
      assert s == rest;
    }
  }

  predicate NumberIn(c: Option<seq<byte>>, v: nat, absent: nat) {
    if c.None? then v == absent else c.value == Int(v)
  }

  predicate OctetsIn(c: Option<seq<byte>>, data: Option<seq<byte>>) {
    if c.None? then data.None? else data.Some? && |data.value| < 0x1_0000_0000 && c.value == OctetString(data.value)
  }

  predicate BooleanIn(c: Option<seq<byte>>, b: bool, absent: bool) {
    if c.None? then b == absent else c.value == Bool(b)
  }

  /** An optional number is what it says, or if it is not there, the default; the default may also be written. */
  lemma NumberTaken(s: seq<byte>, k: nat, absent: nat, bound: nat, c: Option<seq<byte>>, rest: seq<byte>, v: nat)
    requires GetOptional(s, k) == Some((c, rest)) && bound <= TWO_64
    ensures GetOptionalNumber(s, k, absent, bound) == Some((v, rest)) <==> v < bound && NumberIn(c, v, absent)
  {
    hide GetOptional, Only, ParseInteger, Int;
    if c.Some? {
      if v < bound { IntExactly(c.value, v); }
    }
  }

  lemma NumberRest(s: seq<byte>, k: nat, absent: nat, bound: nat)
    requires GetOptionalNumber(s, k, absent, bound).Some?
    ensures GetOptional(s, k).Some? && GetOptionalNumber(s, k, absent, bound).value.1 == GetOptional(s, k).value.1
  {
    hide GetOptional, Only, ParseInteger;
  }

  lemma OctetsTaken(s: seq<byte>, k: nat, c: Option<seq<byte>>, rest: seq<byte>, data: Option<seq<byte>>)
    requires GetOptional(s, k) == Some((c, rest))
    ensures GetOptionalOctets(s, k) == Some((data, rest)) <==> OctetsIn(c, data)
  {
    hide GetOptional, Only, Tlv;
    if c.Some? && data.Some? { OnlyExactly(c.value, 0x04, data.value); }
  }

  lemma OctetsRest(s: seq<byte>, k: nat)
    requires GetOptionalOctets(s, k).Some?
    ensures GetOptional(s, k).Some? && GetOptionalOctets(s, k).value.1 == GetOptional(s, k).value.1
  {
    hide GetOptional, Only;
  }

  lemma BooleanTaken(s: seq<byte>, k: nat, absent: bool, c: Option<seq<byte>>, rest: seq<byte>, b: bool)
    requires GetOptional(s, k) == Some((c, rest))
    ensures GetOptionalBoolean(s, k, absent) == Some((b, rest)) <==> BooleanIn(c, b, absent)
  {
    hide GetOptional, Only, Bool;
    if c.Some? { BoolExactly(c.value, b); }
  }

  lemma BooleanRest(s: seq<byte>, k: nat, absent: bool)
    requires GetOptionalBoolean(s, k, absent).Some?
    ensures GetOptional(s, k).Some? && GetOptionalBoolean(s, k, absent).value.1 == GetOptional(s, k).value.1
  {
    hide GetOptional, Only;
  }
}
