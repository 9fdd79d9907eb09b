/**
  DER elements as cbb.c writes and cbs.c reads them: sections 8.1 and 10.1 of ITU-T X.690. Writers
  give None where CBB_flush reports an error, readers where the CBS functions return zero.
 */
module Der {
  import opened Bits
  import opened ByteString

  const BOOLEAN: nat := 1
  const INTEGER: nat := 2
  const OCTETSTRING: nat := 4
  const CLASS_STEP: nat := 0x2000_0000                // one in the top three bits of a tag
  const SEQUENCE: nat := 0x2000_0010                  // constructed
  const CONTEXT_CONSTRUCTED: nat := 0xA000_0000
  const MAX_LENGTH: nat := 0xFFFF_FFFE

  // Tags.

  /** add_base128_integer: groups of seven bits, the high bit set on all but the last. */
  function Base128(v: nat, more: bool): (r: seq<byte>)
    ensures |r| > 0
  {
    var last: byte := v % 0x80 + if more then 0x80 else 0;
    if v < 0x80 then [last] else Base128(v / 0x80, true) + [last]
  }

  /** The loop of parse_base128_integer with `v` read so far. */
  function ParseBase128(s: seq<byte>, v: nat): (r: Option<(nat, seq<byte>)>)
    ensures r.Some? ==> |r.value.1| < |s|
  {
    if s == [] then None
    else if v / 0x200_0000_0000_0000 != 0 then None
    else if v == 0 && s[0] == 0x80 then None
    else
      var v' := v * 0x80 + s[0] % 0x80;
      if s[0] < 0x80 then Some((v', s[1..])) else ParseBase128(s[1..], v')
  }

  lemma ParseBase128Step(b: byte, t: seq<byte>, v: nat)
    requires v < CLASS_STEP && !(v == 0 && b == 0x80)
    ensures ParseBase128([b] + t, v)
         == var v' := v * 0x80 + b % 0x80; if b < 0x80 then Some((v', t)) else ParseBase128(t, v')
  {
    assert ([b] + t)[1..] == t;
  }

  lemma {:induction false} Base128Prefix(v: nat, t: seq<byte>)
    requires 0 < v < CLASS_STEP
    ensures ParseBase128(Base128(v, true) + t, 0) == ParseBase128(t, v)
  {
    hide ParseBase128;
    var last: byte := v % 0x80 + 0x80;
    if v < 0x80 {
      ParseBase128Step(last, t, 0);
    } else {
      assert Base128(v, true) + t == Base128(v / 0x80, true) + ([last] + t);
      Base128Prefix(v / 0x80, [last] + t);
      ParseBase128Step(last, t, v / 0x80);
    }
  }

  lemma Base128RoundTrip(v: nat, t: seq<byte>)
    requires 0 < v < CLASS_STEP
    ensures ParseBase128(Base128(v, false) + t, 0) == Some((v, t))
  {
    hide ParseBase128;
    var last: byte := v % 0x80;
    if v < 0x80 {
      ParseBase128Step(last, t, 0);
    } else {
      assert Base128(v, false) + t == Base128(v / 0x80, true) + ([last] + t);
      Base128Prefix(v / 0x80, [last] + t);
      ParseBase128Step(last, t, v / 0x80);
    }
  }

  /** The identifier octets of CBB_add_asn1. */
  function PutTag(tag: nat): (r: seq<byte>)
    ensures |r| > 0
  {
    var bits, number := tag / CLASS_STEP % 8 * 0x20, tag % CLASS_STEP;
    if number >= 0x1f then [(bits + 0x1f) as byte] + Base128(number, false) else [(bits + number) as byte]
  }

  /** parse_asn1_tag. */
  function ParseTag(s: seq<byte>): (r: Option<(nat, seq<byte>)>)
    ensures r.Some? ==> |r.value.1| < |s|
  {
    if s == [] then None
    else
      var bits, number := s[0] / 0x20 * CLASS_STEP, s[0] % 0x20;
      if number != 0x1f then Some((bits + number, s[1..]))
      else
        var (v, rest) :- ParseBase128(s[1..], 0);
        if v >= CLASS_STEP || v < 0x1f then None else Some((bits + v, rest))
  }

  lemma TagRoundTrip(tag: nat, t: seq<byte>)
    requires tag < TWO_32
    ensures ParseTag(PutTag(tag) + t) == Some((tag, t))
  {
    hide Base128, ParseBase128;
    var number := tag % CLASS_STEP;
    var head := PutTag(tag)[0];
    if number >= 0x1f {
      assert (PutTag(tag) + t)[1..] == Base128(number, false) + t;
      Base128RoundTrip(number, t);
    } else {
      assert (PutTag(tag) + t)[1..] == t;
    }
    assert tag == tag / CLASS_STEP * CLASS_STEP + number;
  }

  // Lengths.

  /** How many bytes a length needs. */
  function LengthSize(len: nat): nat {
    if len > 0xFF_FFFF then 4 else if len > 0xFFFF then 3 else if len > 0xFF then 2 else 1
  }

  /** The length octets CBB_flush fills in. */
  function PutLength(len: nat): seq<byte>
    requires len <= MAX_LENGTH
  {
    if len <= 0x7F then [len as byte] else [(0x80 + LengthSize(len)) as byte] + PutBig(len, LengthSize(len))
  }

  /** The length octets, as cbs_get_any_asn1_element accepts them in DER. */
  function ParseLength(s: seq<byte>): (r: Option<(nat, seq<byte>)>)
    ensures r.Some? ==> |r.value.1| < |s|
  {
    if s == [] then None
    else if s[0] < 0x80 then Some((s[0] as int, s[1..]))
    else
      var n := s[0] - 0x80;
      if n == 0 || n > 4 then None
      else
        var (len, rest) :- GetBig(s[1..], n);
        if len < 0x80 || len / Pow2(8 * (n - 1)) == 0 then None else Some((len, rest))
  }

  lemma SmallPowers()
    ensures Pow2(0) == 1 && Pow2(8) == 0x100 && Pow2(16) == 0x1_0000 && Pow2(24) == 0x100_0000 && Pow2(32) == TWO_32
  {
    assert Pow2(8) == 0x100;
    Pow2Of16();
    Pow2Of32();
    Pow2Add(16, 8);
  }

  lemma LengthRoundTrip(len: nat, t: seq<byte>)
    requires len <= MAX_LENGTH
    ensures ParseLength(PutLength(len) + t) == Some((len, t))
  {
    hide Pow2, BigEndian, GetBig, PutBig;
    SmallPowers();
    var n := LengthSize(len);
    if len <= 0x7F {
      assert (PutLength(len) + t)[1..] == t;
    } else {
      assert (PutLength(len) + t)[1..] == PutBig(len, n) + t;
      GetPutBig(len, n, t);
    }
  }

  // Elements.

  /** CBB_add_asn1, the contents, and the flush. */
  function Element(tag: nat, content: seq<byte>): (r: Option<seq<byte>>)
    ensures r.Some? ==> |r.value| > |content|
  {
    if |content| > MAX_LENGTH then None else Some(PutTag(tag) + PutLength(|content|) + content)
  }

  /** CBS_get_any_asn1: the tag, the contents, and what follows. */
  function GetAny(s: seq<byte>): (r: Option<(nat, seq<byte>, seq<byte>)>)
    ensures r.Some? ==> |r.value.1| + |r.value.2| < |s|
  {
    var (tag, s1) :- ParseTag(s);
    var (len, s2) :- ParseLength(s1);
    if |s2| < len then None else Some((tag, s2[..len], s2[len..]))
  }

  /** CBS_get_any_asn1_element: the element with its header, and what follows. */
  function GetAnyElement(s: seq<byte>): (r: Option<(seq<byte>, seq<byte>)>)
    ensures r.Some? ==> |r.value.0| > 0 && |r.value.1| < |s|
  {
    var (_, _, rest) :- GetAny(s);
    Some((s[..|s| - |rest|], rest))
  }

  /** CBS_get_asn1. */
  function GetAsn1(s: seq<byte>, tag: nat): (r: Option<(seq<byte>, seq<byte>)>)
    ensures r.Some? ==> |r.value.0| + |r.value.1| < |s|
  {
    var (actual, content, rest) :- GetAny(s);
    if actual == tag then Some((content, rest)) else None
  }

  /** CBS_peek_asn1_tag. */
  predicate PeekTag(s: seq<byte>, tag: nat) {
    ParseTag(s).Some? && ParseTag(s).value.0 == tag
  }

  /** An element that was written is read back. */
  lemma ElementRoundTrip(tag: nat, content: seq<byte>, t: seq<byte>)
    requires tag < TWO_32 && Element(tag, content).Some?
    ensures GetAny(Element(tag, content).value + t) == Some((tag, content, t))
    ensures PeekTag(Element(tag, content).value + t, tag)
    ensures forall other :: other != tag ==> !PeekTag(Element(tag, content).value + t, other)
  {
    hide PutTag, ParseTag, PutLength, ParseLength;
    var len := PutLength(|content|);
    assert Element(tag, content).value + t == PutTag(tag) + (len + (content + t));
    TagRoundTrip(tag, len + (content + t));
    LengthRoundTrip(|content|, content + t);
    assert (content + t)[..|content|] == content && (content + t)[|content|..] == t;
  }

  // Values.

  /** The bytes of a number without leading zeros. */
  function Minimal(v: nat): (r: seq<byte>)
    ensures |r| > 0
  {
    if v < 0x100 then [v as byte] else Minimal(v / 0x100) + [v % 0x100]
  }

  /** The contents CBB_add_asn1_uint64 writes. */
  function IntegerBytes(v: nat): seq<byte> {
    if Minimal(v)[0] >= 0x80 then [0] + Minimal(v) else Minimal(v)
  }

  /** The accumulating loop of CBS_get_asn1_uint64. */
  function Accumulate(s: seq<byte>, out: nat): Option<nat> {
    if s == [] then Some(out)
    else if out / 0x100_0000_0000_0000 != 0 then None
    else Accumulate(s[1..], out * 0x100 + s[0])
  }

  /** CBS_get_asn1_uint64, on the contents. */
  function ParseInteger(s: seq<byte>): Option<nat> {
    if s == [] || s[0] >= 0x80 then None
    else if s[0] == 0 && |s| > 1 && s[1] < 0x80 then None
    else Accumulate(s, 0)
  }

  lemma {:induction false} MinimalHead(v: nat)
    ensures Minimal(v)[0] == 0 ==> v == 0
  {
    if v >= 0x100 { MinimalHead(v / 0x100); }
  }

  lemma {:induction false} AccumulateMinimal(v: nat, t: seq<byte>)
    requires v < TWO_64
    ensures Accumulate(Minimal(v) + t, 0) == Accumulate(t, v)
  {
    if v < 0x100 {
      AccumulateStep(v as byte, t, 0);
    } else {
      var last: byte := v % 0x100;
      assert Minimal(v) + t == Minimal(v / 0x100) + ([last] + t);
      AccumulateMinimal(v / 0x100, [last] + t);
      AccumulateStep(last, t, v / 0x100);
    }
  }

  lemma AccumulateStep(b: byte, t: seq<byte>, out: nat)
    requires out < 0x100_0000_0000_0000
    ensures Accumulate([b] + t, out) == Accumulate(t, out * 0x100 + b)
  {
    assert ([b] + t)[1..] == t;
  }

  /** Every 64-bit number comes back; the encoding is minimal and non-negative. */
  lemma IntegerRoundTrip(v: nat)
    requires v < TWO_64
    ensures ParseInteger(IntegerBytes(v)) == Some(v)
    ensures |IntegerBytes(v)| <= 9
  {
    hide Accumulate, Minimal;
    MinimalHead(v);
    Pow2Of64();
    MinimalLength(v, 8);
    AccumulateMinimal(v, []);
    assert Minimal(v) + [] == Minimal(v);
    assert Accumulate([], v) == Some(v) by { AccumulateNothing(v); }
    if Minimal(v)[0] >= 0x80 { AccumulateStep(0, Minimal(v), 0); }
    if v == 0 { MinimalZero(); } else if Minimal(v)[0] == 0 { assert false; }
  }

  lemma MinimalZero()
    ensures Minimal(0) == [0]
  {
  }

  lemma AccumulateNothing(v: nat)
    ensures Accumulate([], v) == Some(v)
  {
  }

  lemma {:induction false} MinimalLength(v: nat, n: nat)
    requires n > 0 && v < Pow2(8 * n)
    ensures |Minimal(v)| <= n
  {
    SmallPowers();
    if v >= 0x100 {
      Pow2Add(8 * (n - 1), 8);
      if n == 1 { assert false; }
      MinimalLength(v / 0x100, n - 1);
    }
  }
}
