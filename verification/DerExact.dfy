/** DER has one encoding for each value: a reader accepts exactly what a writer produces. */
module DerExact {
  import opened Bits
  import opened ByteString
  import opened Der

  /** The octets read so far, with `v` read from them, and those to come are the octets of the number. */
  lemma {:induction false} Base128Exact(s: seq<byte>, v: nat)
    requires 0 < v && ParseBase128(s, v).Some?
    ensures var (w, rest) := ParseBase128(s, v).value;
      Base128(v, true) + s == Base128(w, false) + rest
    decreases |s|
  {
    var b, v' := s[0], v * 0x80 + s[0] % 0x80;
    assert v' / 0x80 == v && v' % 0x80 == b % 0x80 && v' >= 0x80;
    if b < 0x80 {
      assert Base128(v', false) == Base128(v, true) + [b];
      assert s == [b] + s[1..];
    } else {
      Base128Exact(s[1..], v');
      assert Base128(v', true) == Base128(v, true) + [b];
      assert s == [b] + s[1..];
    }
  }

  lemma NumberExact(s: seq<byte>)
    requires ParseBase128(s, 0).Some?
    ensures var (w, rest) := ParseBase128(s, 0).value; s == Base128(w, false) + rest
  {
    var b := s[0];
    assert s == [b] + s[1..];
    if b >= 0x80 {
      Base128Exact(s[1..], b % 0x80);
      assert Base128(b % 0x80, true) == [b];
    }
  }

  lemma TagExact(s: seq<byte>)
    requires ParseTag(s).Some?
    ensures var (tag, rest) := ParseTag(s).value; tag < TWO_32 && s == PutTag(tag) + rest
  {
    hide Base128, ParseBase128;
    var (tag, rest) := ParseTag(s).value;
    var high, number := s[0] / 0x20, tag % CLASS_STEP;
    if s[0] % 0x20 == 0x1f { NumberExact(s[1..]); }
    assert tag / CLASS_STEP == high && tag == high * CLASS_STEP + number;
    assert s == [s[0]] + s[1..];
  }

  lemma LengthExact(s: seq<byte>)
    requires ParseLength(s).Some? && ParseLength(s).value.0 <= MAX_LENGTH
    ensures var (len, rest) := ParseLength(s).value; s == PutLength(len) + rest
  {
    hide Pow2, BigEndian, PutBig;
    assert s == [s[0]] + s[1..];
    if s[0] >= 0x80 {
      var n := s[0] - 0x80;
      var octets := s[1..][..n];
      var len := BigEndian(octets);
      SmallPowers();
      BigEndianBound(octets);
      assert LengthSize(len) == n;
      BigRoundTrip(len, n);
      BigEndianInjective(PutBig(len, n), octets);
      assert s[1..] == octets + s[1..][n..];
    }
  }

  /** An element stands in front of `s` exactly when its encoding does. */
  lemma ElementExact(s: seq<byte>, tag: nat, content: seq<byte>, t: seq<byte>)
    requires |content| <= MAX_LENGTH
    ensures GetAny(s) == Some((tag, content, t)) <==> tag < TWO_32 && s == Element(tag, content).value + t
  {
    hide PutTag, ParseTag, PutLength, ParseLength;
    if GetAny(s) == Some((tag, content, t)) {
      var (_, s1) := ParseTag(s).value;
      var (len, s2) := ParseLength(s1).value;
      TagExact(s);
      LengthExact(s1);
      assert s2 == content + t;
      assert Element(tag, content).value + t == PutTag(tag) + (PutLength(len) + (content + t));
    }
    if tag < TWO_32 && s == Element(tag, content).value + t { ElementRoundTrip(tag, content, t); }
  }

  lemma {:induction false} AccumulateExact(s: seq<byte>, out: nat)
    requires 0 < out && Accumulate(s, out).Some?
    ensures Minimal(Accumulate(s, out).value) == Minimal(out) + s
    decreases |s|
  {
    if s == [] {
      assert Minimal(out) + [] == Minimal(out);
    } else {
      var out' := out * 0x100 + s[0];
      AccumulateExact(s[1..], out');
      assert out' / 0x100 == out && out' % 0x100 == s[0] && out' >= 0x100;
      assert s == [s[0]] + s[1..];
    }
  }

  /** A number is read from exactly its shortest form. */
  lemma IntegerExact(s: seq<byte>, v: nat)
    requires v < TWO_64
    ensures ParseInteger(s) == Some(v) <==> s == IntegerBytes(v)
  {
    hide Accumulate, Minimal;
    IntegerRoundTrip(v);
    if ParseInteger(s) == Some(v) {
      assert s == [s[0]] + s[1..];
      MinimalSmall(s[0]);
      AccumulateStep(s[0], s[1..], 0);
      if s[0] != 0 {
        AccumulateExact(s[1..], s[0]);
      } else if |s| == 1 {
        AccumulateNothing(0);
      } else {
        assert s[1..] == [s[1]] + s[2..];
        MinimalSmall(s[1]);
        AccumulateStep(s[1], s[2..], 0);
        AccumulateExact(s[2..], s[1]);
      }
    }
  }

  lemma MinimalSmall(b: byte)
    ensures Minimal(b) == [b]
  {
  }
}
