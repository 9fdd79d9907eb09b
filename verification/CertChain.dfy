/** DER elements one after the other: a chain reads back exactly when each entry is one element. */
module CertChain {
  import opened Bits
  import opened ByteString
  import opened Der
  import opened Session

  /** One DER element, and nothing behind it. */
  predicate IsElement(c: seq<byte>) {
    GetAnyElement(c) == Some((c, []))
  }

  /** `rest` is what remains of `s` behind some bytes. */
  predicate EndsWith(s: seq<byte>, rest: seq<byte>) {
    |rest| <= |s| && s[|s| - |rest|..] == rest
  }

  lemma EndsTrans(s: seq<byte>, t: seq<byte>, u: seq<byte>)
    requires EndsWith(s, t) && EndsWith(t, u)
    ensures EndsWith(s, u)
  {
    assert s[|s| - |u|..] == s[|s| - |t|..][|t| - |u|..];
  }

  lemma {:induction false} Base128Ends(s: seq<byte>, v: nat)
    requires ParseBase128(s, v).Some?
    ensures EndsWith(s, ParseBase128(s, v).value.1)
    decreases |s|
  {
    var v' := v * 0x80 + s[0] % 0x80;
    if s[0] >= 0x80 {
      Base128Ends(s[1..], v');
      EndsTrans(s, s[1..], ParseBase128(s[1..], v').value.1);
    }
  }

  lemma TailEnds(s: seq<byte>, n: nat)
    requires n <= |s|
    ensures EndsWith(s, s[n..])
  {
  }

  lemma TagEnds(s: seq<byte>)
    requires ParseTag(s).Some?
    ensures EndsWith(s, ParseTag(s).value.1)
  {
    hide ParseBase128, EndsWith;
    TailEnds(s, 1);
    if s[0] % 0x20 == 0x1f {
      Base128Ends(s[1..], 0);
      EndsTrans(s, s[1..], ParseTag(s).value.1);
    }
  }

  lemma LengthEnds(s: seq<byte>)
    requires ParseLength(s).Some?
    ensures EndsWith(s, ParseLength(s).value.1)
  {
    hide Pow2, BigEndian, EndsWith;
    TailEnds(s, 1);
    if s[0] >= 0x80 {
      TailEnds(s[1..], s[0] - 0x80);
      EndsTrans(s, s[1..], ParseLength(s).value.1);
    }
  }

  lemma AnyEnds(s: seq<byte>)
    requires GetAny(s).Some?
    ensures EndsWith(s, GetAny(s).value.2)
  {
    hide ParseTag, ParseLength, EndsWith;
    var (tag, s1) := ParseTag(s).value;
    var (len, s2) := ParseLength(s1).value;
    TagEnds(s);
    LengthEnds(s1);
    EndsTrans(s, s1, s2);
    TailEnds(s2, len);
    EndsTrans(s, s2, s2[len..]);
  }

  // Bytes behind an element do not matter.

  lemma {:induction false} Base128More(s: seq<byte>, t: seq<byte>, v: nat)
    requires ParseBase128(s, v).Some?
    ensures var (w, rest) := ParseBase128(s, v).value;
      ParseBase128(s + t, v) == Some((w, rest + t))
    decreases |s|
  {
    assert (s + t)[1..] == s[1..] + t;
    if s[0] >= 0x80 { Base128More(s[1..], t, v * 0x80 + s[0] % 0x80); }
  }

  /** Nor does the end of the input, as long as parsing stops before it. */
  lemma {:induction false} Base128Less(s: seq<byte>, t: seq<byte>, v: nat)
    requires ParseBase128(s + t, v).Some? && |ParseBase128(s + t, v).value.1| >= |t|
    ensures ParseBase128(s, v).Some?
    decreases |s|
  {
    Base128Shrinks(s + t, v);
    assert (s + t)[1..] == s[1..] + t;
    if s[0] >= 0x80 { Base128Less(s[1..], t, v * 0x80 + s[0] % 0x80); }
  }

  lemma Base128Shrinks(s: seq<byte>, v: nat)
    ensures ParseBase128(s, v).Some? ==> |ParseBase128(s, v).value.1| < |s|
  {
  }

  lemma TagMore(s: seq<byte>, t: seq<byte>)
    requires ParseTag(s).Some?
    ensures var (tag, rest) := ParseTag(s).value;
      ParseTag(s + t) == Some((tag, rest + t))
  {
    hide ParseBase128;
    assert (s + t)[1..] == s[1..] + t;
    if s[0] % 0x20 == 0x1f { Base128More(s[1..], t, 0); }
  }

  lemma TagLess(s: seq<byte>, t: seq<byte>)
    requires ParseTag(s + t).Some? && |ParseTag(s + t).value.1| >= |t| && s != []
    ensures ParseTag(s).Some?
  {
    hide ParseBase128;
    assert (s + t)[1..] == s[1..] + t;
    if s[0] % 0x20 == 0x1f {
      Base128Less(s[1..], t, 0);
      Base128More(s[1..], t, 0);
    }
  }

  lemma BigMore(s: seq<byte>, t: seq<byte>, n: nat)
    requires n <= |s|
    ensures GetBig(s + t, n) == Some((BigEndian(s[..n]), s[n..] + t))
    ensures GetBig(s, n) == Some((BigEndian(s[..n]), s[n..]))
  {
    assert (s + t)[..n] == s[..n] && (s + t)[n..] == s[n..] + t;
  }

  lemma LengthMore(s: seq<byte>, t: seq<byte>)
    requires ParseLength(s).Some?
    ensures var (len, rest) := ParseLength(s).value;
      ParseLength(s + t) == Some((len, rest + t))
  {
    hide Pow2, BigEndian;
    assert (s + t)[1..] == s[1..] + t;
    if s[0] > 0x80 { BigMore(s[1..], t, s[0] - 0x80); }
  }

  lemma LengthLess(s: seq<byte>, t: seq<byte>)
    requires ParseLength(s + t).Some? && |ParseLength(s + t).value.1| >= |t| && s != []
    ensures ParseLength(s).Some?
  {
    hide Pow2, BigEndian;
    assert (s + t)[1..] == s[1..] + t;
    if s[0] > 0x80 { BigMore(s[1..], t, s[0] - 0x80); }
  }

  /** An element is read the same whatever follows it. */
  lemma AnyMore(s: seq<byte>, t: seq<byte>)
    requires GetAny(s).Some?
    ensures var (tag, content, rest) := GetAny(s).value;
      GetAny(s + t) == Some((tag, content, rest + t))
  {
    hide ParseTag, ParseLength;
    var (tag, s1) := ParseTag(s).value;
    TagMore(s, t);
    var (len, s2) := ParseLength(s1).value;
    LengthMore(s1, t);
    assert (s2 + t)[..len] == s2[..len] && (s2 + t)[len..] == s2[len..] + t;
  }

  /** An element that ends before `t` is one without it. */
  lemma AnyLess(s: seq<byte>, t: seq<byte>)
    requires GetAny(s + t).Some? && |GetAny(s + t).value.2| >= |t|
    ensures GetAny(s).Some?
  {
    hide ParseTag, ParseLength;
    AnyShrinks(s + t);
    TagLess(s, t);
    TagMore(s, t);
    var (tag, s1) := ParseTag(s).value;
    LengthShrinks(s1 + t);
    LengthLess(s1, t);
    LengthMore(s1, t);
  }

  lemma AnyShrinks(s: seq<byte>)
    ensures GetAny(s).Some? ==> |GetAny(s).value.2| < |s|
  {
  }

  lemma LengthShrinks(s: seq<byte>)
    ensures ParseLength(s).Some? ==> |ParseLength(s).value.1| < |s|
  {
  }

  lemma ElementAt(c: seq<byte>, t: seq<byte>)
    ensures GetAnyElement(c + t) == Some((c, t)) <==> IsElement(c)
  {
    hide GetAny;
    if IsElement(c) {
      AnyMore(c, t);
      assert [] + t == t && (c + t)[..|c|] == c;
    }
    if GetAnyElement(c + t) == Some((c, t)) {
      AnyLess(c, t);
      AnyMore(c, t);
      assert GetAny(c).value.2 == [];
      assert c[..|c|] == c;
    }
  }

  /** A chain is read back as it was exactly when every certificate is a single element. */
  lemma {:induction false} ChainRoundTrip(certs: seq<seq<byte>>)
    ensures ParseChain(Concat(certs)) == Some(certs) <==> forall i :: 0 <= i < |certs| ==> IsElement(certs[i])
    decreases |certs|
  {
    hide GetAnyElement, IsElement;
    if certs != [] {
      var c, more := certs[0], certs[1..];
      var s := c + Concat(more);
      ChainRoundTrip(more);
      ElementAt(c, Concat(more));
      if ParseChain(s) == Some(certs) { FirstIsFirst(s, c, more); }
      if forall i :: 0 <= i < |certs| ==> IsElement(certs[i]) {
        NotEmpty(c);
        assert [c] + more == certs;
      }
      if IsElement(c) && forall i :: 0 <= i < |more| ==> IsElement(more[i]) {
        assert forall i :: 1 <= i < |certs| ==> certs[i] == more[i - 1];
      }
    }
  }

  lemma NotEmpty(c: seq<byte>)
    requires IsElement(c)
    ensures c != []
  {
  }

  lemma FirstIsFirst(s: seq<byte>, c: seq<byte>, more: seq<seq<byte>>)
    requires s == c + Concat(more) && ParseChain(s) == Some([c] + more)
    ensures GetAnyElement(s) == Some((c, Concat(more))) && ParseChain(Concat(more)) == Some(more)
  {
    hide GetAny, Concat;
    var (cert, rest) := GetAnyElement(s).value;
    AnyEnds(s);
    assert cert == c by { assert ParseChain(s).value[0] == cert; }
    assert |rest| == |Concat(more)|;
    assert rest == s[|c|..] == Concat(more);
    assert ParseChain(s).value[1..] == more;
    assert ParseChain(rest) == Some(ParseChain(s).value[1..]);
  }
}
