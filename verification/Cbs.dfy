/** cbs.c in place: a cursor that DER elements are read from. */
module Cbs {
  import opened Bits
  import opened ByteString
  import opened Der
  import opened Session

  /** cbs_get_u. */
  method GetU(s: seq<byte>, n: nat) returns (ok: bool, v: nat, rest: seq<byte>)
    ensures ok == GetBig(s, n).Some?
    ensures ok ==> Some((v, rest)) == GetBig(s, n)
  {
    v, rest := 0, s;
    if |s| < n {
      return false, v, rest;
    }
    for i := 0 to n
      invariant v == BigEndian(s[..i])
    {
      assert s[..i + 1][..i] == s[..i];
      v := v * 0x100 + s[i];
    }
    ok, rest := true, s[n..];
  }

  /** parse_base128_integer. */
  method ParseBase128Integer(s: seq<byte>) returns (ok: bool, v: nat, rest: seq<byte>)
    ensures ok == ParseBase128(s, 0).Some?
    ensures ok ==> Some((v, rest)) == ParseBase128(s, 0)
  {
    v, rest := 0, s;
    var more := true;
    while more
      invariant if more then ParseBase128(s, 0) == ParseBase128(rest, v) else ParseBase128(s, 0) == Some((v, rest))
      decreases more, |rest|
    {
      if rest == [] || v / 0x200_0000_0000_0000 != 0 || (v == 0 && rest[0] == 0x80) {
        return false, v, rest;
      }
      v, more, rest := v * 0x80 + rest[0] % 0x80, rest[0] >= 0x80, rest[1..];
    }
    ok := true;
  }

  /** parse_asn1_tag. */
  method ParseAsn1Tag(s: seq<byte>) returns (ok: bool, tag: nat, rest: seq<byte>)
    ensures ok == ParseTag(s).Some?
    ensures ok ==> Some((tag, rest)) == ParseTag(s)
  {
    hide ParseBase128;
    tag, rest := 0, s;
    if s == [] {
      return false, tag, rest;
    }
    tag := s[0] / 0x20 * CLASS_STEP;
    var number: nat := s[0] % 0x20;
    rest := s[1..];
    if number == 0x1f {
      ok, number, rest := ParseBase128Integer(rest);
      if !ok || number >= CLASS_STEP || number < 0x1f {
        return false, tag, rest;
      }
    }
    ok, tag := true, tag + number;
  }

  /** CBS. */
  class Cursor {
    var rest: seq<byte>

    constructor (s: seq<byte>)
      ensures rest == s
    {
      rest := s;
    }

    /** cbs_get_any_asn1_element in DER, with the header skipped. */
    method GetAnyAsn1() returns (ok: bool, tag: nat, content: seq<byte>)
      modifies this
      ensures ok == GetAny(old(rest)).Some?
      ensures ok ==> Some((tag, content, rest)) == GetAny(old(rest))
      ensures !ok ==> rest == old(rest)
    {
      hide ParseTag, GetBig, Pow2;
      content := [];
      var header;
      ok, tag, header := ParseAsn1Tag(rest);
      if !ok || header == [] {
        return false, 0, [];
      }
      var len: nat := header[0];
      header := header[1..];
      if len >= 0x80 {
        var n := len - 0x80;
        if n == 0 || n > 4 {
          return false, 0, [];
        }
        ok, len, header := GetU(header, n);
        if !ok || len < 0x80 || len / Pow2(8 * (n - 1)) == 0 {
          return false, 0, [];
        }
      }
      if |header| < len {
        return false, 0, [];
      }
      ok, content, rest := true, header[..len], header[len..];
    }

    /** CBS_get_asn1. */
    method GetTagged(tag: nat) returns (ok: bool, content: seq<byte>)
      modifies this
      ensures ok == GetAsn1(old(rest), tag).Some?
      ensures ok ==> Some((content, rest)) == GetAsn1(old(rest), tag)
    {
      hide GetAny;
      var actual;
      ok, actual, content := GetAnyAsn1();
      ok := ok && actual == tag;
    }

    /** CBS_peek_asn1_tag. */
    method Peek(tag: nat) returns (there: bool)
      ensures there == PeekTag(rest, tag)
    {
      hide ParseTag;
      var ok, actual, _ := ParseAsn1Tag(rest);
      there := ok && actual == tag;
    }

    /** CBS_get_asn1_uint64. */
    method GetUint64() returns (ok: bool, out: nat)
      modifies this
      ensures ok == GetNumber(old(rest)).Some?
      ensures ok ==> Some((out, rest)) == GetNumber(old(rest))
    {
      hide GetAsn1;
      var bytes;
      out := 0;
      ok, bytes := GetTagged(INTEGER);
      if !ok || bytes == [] || bytes[0] >= 0x80 || (bytes[0] == 0 && |bytes| > 1 && bytes[1] < 0x80) {
        return false, out;
      }
      var i := 0;
      while i < |bytes|
        invariant i <= |bytes| && Accumulate(bytes, 0) == Accumulate(bytes[i..], out)
      {
        if out / 0x100_0000_0000_0000 != 0 {
          return false, out;
        }
        assert bytes[i..][1..] == bytes[i + 1..];
        out := out * 0x100 + bytes[i];
        i := i + 1;
      }
    }

    /** CBS_get_optional_asn1. */
    method GetOptionalAsn1(number: nat) returns (ok: bool, child: Option<seq<byte>>)
      modifies this
      ensures ok == GetOptional(old(rest), number).Some?
      ensures ok ==> Some((child, rest)) == GetOptional(old(rest), number)
    {
      hide GetAsn1, PeekTag;
      var present := Peek(Explicit(number));
      if !present {
        return true, None;
      }
      var content;
      ok, content := GetTagged(Explicit(number));
      child := Some(content);
    }

    /** CBS_get_optional_asn1_octet_string. */
    method GetOctets(number: nat) returns (ok: bool, data: Option<seq<byte>>)
      modifies this
      ensures ok == GetOptionalOctets(old(rest), number).Some?
      ensures ok ==> Some((data, rest)) == GetOptionalOctets(old(rest), number)
    {
      hide GetOptional, GetAsn1;
      ok, data := GetOptionalAsn1(number);
      if !ok || data.None? {
        return;
      }
      var inner := new Cursor(data.value);
      var content;
      ok, content := inner.GetTagged(OCTETSTRING);
      ok, data := ok && inner.rest == [], Some(content);
    }

    /** CBS_get_optional_asn1_uint64, with the bound its callers put on the value. */
    method GetOptionalUint(number: nat, absent: nat, bound: nat) returns (ok: bool, v: nat)
      modifies this
      ensures ok == GetOptionalNumber(old(rest), number, absent, bound).Some?
      ensures ok ==> Some((v, rest)) == GetOptionalNumber(old(rest), number, absent, bound)
    {
      hide GetOptional, GetAsn1, ParseInteger;
      v := absent;
      var child;
      ok, child := GetOptionalAsn1(number);
      if !ok {
        return;
      }
      if child.Some? {
        var inner := new Cursor(child.value);
        ok, v := inner.GetUint64();
        if !ok || inner.rest != [] {
          return false, v;
        }
      }
      ok := v < bound;
    }

    /** CBS_get_optional_asn1_bool. */
    method GetOptionalBool(number: nat, absent: bool) returns (ok: bool, v: bool)
      modifies this
      ensures ok == GetOptionalBoolean(old(rest), number, absent).Some?
      ensures ok ==> Some((v, rest)) == GetOptionalBoolean(old(rest), number, absent)
    {
      hide GetOptional, GetAsn1;
      v := absent;
      var child;
      ok, child := GetOptionalAsn1(number);
      if !ok || child.None? {
        return;
      }
      var inner := new Cursor(child.value);
      var content;
      ok, content := inner.GetTagged(BOOLEAN);
      if !ok || |content| != 1 || inner.rest != [] {
        return false, v;
      }
      ok, v := content[0] == 0 || content[0] == 0xff, content[0] == 0xff;
      assert content == [content[0]];
    }
  }
}
