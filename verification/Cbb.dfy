/** cbb.c in place: a builder whose children are closed by filling in their lengths. */
module Cbb {
  import opened Bits
  import opened ByteString
  import opened Der
  import opened Session

  /** The bytes of `o`, appended to `s`; an error gives None. */
  function Onto(s: seq<byte>, o: Option<seq<byte>>): Option<seq<byte>> {
    if o.Some? then Some(s + o.value) else None
  }

  class Builder {
    var buf: seq<byte>
    var error: bool

    /** What has been built, unless there was an error. */
    function Built(): Option<seq<byte>>
      reads this
    {
      if error then None else Some(buf)
    }

    constructor ()
      ensures Built() == Some([])
    {
      buf, error := [], false;
    }

    /** CBB_add_bytes. */
    method AddBytes(data: seq<byte>)
      modifies this
      ensures old(error) ==> error
      ensures !old(error) ==> Built() == Some(old(buf) + data)
    {
      if !error {
        buf := buf + data;
      }
    }

    /** CBB_add_asn1: the tag, and a place for the length; `child` is where it is. */
    method AddAsn1(tag: nat) returns (child: nat)
      modifies this
      ensures old(error) ==> error
      ensures !old(error) ==> child == |old(buf)| + |PutTag(tag)| && Built() == Some(old(buf) + PutTag(tag) + [0])
    {
      hide PutTag;
      child := |buf| + |PutTag(tag)|;
      assert buf + (PutTag(tag) + [0]) == buf + PutTag(tag) + [0];
      AddBytes(PutTag(tag) + [0]);
    }

    /** CBB_flush of a child opened at `child` behind `start`: the length takes as many bytes as it needs. */
    method Close(child: nat, ghost start: seq<byte>, ghost tag: nat, ghost content: seq<byte>)
      requires !error ==> child == |start| + |PutTag(tag)| && buf == start + PutTag(tag) + [0] + content
      modifies this
      ensures old(error) ==> error
      ensures !old(error) ==> Built() == Onto(start, Element(tag, content))
    {
      hide PutTag, PutLength;
      if error {
        return;
      }
      var len := |buf| - child - 1;
      if len > MAX_LENGTH {
        error := true;
        return;
      }
      ghost var front := start + PutTag(tag);
      assert buf[..child] == front && buf[child + 1..] == content;
      buf := buf[..child] + PutLength(len) + buf[child + 1..];
      assert front + PutLength(len) + content == start + (PutTag(tag) + PutLength(len) + content);
    }

    /** CBB_add_asn1_octet_string, and any element whose contents are at hand. */
    method AddElement(tag: nat, data: seq<byte>)
      modifies this
      ensures old(error) ==> error
      ensures !old(error) ==> Built() == Onto(old(buf), Element(tag, data))
    {
      hide PutTag, Element;
      ghost var start := buf;
      var child := AddAsn1(tag);
      AddBytes(data);
      Close(child, start, tag, data);
    }

    /** CBB_add_asn1_uint64: eight bytes, the leading zeros left out. */
    method AddUint64(value: nat)
      requires value < TWO_64
      modifies this
      ensures old(error) ==> error
      ensures !old(error) ==> Built() == Onto(old(buf), Number(value))
    {
      hide PutTag, Element, Minimal, IntegerBytes, Leading;
      ghost var start := buf;
      var child := AddAsn1(INTEGER);
      ghost var opening := buf;
      var started := false;
      ghost var top: nat := 0;
      LeadingEnds(value);
      for i := 0 to 8
        invariant old(error) ==> error
        invariant !old(error) ==> !error
        invariant top == Leading(value, i) && (started <==> top != 0)
        invariant !error ==> buf == opening + (if top == 0 then [] else IntegerBytes(top))
      {
        LeadingMore(value, i);
        var b: byte := value / Pow2(8 * (7 - i)) % 0x100;
        IntegerGrows(top, b);
        top := top * 0x100 + b;
        if !started {
          if b == 0 {
            continue;
          }
          if b >= 0x80 {
            AddBytes([0]);
          }
          started := true;
        }
        AddBytes([b]);
      }
      IntegerZero();
      if !started {
        AddBytes([0]);
      }
      Close(child, start, INTEGER, IntegerBytes(value));
    }

    /** CBB_add_asn1_bool. */
    method AddBool(value: bool)
      modifies this
      ensures old(error) ==> error
      ensures !old(error) ==> Built() == Onto(old(buf), Boolean(value))
    {
      hide Element;
      AddElement(BOOLEAN, [if value then 0xff else 0]);
    }
  }

  /** The byte at position `k`, and the number above it. */
  lemma NextByte(value: nat, k: nat)
    ensures value / Pow2(8 * k) == value / Pow2(8 * (k + 1)) * 0x100 + value / Pow2(8 * k) % 0x100
  {
    hide Pow2;
    Pow2Add(8 * k, 8);
    SmallPowers();
    DivTwice(value, Pow2(8 * k));
  }

  /** The number in the first `i` of eight bytes. */
  function Leading(value: nat, i: nat): int
    requires i <= 8
  {
    value / Pow2(8 * (8 - i))
  }

  lemma LeadingMore(value: nat, i: nat)
    requires i < 8
    ensures Leading(value, i + 1) == Leading(value, i) * 0x100 + value / Pow2(8 * (7 - i)) % 0x100
  {
    hide Pow2;
    NextByte(value, 7 - i);
  }

  lemma LeadingEnds(value: nat)
    requires value < TWO_64
    ensures Leading(value, 0) == 0 && Leading(value, 8) == value
  {
    hide Pow2;
    Pow2Of64();
    assert Pow2(0) == 1 by { SmallPowers(); }
  }

  lemma DivTwice(v: nat, p: nat)
    requires p > 0
    ensures v / (p * 0x100) == v / p / 0x100
  {
    var q, r := v / p, v % p;
    var h, l := q / 0x100, q % 0x100;
    Distribute(p, h, l);
    Within(p, l, r);
    QuotientIs(v, p * 0x100, h, p * l + r);
  }

  lemma Distribute(p: nat, h: nat, l: nat)
    ensures p * (h * 0x100 + l) == p * 0x100 * h + p * l
  {
  }

  lemma Within(p: nat, l: nat, r: nat)
    requires l < 0x100 && r < p
    ensures p * l + r < p * 0x100
  {
    assert p * l <= p * 0xff;
  }

  lemma QuotientIs(x: nat, d: nat, q: nat, r: nat)
    requires d > 0 && x == d * q + r && r < d
    ensures x / d == q
  {
    var e := x / d - q;
    assert d * e == r - x % d by { assert d * (x / d) == d * q + d * e; }
    Multiple(d, e);
  }

  lemma IntegerGrows(top: nat, b: byte)
    ensures top != 0 ==> IntegerBytes(top * 0x100 + b) == IntegerBytes(top) + [b]
    ensures top == 0 && b != 0 ==> IntegerBytes(b) == if b >= 0x80 then [0, b] else [b]
  {
    assert (top * 0x100 + b) / 0x100 == top && (top * 0x100 + b) % 0x100 == b;
    if top == 0 { assert Minimal(b) == [b]; }
  }

  lemma IntegerZero()
    ensures IntegerBytes(0) == [0]
  {
  }
}
