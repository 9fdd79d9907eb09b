/** Reading back what the value encoders write, for the types without nesting. */
module ScalarRoundTrip {
  import opened Bits
  import opened Wire
  import opened Descriptors
  import opened EncodeSpec
  import opened DecodeSpec
  import opened MessageShape

  lemma RangeValues()
    ensures Range(1) == TWO_8 && Range(2) == TWO_16 && Range(4) == TWO_32 && Range(8) == TWO_64
  {
    Pow2Of16();
    Pow2Of32();
    Pow2Of64();
    assert Pow2(8) == TWO_8;
  }

  /** A length-prefixed string comes back whole. */
  lemma StringRoundTrip(data: seq<byte>, t: seq<byte>)
    requires |data| < TWO_32
    ensures DecString(EncString(data) + t) == Some((data, t))
  {
    hide EncVarint, DecVarint32;
    assert |data| % TWO_64 == |data|;
    assert EncString(data) + t == EncVarint(|data|) + (data + t);
    Varint32Ranges(|data|, data + t);
  }

  /** A field's tag word comes back. */
  lemma TagRoundTrip(wireType: nat, tag: nat, t: seq<byte>)
    requires 1 <= tag <= MAX_TAG && wireType < 8
    ensures DecTag(EncTag(wireType, tag) + t) == Tag(tag, wireType, t)
  {
    hide EncVarint, DecVarint32;
    Varint32Ranges(tag * 8 + wireType, t);
  }

  /** Two's complement bits, read back at the width they came from. */
  lemma SignedBits(v: int, n: nat)
    requires ValidIntSize(n) && AsSigned(v, n) == v
    ensures NarrowSigned(v % TWO_64, n) == Some(v)
    ensures -(TWO_63 as int) <= v < TWO_63
  {
    hide Pow2;
    RangeValues();
    SignedWidth(v, n);
    if n == 8 {
      assert AsSigned(v % TWO_64, 8) == v;
    } else {
      assert AsSigned(v, 4) == v by { SignedInt32(v, n); }
      assert v % TWO_64 % TWO_32 == v % TWO_32;
      assert AsSigned(v % TWO_64, 4) == v;
    }
  }

  lemma SignedWidth(v: int, n: nat)
    requires ValidIntSize(n) && AsSigned(v, n) == v
    ensures -(Range(n) as int) <= 2 * v < Range(n)
  {
    hide Pow2;
    RangeValues();
  }

  lemma SignedInt32(v: int, n: nat)
    requires n == 1 || n == 2 || n == 4
    requires AsSigned(v, n) == v
    ensures AsSigned(v, 4) == v
  {
    hide Pow2;
    RangeValues();
    SignedWidth(v, n);
    if v < 0 { assert v % TWO_32 == v + TWO_32; } else { assert v % TWO_32 == v; }
  }

  lemma UnsignedBits(v: int, n: nat)
    requires ValidIntSize(n) && AsUnsigned(v, n) == v
    ensures 0 <= v < TWO_64 && v % TWO_64 == v
  {
    hide Pow2;
    RangeValues();
  }

  /** Every integer encoder is inverted by its decoder. */
  lemma ScalarInverse(lay: Layout, f: Field, v: Value, t: seq<byte>)
    requires Packable(f.ltype) && ValueOk(lay, f, v)
    ensures EncScalar(f, v).Some?
    ensures DecScalar(f, EncScalar(f, v).value + t) == Some((v, t))
    ensures |EncScalar(f, v).value| > 0
  {
    hide EncVarint, DecVarint, Pow2, LittleEndian, FromLittleEndian, NarrowSigned, ZigZag, UnZigZag, AsSigned, AsUnsigned;
    match f.ltype
    case Varint =>
      SignedBits(v.v, f.dataSize);
      VarintRoundTrip(v.v % TWO_64, t);
    case UVarint =>
      UnsignedBits(v.v, f.dataSize);
      VarintRoundTrip(v.v, t);
    case SVarint =>
      SignedBits(v.v, f.dataSize);
      ZigZagRoundTrip(v.v);
      VarintRoundTrip(ZigZag(v.v), t);
    case Fixed32 =>
      RangeValues();
      LittleEndianRoundTrip(v.v, 4);
      ReadPrefix(LittleEndian(v.v, 4), t);
    case Fixed64 =>
      RangeValues();
      LittleEndianRoundTrip(v.v, 8);
      ReadPrefix(LittleEndian(v.v, 8), t);
  }

  lemma ReadPrefix(s: seq<byte>, t: seq<byte>)
    ensures Read(s + t, |s|) == Some((s, t))
  {
    assert (s + t)[..|s|] == s && (s + t)[|s|..] == t;
  }

  /** `got` in front of what an array held. */
  function Over(held: seq<Value>, got: seq<Value>): seq<Value> {
    got + if |got| < |held| then held[|got|..] else []
  }

  lemma StoreOver(held: seq<Value>, got: seq<Value>, v: Value)
    ensures StoreItem(Over(held, got), |got|, v) == Over(held, got + [v])
  {
    if |got| < |held| {
      assert held[|got|..] == [held[|got|]] + held[|got| + 1..];
    }
  }

  lemma OverAll(held: seq<Value>, got: seq<Value>)
    ensures |got| >= |held| ==> Over(held, got) == got
    ensures got == [] ==> Over(held, got) == held
  {
  }

  /** A packed run fills the array from entry `i` on, whatever the array held. */
  lemma {:induction false} PackedInverse(lay: Layout, f: Field, held: seq<Value>, items: seq<Value>, i: nat)
    requires i <= |items| <= f.arraySize && Packable(f.ltype)
    requires forall k :: 0 <= k < |items| ==> ValueOk(lay, f, items[k])
    ensures EncPackedFrom(f, items, i).Some?
    ensures DecPacked(f, Over(held, items[..i]), i, EncPackedFrom(f, items, i).value)
         == Some(Filled(Over(held, items), |items|))
    decreases |items| - i
  {
    hide ValueOk, EncScalar, DecScalar, Over, StoreItem;
    if i == |items| {
      assert items[..i] == items;
    } else {
      PackedInverse(lay, f, held, items, i + 1);
      var tail := EncPackedFrom(f, items, i + 1).value;
      ScalarInverse(lay, f, items[i], tail);
      assert items[..i] + [items[i]] == items[..i + 1];
      StoreOver(held, items[..i], items[i]);
    }
  }

  lemma {:induction false} StrLenOf(data: seq<byte>, max: nat)
    requires 0 !in data && |data| < max
    ensures StrLen(data + [0], max) == |data|
  {
    if data != [] {
      assert (data + [0])[1..] == data[1..] + [0];
      StrLenOf(data[1..], max - 1);
    }
  }

  /** A stored string, byte array or inline array reads as the one that was written. */
  lemma StoreInverse(lay: Layout, f: Field, v: Value)
    requires ValueOk(lay, f, v)
    requires f.ltype.BytesType? || f.ltype.StringType? || f.ltype.FixedLengthBytes?
    requires EncValue(lay, f, v).Some?
    ensures exists data :: |data| < TWO_32 && EncValue(lay, f, v) == Some(EncString(data))
                        && StoreString(f, data).Some? && SameValue(f, v, StoreString(f, data).value)
  {
    hide EncString;
    match v
    case Bytes(data) =>
      assert StoreString(f, data) == Some(v);
    case Str(buf) =>
      var data := Text(f, buf);
      StrLenOf(data, f.dataSize);
      assert Text(f, data + [0]) == data;
      assert StoreString(f, data) == Some(Str(data + [0]));
    case Raw(data) =>
      if data == [] { assert data == seq<byte>(f.dataSize, _ => 0); }
      assert StoreString(f, data) == Some(v);
  }
}
