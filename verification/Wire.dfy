/**
  The Protocol Buffers wire primitives of pb_encode.c and pb_decode.c ("Base 128 Varints",
  "Signed Integers", fixed-width integers), as functions on byte sequences. A decoder
  takes the bytes left in the stream and returns the value with what is left after it.
 */
module Wire {
  import opened Bits

  /** What pb_encode_varint writes for a 64-bit value. */
  function EncVarint(v: nat): (r: seq<byte>)
    ensures |r| > 0
  {
    if v < 0x80 then [v] else [v % 0x80 + 0x80] + EncVarint(v / 0x80)
  }

  /** The loop of pb_decode_varint, entered with `acc` holding the bits below `bitpos`. */
  function DecVarintFrom(s: seq<byte>, bitpos: nat, acc: nat): (r: Option<(nat, seq<byte>)>)
    ensures r.Some? ==> |r.value.1| < |s|
  {
    if bitpos >= 64 || s == [] then None
    else
      var acc' := Or(acc, s[0] % 0x80 * Pow2(bitpos) % TWO_64);
      if s[0] >= 0x80 then DecVarintFrom(s[1..], bitpos + 7, acc') else Some((acc', s[1..]))
  }

  function DecVarint(s: seq<byte>): (r: Option<(nat, seq<byte>)>)
    ensures r.Some? ==> |r.value.1| < |s|
  {
    DecVarintFrom(s, 0, 0)
  }

  /**
    The multi-byte loop of pb_decode_varint32_eof. `bitpos` is a uint_fast8_t of eight bits,
    so it wraps after 36 continuation bytes.
   */
  function DecVarint32From(s: seq<byte>, bitpos: nat, acc: nat): (r: Option<(nat, seq<byte>)>)
    ensures r.Some? ==> |r.value.1| < |s|
  {
    if s == [] then None
    else
      var b := s[0];
      var signExtension := if bitpos < 63 then 0xFF else 0x01;
      if bitpos >= 32 && b % 0x80 != 0 && (acc / TWO_31 == 0 || b != signExtension) then None
      else
        var acc' := if bitpos >= 32 then acc else Or(acc, b % 0x80 * Pow2(bitpos) % TWO_32);
        var bitpos' := (bitpos + 7) % 0x100;
        if b >= 0x80 then DecVarint32From(s[1..], bitpos', acc')
        else if bitpos' == 35 && b / 0x10 % 8 != 0 then None
        else Some((acc', s[1..]))
  }

  function DecVarint32(s: seq<byte>): (r: Option<(nat, seq<byte>)>)
    ensures r.Some? ==> |r.value.1| < |s|
  {
    if s == [] then None
    else if s[0] < 0x80 then Some((s[0], s[1..]))
    else DecVarint32From(s[1..], 7, s[0] % 0x80)
  }

  /** pb_encode_svarint's zigzag of a 64-bit signed value, on its two's complement bits. */
  function ZigZag(v: int): nat {
    if v < 0 then TWO_64 - 1 - v % TWO_64 * 2 % TWO_64 else v * 2 % TWO_64
  }

  /** pb_decode_svarint's inverse, on a 64-bit unsigned value. */
  function UnZigZag(z: nat): int
    requires z < TWO_64
  {
    if z % 2 == 1 then AsSigned(TWO_64 - 1 - z / 2, 8) else AsSigned(z / 2, 8)
  }

  const TWO_35: nat := 0x8_0000_0000

  /** `1 << (8 * n)`, for an n-byte integer. */
  function Range(n: nat): nat {
    Pow2(8 * n)
  }

  /** Reading the low `n` bytes of `v` as a two's complement integer. */
  function AsSigned(v: int, n: nat): int {
    var u := v % Range(n);
    if 2 * u >= Range(n) then u - Range(n) else u
  }

  /** Reading the low `n` bytes of `v` as an unsigned integer. */
  function AsUnsigned(v: int, n: nat): nat {
    v % Range(n)
  }

  /** The `n` bytes of `v`, least significant first. */
  function LittleEndian(v: nat, n: nat): (r: seq<byte>)
    ensures |r| == n
  {
    if n == 0 then [] else [v % 0x100] + LittleEndian(v / 0x100, n - 1)
  }

  /** The shifts of pb_decode_fixed32 and pb_decode_fixed64; the or-ed bits are disjoint. */
  function FromLittleEndian(s: seq<byte>): nat {
    if s == [] then 0 else s[0] + 0x100 * FromLittleEndian(s[1..])
  }

  // Varints.

  /** The first byte of an encoding, and what follows it. */
  lemma EncHead(v: nat, t: seq<byte>)
    ensures var s := EncVarint(v) + t;
      && s != []
      && s[0] == (if v < 0x80 then v else v % 0x80 + 0x80)
      && s[0] % 0x80 == v % 0x80
      && s[1..] == (if v < 0x80 then t else EncVarint(v / 0x80) + t)
  {
    var s := EncVarint(v) + t;
    assert s[1..] == EncVarint(v)[1..] + t;
  }

  lemma {:induction false} EncVarintLength(v: nat, n: nat)
    requires 1 <= n && v < Pow2(7 * n)
    ensures |EncVarint(v)| <= n
  {
    Pow2Of7();
    Pow2Add(7, 7 * (n - 1));
    if v >= 0x80 {
      EncVarintLength(v / 0x80, n - 1);
    }
  }

  lemma EncVarintAtMostTen(v: nat)
    requires v < TWO_64
    ensures 1 <= |EncVarint(v)| <= 10
  {
    Pow2Of64();
    Pow2Mono(64, 70);
    EncVarintLength(v, 10);
  }

  lemma SplitGroup(v: nat, p: nat)
    ensures v * p == v % 0x80 * p + v / 0x80 * (0x80 * p)
  {
    var lo, hi := v % 0x80, v / 0x80;
    assert v * p == (lo + hi * 0x80) * p;
    assert (lo + hi * 0x80) * p == lo * p + (hi * 0x80) * p;
    assert (hi * 0x80) * p == hi * (0x80 * p);
  }

  lemma MulAtLeast(a: nat, b: nat)
    ensures a >= 1 ==> b <= a * b
    ensures 0 <= a * b
  {
  }

  /** One step of a shift-and-or loop: the low seven bits of `v` go to `bitpos`, the rest above. */
  lemma GroupAt(v: nat, bitpos: nat)
    ensures v * Pow2(bitpos) == v % 0x80 * Pow2(bitpos) + v / 0x80 * Pow2(bitpos + 7)
    ensures v % 0x80 * Pow2(bitpos) <= v * Pow2(bitpos)
    ensures v >= 0x80 ==> Pow2(bitpos + 7) <= v * Pow2(bitpos)
  {
    hide Pow2;
    Pow2Of7();
    Pow2Add(7, bitpos);
    SplitGroup(v, Pow2(bitpos));
    MulAtLeast(v / 0x80, Pow2(bitpos + 7));
    MulAtLeast(v % 0x80, Pow2(bitpos));
  }

  lemma Below64(bitpos: nat)
    requires Pow2(bitpos) < TWO_64
    ensures bitpos < 64
  {
    Pow2Of64();
    if bitpos >= 64 { Pow2Mono(64, bitpos); }
  }

  /** The or of one more group into `acc`, when nothing is shifted out. */
  lemma GroupOr(v: nat, bitpos: nat, acc: nat)
    requires acc < Pow2(bitpos)
    requires v * Pow2(bitpos) < TWO_64
    ensures Or(acc, v % 0x80 * Pow2(bitpos) % TWO_64) == acc + v % 0x80 * Pow2(bitpos)
  {
    hide Or, Pow2;
    GroupAt(v, bitpos);
    MulAtLeast(v % 0x80, Pow2(bitpos));
    OrDisjoint(acc, v % 0x80, bitpos);
  }

  lemma {:induction false} DecVarintFromEnc(v: nat, bitpos: nat, acc: nat, total: nat, t: seq<byte>)
    requires bitpos < 64 && acc < Pow2(bitpos)
    requires v * Pow2(bitpos) < TWO_64
    requires total == acc + v * Pow2(bitpos)
    ensures DecVarintFrom(EncVarint(v) + t, bitpos, acc) == Some((total, t))
    decreases v
  {
    hide Or, Pow2, EncVarint;
    GroupOr(v, bitpos, acc);
    EncHead(v, t);
    if v < 0x80 {
      assert v % 0x80 == v;
    } else {
      NextGroup(v, bitpos, acc, total);
      DecVarintFromEnc(v / 0x80, bitpos + 7, acc + v % 0x80 * Pow2(bitpos), total, t);
    }
  }

  lemma NextGroup(v: nat, bitpos: nat, acc: nat, total: nat)
    requires 0x80 <= v && bitpos < 64 && acc < Pow2(bitpos)
    requires v * Pow2(bitpos) < TWO_64
    requires total == acc + v * Pow2(bitpos)
    ensures v % 0x80 * Pow2(bitpos) >= 0
    ensures acc + v % 0x80 * Pow2(bitpos) < Pow2(bitpos + 7)
    ensures v / 0x80 * Pow2(bitpos + 7) < TWO_64
    ensures total == acc + v % 0x80 * Pow2(bitpos) + v / 0x80 * Pow2(bitpos + 7)
    ensures bitpos + 7 < 64
  {
    hide Pow2;
    GroupAt(v, bitpos);
    MulAtLeast(v % 0x80, Pow2(bitpos));
    Below64(bitpos + 7);
    GroupBelow(v % 0x80, acc, bitpos);
  }

  lemma GroupBelow(lo: nat, acc: nat, bitpos: nat)
    requires lo < 0x80 && acc < Pow2(bitpos)
    ensures acc + lo * Pow2(bitpos) < Pow2(bitpos + 7)
  {
    var p := Pow2(bitpos);
    Pow2Of7();
    Pow2Add(7, bitpos);
    assert lo * p <= 0x7f * p;
  }

  /** pb_decode_varint inverts pb_encode_varint on every 64-bit value. */
  lemma VarintRoundTrip(v: nat, t: seq<byte>)
    requires v < TWO_64
    ensures DecVarint(EncVarint(v) + t) == Some((v, t))
  {
    DecVarintFromEnc(v, 0, 0, v, t);
  }

  /** Whether the bytes from bit 35 up, of the minimal encoding of a value whose bits from there are `u`, pass. */
  predicate High32Accepts(u: nat, bitpos: nat, signed: bool) {
    if u < 0x80 then u == 0 || (signed && u == (if bitpos < 63 then 0xFF else 0x01))
    else (u % 0x80 == 0 || (signed && u % 0x80 == 0x7f)) && High32Accepts(u / 0x80, bitpos + 7, signed)
  }

  /** Exactly when pb_decode_varint32 accepts the encoding of a 64-bit value. */
  predicate Varint32Accepts(v: nat) {
    v < TWO_32 || (v >= TWO_63 && High32Accepts(v / TWO_35, 35, v / TWO_31 % 2 == 1))
  }

  lemma Pow2Of1()
    ensures Pow2(1) == 2
  {
    assert Pow2(1) == 2 * Pow2(0);
  }

  lemma {:induction false} DecVarint32High(u: nat, bitpos: nat, acc: nat, t: seq<byte>)
    requires u > 0 && 35 <= bitpos <= 63 && bitpos % 7 == 0
    requires u < Pow2(64 - bitpos)
    requires acc < TWO_32
    ensures DecVarint32From(EncVarint(u) + t, bitpos, acc)
         == if High32Accepts(u, bitpos, acc / TWO_31 == 1) then Some((acc, t)) else None
    decreases u
  {
    hide Or, EncVarint, Pow2;
    EncHead(u, t);
    assert (bitpos + 7) % 0x100 == bitpos + 7;
    if u >= 0x80 {
      HighGroup(u, 64, bitpos);
      DecVarint32High(u / 0x80, bitpos + 7, acc, t);
    } else if bitpos == 63 {
      Pow2Of1();
    }
  }

  /** Dropping seven bits of a value of `n - bitpos` bits. */
  lemma HighGroup(u: nat, n: nat, bitpos: nat)
    requires bitpos <= n && 0x80 <= u < Pow2(n - bitpos)
    ensures bitpos + 7 <= n && u / 0x80 < Pow2(n - bitpos - 7)
  {
    Pow2Of7();
    if n - bitpos < 7 {
      Pow2Mono(n - bitpos, 7);
    } else {
      Pow2Add(7, n - bitpos - 7);
    }
  }

  lemma {:induction false} HighRejectsBelow63(u: nat, bitpos: nat, signed: bool)
    requires u > 0 && 35 <= bitpos <= 56 && bitpos % 7 == 0
    requires u < Pow2(63 - bitpos)
    ensures !High32Accepts(u, bitpos, signed)
    decreases u
  {
    if u >= 0x80 {
      Pow2Of7();
      if bitpos == 56 { assert false; }
      HighGroup(u, 63, bitpos);
      HighRejectsBelow63(u / 0x80, bitpos + 7, signed);
    }
  }

  lemma Pow2Of28()
    ensures Pow2(28) == 0x1000_0000 && Pow2(29) == 0x2000_0000
  {
    Pow2Of7();
    Pow2Add(7, 7);
    Pow2Add(14, 14);
    assert Pow2(29) == 2 * Pow2(28);
  }

  lemma OrAt28(lo: nat, acc: nat)
    requires lo < 0x80 && acc < 0x1000_0000
    ensures Or(acc, lo * Pow2(28) % TWO_32) == acc + lo % 0x10 * 0x1000_0000
  {
    Pow2Of28();
    assert lo * 0x1000_0000 % TWO_32 == lo % 0x10 * 0x1000_0000;
    OrDisjoint(acc, lo % 0x10, 28);
  }

  /** One byte below bit 32. */
  lemma DecVarint32Step(s: seq<byte>, bitpos: nat, acc: nat, acc': nat)
    requires s != [] && bitpos <= 28
    requires acc' == Or(acc, s[0] % 0x80 * Pow2(bitpos) % TWO_32)
    ensures DecVarint32From(s, bitpos, acc)
         == if s[0] >= 0x80 then DecVarint32From(s[1..], bitpos + 7, acc')
            else if bitpos == 28 && s[0] >= 0x10 then None
            else Some((acc', s[1..]))
  {
    hide Or, Pow2;
    assert (bitpos + 7) % 0x100 == bitpos + 7;
    if s[0] < 0x80 { assert s[0] / 0x10 % 8 == s[0] / 0x10; }
  }

  lemma DropGroup(v: nat)
    ensures v % 0x80 % 0x10 == v % 0x10
    ensures v < 0x80 ==> v % 0x80 == v
    ensures v < 0x10 ==> v % 0x10 == v
  {
    assert v == v / 0x80 * 0x80 + v % 0x80;
  }

  /** The fifth byte, at bit 28: four of its bits fit. */
  lemma DecVarint32At28(v: nat, acc: nat, t: seq<byte>)
    requires 0 < v && acc < 0x1000_0000
    ensures DecVarint32From(EncVarint(v) + t, 28, acc)
         == if v < 0x10 then Some((acc + v * 0x1000_0000, t))
            else if v < 0x80 then None
            else DecVarint32From(EncVarint(v / 0x80) + t, 35, acc + v % 0x10 * 0x1000_0000)
  {
    hide Or, Pow2, EncVarint, DecVarint32From;
    EncHead(v, t);
    OrAt28(v % 0x80, acc);
    DecVarint32Step(EncVarint(v) + t, 28, acc, acc + v % 0x80 % 0x10 * 0x1000_0000);
    DropGroup(v);
  }

  lemma Pow2Small(n: nat)
    requires n <= 28
    ensures Pow2(n) <= 0x1000_0000
  {
    Pow2Of28();
    Pow2Mono(n, 28);
  }

  lemma LowGroupOr(lo: nat, bitpos: nat, acc: nat)
    requires bitpos <= 21 && lo < 0x80 && acc < Pow2(bitpos)
    ensures Or(acc, lo * Pow2(bitpos) % TWO_32) == acc + lo * Pow2(bitpos)
    ensures acc + lo * Pow2(bitpos) < Pow2(bitpos + 7) <= 0x1000_0000
  {
    hide Or, Pow2;
    GroupBelow(lo, acc, bitpos);
    Pow2Small(bitpos + 7);
    MulAtLeast(lo, Pow2(bitpos));
    OrDisjoint(acc, lo, bitpos);
  }

  lemma QuotientAt28(v: nat, acc: nat, total: nat)
    requires acc < 0x1000_0000 && total == acc + v * 0x1000_0000
    ensures total / 0x1000_0000 == v && total % 0x1000_0000 == acc
  {
  }

  /** The bytes before bit 28 are shifted in whole. */
  lemma {:induction false} DecVarint32Low(v: nat, bitpos: nat, acc: nat, total: nat, t: seq<byte>)
    requires v > 0 && 7 <= bitpos <= 28 && bitpos % 7 == 0 && acc < Pow2(bitpos)
    requires total == acc + v * Pow2(bitpos)
    ensures DecVarint32From(EncVarint(v) + t, bitpos, acc)
         == if total < 0x1000_0000 then Some((total, t))
            else DecVarint32From(EncVarint(total / 0x1000_0000) + t, 28, total % 0x1000_0000)
    decreases 28 - bitpos
  {
    hide Or, Pow2, EncVarint, DecVarint32From;
    if bitpos == 28 {
      Pow2Of28();
      assert total / 0x1000_0000 == v && total % 0x1000_0000 == acc by { QuotientAt28(v, acc, total); }
    } else {
      var lo := v % 0x80;
      var acc' := acc + lo * Pow2(bitpos);
      EncHead(v, t);
      LowGroupOr(lo, bitpos, acc);
      GroupAt(v, bitpos);
      DecVarint32Step(EncVarint(v) + t, bitpos, acc, acc');
      if v >= 0x80 {
        DecVarint32Low(v / 0x80, bitpos + 7, acc', total, t);
      } else {
        assert v / 0x80 == 0;
      }
    }
  }

  lemma SplitAt28(v: nat, hi: nat)
    requires hi == v / 0x1000_0000
    ensures hi / 0x80 == v / TWO_35
    ensures hi < 0x10 <==> v < TWO_32
    ensures hi < 0x80 <==> v < TWO_35
    ensures v % 0x1000_0000 + hi % 0x10 * 0x1000_0000 == v % TWO_32
    ensures hi < 0x10 ==> v % 0x1000_0000 + hi * 0x1000_0000 == v
  {
  }

  /** Where the 32-bit reader gets to on the encoding of `v`. */
  lemma DecVarint32Upto35(v: nat, t: seq<byte>)
    ensures DecVarint32(EncVarint(v) + t)
         == if v < TWO_32 then Some((v, t))
            else if v < TWO_35 then None
            else DecVarint32From(EncVarint(v / TWO_35) + t, 35, v % TWO_32)
  {
    hide Or, Pow2, EncVarint, DecVarint32From;
    EncHead(v, t);
    if v < 0x80 {
      assert EncVarint(v) + t == [v] + t;
    } else {
      Pow2Of7();
      DecVarint32Low(v / 0x80, 7, v % 0x80, v, t);
      if v >= 0x1000_0000 {
        var hi := v / 0x1000_0000;
        DecVarint32At28(hi, v % 0x1000_0000, t);
        SplitAt28(v, hi);
      }
    }
  }

  /**
    pb_decode_varint32 on the encoding of any 64-bit value: it returns the low 32 bits when
    Varint32Accepts holds and fails otherwise.
   */
  lemma Varint32OfEncoding(v: nat, t: seq<byte>)
    requires v < TWO_64
    ensures DecVarint32(EncVarint(v) + t) == if Varint32Accepts(v) then Some((v % TWO_32, t)) else None
  {
    hide Or, Pow2, EncVarint, DecVarint32From, DecVarint32, High32Accepts;
    DecVarint32Upto35(v, t);
    if v >= TWO_35 {
      Pow2Of28();
      assert v % TWO_32 / TWO_31 == v / TWO_31 % 2;
      DecVarint32High(v / TWO_35, 35, v % TWO_32, t);
      if v < TWO_63 { HighRejectsBelow63(v / TWO_35, 35, v / TWO_31 % 2 == 1); }
    }
  }

  /** Any value whose bits 31 to 63 are all set is the sign extension of a negative int32. */
  lemma SignExtendedAccepted(v: nat)
    requires TWO_64 - TWO_31 <= v < TWO_64
    ensures Varint32Accepts(v)
  {
    assert High32Accepts(1, 63, true);
    assert High32Accepts(0xff, 56, true);
    assert High32Accepts(0x7fff, 49, true);
    assert High32Accepts(0x3f_ffff, 42, true);
    assert High32Accepts(0x1fff_ffff, 35, true);
    assert v / TWO_35 == 0x1fff_ffff;
  }

  /** The three ranges of the 32-bit reader: exact below 2^32, an error below 2^63, sign-extended int32. */
  lemma Varint32Ranges(v: nat, t: seq<byte>)
    requires v < TWO_64
    ensures v < TWO_32 ==> DecVarint32(EncVarint(v) + t) == Some((v, t))
    ensures TWO_32 <= v < TWO_63 ==> DecVarint32(EncVarint(v) + t) == None
    ensures TWO_64 - TWO_31 <= v ==> DecVarint32(EncVarint(v) + t) == Some((v % TWO_32, t))
  {
    hide Or, Pow2, DecVarint32From, EncVarint, High32Accepts, DecVarint32;
    Varint32OfEncoding(v, t);
    if TWO_64 - TWO_31 <= v { SignExtendedAccepted(v); }
  }

  // Zigzag.

  /** The zigzag order: 0, -1, 1, -2, 2, ... */
  lemma ZigZagOrder(v: int)
    requires -(TWO_63 as int) <= v < TWO_63
    ensures ZigZag(v) == if v < 0 then -2 * v - 1 else 2 * v
  {
    if v < 0 {
      assert v % TWO_64 == v + TWO_64;
      assert (v + TWO_64) * 2 == (2 * v + TWO_64) + TWO_64;
    }
  }

  lemma SignedOfSmall(u: int)
    requires -(TWO_63 as int) <= u < TWO_63
    ensures AsSigned(u, 8) == u && AsSigned(u + TWO_64, 8) == u
  {
    Pow2Of64();
    if u < 0 { assert u % TWO_64 == u + TWO_64; }
    assert (u + TWO_64) % TWO_64 == u % TWO_64;
  }

  /** pb_decode_svarint's mapping inverts pb_encode_svarint's. */
  lemma ZigZagRoundTrip(v: int)
    requires -(TWO_63 as int) <= v < TWO_63
    ensures ZigZag(v) < TWO_64
    ensures UnZigZag(ZigZag(v)) == v
  {
    hide AsSigned, ZigZag;
    ZigZagOrder(v);
    SignedOfSmall(v);
    var z := ZigZag(v);
    if v < 0 { assert z / 2 == -v - 1; } else { assert z / 2 == v; }
  }

  // Fixed-width integers.

  lemma {:induction false} LittleEndianRoundTrip(v: nat, n: nat)
    requires v < Range(n)
    ensures FromLittleEndian(LittleEndian(v, n)) == v
  {
    if n == 0 {
      assert Range(0) == 1;
    } else {
      assert Pow2(8) == 0x100;
      Pow2Add(8, 8 * (n - 1));
      LittleEndianRoundTrip(v / 0x100, n - 1);
      assert LittleEndian(v, n)[1..] == LittleEndian(v / 0x100, n - 1);
    }
  }
}
