/** How the primitives of pb_encode.c and pb_decode.c stand to the wire format. */
module WireReading {
  import opened Bits
  import opened Wire
  import opened Descriptors
  import opened EncodeSpec
  import opened DecodeSpec
  import opened WireFormat

  /** pb_encode_varint writes the number. */
  lemma {:induction false} EncVarintTaken(v: nat, t: seq<byte>)
    ensures TakeVarint(EncVarint(v) + t) == Some((v, t))
    decreases v
  {
    hide EncVarint;
    EncHead(v, t);
    if v >= 0x80 { EncVarintTaken(v / 0x80, t); }
  }

  // pb_decode_varint.

  lemma LastBit(lo: nat)
    ensures lo * TWO_63 % TWO_64 == lo % 2 * TWO_63
  {
    ModUnique(lo * TWO_63, TWO_64, lo / 2, lo % 2 * TWO_63);
  }

  lemma Below(lo: nat, p: nat)
    requires lo < 0x80 && p > 0
    ensures lo * p < 0x80 * p
  {
  }

  lemma Shifted(lo: nat, bitpos: nat)
    requires lo < 0x80 && bitpos < 64 && bitpos % 7 == 0
    ensures lo * Pow2(bitpos) % TWO_64 == (if bitpos == 63 then lo % 2 else lo) * Pow2(bitpos)
  {
    hide Pow2;
    Pow2Of64();
    if bitpos == 63 {
      LastBit(lo);
    } else {
      Pow2Of7();
      Pow2Add(7, bitpos);
      Pow2Mono(bitpos + 7, 63);
      Below(lo, Pow2(bitpos));
    }
  }

  lemma LastGroup(lo: nat, acc: nat)
    requires lo < 0x80 && acc < TWO_63
    ensures (acc + lo * TWO_63) % TWO_64 == acc + lo % 2 * TWO_63
  {
  }

  lemma OrGroup(lo: nat, bitpos: nat, acc: nat)
    requires lo < 0x80 && bitpos < 64 && bitpos % 7 == 0 && acc < Pow2(bitpos)
    ensures var acc' := Or(acc, lo * Pow2(bitpos) % TWO_64);
      && acc' == (acc + lo * Pow2(bitpos)) % TWO_64
      && (bitpos < 63 ==> acc' == acc + lo * Pow2(bitpos) && acc' < Pow2(bitpos + 7))
  {
    hide Pow2, Or;
    Pow2Of64();
    Shifted(lo, bitpos);
    if bitpos == 63 {
      OrDisjoint(acc, lo % 2, 63);
      LastGroup(lo, acc);
    } else {
      OrDisjoint(acc, lo, bitpos);
      GroupBelow(lo, acc, bitpos);
      Pow2Mono(bitpos + 7, 63);
    }
  }

  /** A group and those above it. */
  lemma GroupsAdd(lo: nat, hi: nat, bitpos: nat)
    ensures (lo + 128 * hi) * Pow2(bitpos) == lo * Pow2(bitpos) + hi * Pow2(bitpos + 7)
  {
    hide Pow2;
    var p := Pow2(bitpos);
    Pow2Of7();
    Pow2Add(7, bitpos);
    assert (lo + 128 * hi) * p == lo * p + hi * (128 * p);
  }

  /** The low 64 bits of the number, if its varint ends before bit 64. */
  function LowBits(s: seq<byte>, bitpos: nat, acc: nat): Option<(nat, seq<byte>)> {
    var (n, rest) :- TakeVarint(s);
    if bitpos + 7 * (|s| - |rest| - 1) < 64 then Some(((acc + n * Pow2(bitpos)) % TWO_64, rest)) else None
  }

  lemma {:induction false} DecVarintFromTaken(s: seq<byte>, bitpos: nat, acc: nat)
    requires bitpos % 7 == 0 && (bitpos < 64 ==> acc < Pow2(bitpos))
    ensures DecVarintFrom(s, bitpos, acc) == LowBits(s, bitpos, acc)
    decreases |s|
  {
    hide Or, Pow2, LowBits, DecVarintFrom;
    if s == [] || bitpos >= 64 {
      LowBitsEnd(s, bitpos, acc);
    } else {
      var lo := s[0] % 0x80;
      var acc' := Or(acc, lo * Pow2(bitpos) % TWO_64);
      OrGroup(lo, bitpos, acc);
      DecVarintStep(s, bitpos, acc, acc');
      LowBitsStep(s, bitpos, acc, acc');
      if s[0] >= 0x80 { DecVarintFromTaken(s[1..], bitpos + 7, acc'); }
    }
  }

  lemma DecVarintStep(s: seq<byte>, bitpos: nat, acc: nat, acc': nat)
    requires s != [] && bitpos < 64 && acc' == Or(acc, s[0] % 0x80 * Pow2(bitpos) % TWO_64)
    ensures DecVarintFrom(s, bitpos, acc)
         == if s[0] >= 0x80 then DecVarintFrom(s[1..], bitpos + 7, acc') else Some((acc', s[1..]))
  {
    hide Or, Pow2;
  }

  lemma LowBitsEnd(s: seq<byte>, bitpos: nat, acc: nat)
    requires s == [] || bitpos >= 64
    ensures LowBits(s, bitpos, acc) == None == DecVarintFrom(s, bitpos, acc)
  {
    hide Pow2;
    TakenGrows(s);
  }

  lemma LowBitsStep(s: seq<byte>, bitpos: nat, acc: nat, acc': nat)
    requires s != [] && bitpos < 64 && bitpos % 7 == 0
    requires acc' == (acc + s[0] % 0x80 * Pow2(bitpos)) % TWO_64
    requires bitpos < 63 ==> acc' == acc + s[0] % 0x80 * Pow2(bitpos)
    ensures LowBits(s, bitpos, acc) == if s[0] >= 0x80 then LowBits(s[1..], bitpos + 7, acc') else Some((acc', s[1..]))
  {
    hide Pow2;
    if s[0] >= 0x80 && TakeVarint(s[1..]).Some? {
      GroupsAdd(s[0] % 0x80, TakeVarint(s[1..]).value.0, bitpos);
      TakenGrows(s[1..]);
    }
  }

  lemma TakenGrows(s: seq<byte>)
    ensures TakeVarint(s).Some? ==> |TakeVarint(s).value.1| < |s|
  {
  }

  /** pb_decode_varint reads any varint of at most ten bytes, minimal or not, and keeps its low 64 bits. */
  lemma DecVarintExactly(s: seq<byte>)
    ensures DecVarint(s) ==
      match TakeVarint(s)
      case None => None
      case Some((n, rest)) => if |s| - |rest| <= 10 then Some((n % 0x1_0000_0000_0000_0000, rest)) else None
  {
    hide DecVarintFrom;
    DecVarintFromTaken(s, 0, 0);
    assert Pow2(0) == 1;
  }

  // pb_decode_varint32.

  /** Bytes without bits change nothing, wherever they are shifted to. */
  lemma {:induction false} ZeroGroups(s: seq<byte>, bitpos: nat, acc: nat)
    requires TakeVarint(s).Some? && TakeVarint(s).value.0 == 0
    ensures DecVarint32From(s, bitpos, acc) == Some((acc, TakeVarint(s).value.1))
    decreases |s|
  {
    hide Pow2;
    assert s[0] % 0x80 == 0;
    if s[0] >= 0x80 { ZeroGroups(s[1..], (bitpos + 7) % 0x100, acc); }
  }

  lemma {:induction false} SmallGroups(s: seq<byte>, bitpos: nat, acc: nat)
    requires TakeVarint(s).Some? && 7 <= bitpos <= 35 && bitpos % 7 == 0 && acc < Pow2(bitpos)
    requires acc + TakeVarint(s).value.0 * Pow2(bitpos) < TWO_32
    ensures DecVarint32From(s, bitpos, acc)
         == Some((acc + TakeVarint(s).value.0 * Pow2(bitpos), TakeVarint(s).value.1))
    decreases |s|
  {
    hide Pow2, Or, DecVarint32From;
    var lo := s[0] % 0x80;
    if bitpos == 35 {
      NothingAbove(TakeVarint(s).value.0, acc);
      ZeroGroups(s, 35, acc);
    } else {
      var acc' := acc + lo * Pow2(bitpos);
      var hi := if s[0] < 0x80 then 0 else TakeVarint(s[1..]).value.0;
      SmallGroup(lo, hi, bitpos, acc);
      DecVarint32Step(s, bitpos, acc, acc');
      if s[0] >= 0x80 { SmallGroups(s[1..], bitpos + 7, acc'); }
    }
  }

  lemma NothingAbove(n: nat, acc: nat)
    requires acc + n * Pow2(35) < TWO_32
    ensures n == 0 && n * Pow2(35) == 0
  {
    hide Pow2;
    Pow2Of32();
    Pow2Mono(32, 35);
    if n > 0 { MulAtLeast(n, Pow2(35)); }
  }

  lemma NotNegative(a: nat, b: nat)
    ensures a * b >= 0
  {
  }

  lemma SmallMod(a: nat)
    requires a < TWO_32
    ensures a % TWO_32 == a
  {
  }

  /** One group below bit 32. */
  lemma SmallGroup(lo: nat, hi: nat, bitpos: nat, acc: nat)
    requires lo < 0x80 && 7 <= bitpos <= 28 && bitpos % 7 == 0 && acc < Pow2(bitpos)
    requires acc + (lo + 128 * hi) * Pow2(bitpos) < TWO_32
    ensures var acc' := acc + lo * Pow2(bitpos);
      && Or(acc, lo * Pow2(bitpos) % TWO_32) == acc' < Pow2(bitpos + 7)
      && acc + (lo + 128 * hi) * Pow2(bitpos) == acc' + hi * Pow2(bitpos + 7)
    ensures bitpos == 28 ==> lo < 0x10
  {
    hide Pow2, Or;
    var a := lo * Pow2(bitpos);
    var b := hi * Pow2(bitpos + 7);
    GroupsAdd(lo, hi, bitpos);
    NotNegative(hi, Pow2(bitpos + 7));
    assert acc + (a + b) < TWO_32;
    SmallMod(a);
    OrDisjoint(acc, lo, bitpos);
    GroupBelow(lo, acc, bitpos);
    if bitpos == 28 { Pow2Of28(); }
  }

  /** pb_decode_varint32 reads every number below 2^32, in however many bytes. */
  lemma DecVarint32Exactly(s: seq<byte>)
    requires TakeVarint(s).Some? && TakeVarint(s).value.0 < 0x1_0000_0000
    ensures DecVarint32(s) == TakeVarint(s)
  {
    hide DecVarint32From;
    if s[0] >= 0x80 {
      Pow2Of7();
      SmallGroups(s[1..], 7, s[0] % 0x80);
    }
  }

  /** And it never reads anything but a varint. */
  lemma {:induction false} DecVarint32FromTakes(s: seq<byte>, bitpos: nat, acc: nat)
    requires DecVarint32From(s, bitpos, acc).Some?
    ensures TakeVarint(s).Some? && TakeVarint(s).value.1 == DecVarint32From(s, bitpos, acc).value.1
    decreases |s|
  {
    hide Pow2, Or;
    if s[0] >= 0x80 {
      var acc' := if bitpos >= 32 then acc else Or(acc, s[0] % 0x80 * Pow2(bitpos) % TWO_32);
      DecVarint32FromTakes(s[1..], (bitpos + 7) % 0x100, acc');
    }
  }

  lemma DecVarint32Takes(s: seq<byte>)
    ensures DecVarint32(s).Some? ==> TakeVarint(s).Some? && TakeVarint(s).value.1 == DecVarint32(s).value.1
  {
    hide DecVarint32From;
    if DecVarint32(s).Some? && s[0] >= 0x80 { DecVarint32FromTakes(s[1..], 7, s[0] % 0x80); }
  }

  // Tags and skipping.

  /** pb_decode_tag, on every tag word below 2^32. */
  lemma DecTagExactly(s: seq<byte>)
    requires TakeVarint(s).Some? && TakeVarint(s).value.0 < 0x1_0000_0000
    ensures var (word, rest) := TakeVarint(s).value;
      DecTag(s) == if word == 0 then EndOfMessage(rest) else Tag(word / 8, word % 8, rest)
  {
    hide DecVarint32, TakeVarint;
    DecVarint32Exactly(s);
  }

  lemma {:induction false} SkipVarintExactly(s: seq<byte>)
    ensures SkipVarint(s) == match TakeVarint(s) case None => None case Some((_, rest)) => Some(rest)
  {
    if s != [] && s[0] >= 0x80 { SkipVarintExactly(s[1..]); }
  }

  /** The payload is not a string of 2^32 bytes or more. */
  predicate LengthOk(wireType: nat, s: seq<byte>) {
    wireType == 2 && TakeVarint(s).Some? ==> TakeVarint(s).value.0 < 0x1_0000_0000
  }

  /**
    pb_skip_field steps over exactly one payload: a varint of any length, eight bytes, a length
    and that many bytes, or four bytes, by wire type 0, 1, 2 or 5; it fails for every other type
    and for a payload that is cut off.
   */
  lemma SkipExactly(wireType: nat, s: seq<byte>)
    requires LengthOk(wireType, s)
    ensures SkipField(wireType, s) == match TakePayload(wireType, s) case None => None case Some((_, rest)) => Some(rest)
  {
    hide SkipVarint, DecVarint32, TakeVarint;
    if wireType == 0 { SkipVarintExactly(s); }
    if wireType == 2 {
      if TakeVarint(s).Some? { DecVarint32Exactly(s); } else { DecVarint32Takes(s); }
    }
  }
}
