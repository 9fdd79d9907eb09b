/**
  hm_fragment: an incoming handshake message whose bytes arrive in any order. The mask of
  d1_both.cc is a set of byte numbers.
 */
module Reassembly {
  import opened Bits
  import opened HandshakeFragment

  // Bits of a mask byte.

  /** Bitwise and. */
  function And(x: nat, y: nat): nat {
    if x == 0 || y == 0 then 0 else 2 * And(x / 2, y / 2) + (if x % 2 == 1 && y % 2 == 1 then 1 else 0)
  }

  lemma {:induction false} AndBits(x: nat, y: nat, k: nat)
    ensures HasBit(And(x, y), k) <==> HasBit(x, k) && HasBit(y, k)
    decreases k
  {
    if x == 0 || y == 0 {
      ZeroBits(k);
    } else if k > 0 {
      AndBits(x / 2, y / 2, k - 1);
    }
  }

  /** The complement of an `n`-bit word. */
  lemma {:induction false} NotBits(x: nat, n: nat, k: nat)
    requires x < Pow2(n) && k < n
    ensures HasBit(Pow2(n) - 1 - x, k) <==> !HasBit(x, k)
    decreases k
  {
    if k > 0 {
      assert (Pow2(n) - 1 - x) / 2 == Pow2(n - 1) - 1 - x / 2;
      NotBits(x / 2, n - 1, k - 1);
    }
  }

  /** `(1 << n) - 1` has the bits below `n`. */
  lemma OnesBits(n: nat, k: nat)
    ensures HasBit(Pow2(n) - 1, k) <==> k < n
  {
    hide Pow2, HasBit;
    if k < n { OnesHaveBits(n, k); } else { BelowPow2(Pow2(n) - 1, n, k); }
  }

  lemma {:induction false} BelowPow2(x: nat, n: nat, k: nat)
    requires x < Pow2(n) && n <= k
    ensures !HasBit(x, k)
    decreases k
  {
    if n == 0 { ZeroBits(k); } else { BelowPow2(x / 2, n - 1, k - 1); }
  }

  /** bit_range: bits `start`, inclusive, to `end`, exclusive. */
  function BitRange(start: nat, end: nat): byte {
    And(TWO_32 - 1 - (Pow2(start) - 1) % TWO_32, Pow2(end) - 1) % 0x100
  }

  lemma BitRangeBits(start: nat, end: nat, k: nat)
    requires start <= 8 && end <= 8 && k < 8
    ensures HasBit(BitRange(start, end), k) <==> start <= k < end
  {
    hide Pow2, HasBit, And;
    Pow2Of32();
    Pow2Mono(start, 31);
    var low, x := Pow2(start) - 1, And(TWO_32 - 1 - (Pow2(start) - 1), Pow2(end) - 1);
    assert Pow2(8) == 0x100 by { Pow2Of8(); }
    LowByteBits(x, k);
    AndBits(TWO_32 - 1 - low, Pow2(end) - 1, k);
    NotBits(low, 32, k);
    OnesBits(start, k);
    OnesBits(end, k);
  }

  lemma Pow2Of8()
    ensures Pow2(8) == 0x100
  {
  }

  lemma LowByteBits(x: nat, k: nat)
    requires k < 8
    ensures HasBit(x % 0x100, k) <==> HasBit(x, k)
  {
    Pow2Of8();
    TruncatedBits(x, 8, k);
  }

  /** A byte without bits from `r` on is the range below `r` exactly when it has all of it. */
  lemma RangeTest(w: byte, r: nat)
    requires r <= 8 && forall k: nat :: r <= k < 8 ==> !HasBit(w, k)
    ensures w == BitRange(0, r) <==> Full(w, r)
  {
    hide Pow2, HasBit, BitRange;
    forall k: nat | k < 8 ensures HasBit(BitRange(0, r), k) <==> k < r { BitRangeBits(0, r, k); }
    Pow2Of8();
    NoHighBits(w, r, 8);
    NoHighBits(BitRange(0, r), r, 8);
    AllOnes(w, r);
    AllOnes(BitRange(0, r), r);
  }

  lemma AllBits(w: byte)
    ensures w == 0xff <==> Full(w, 8)
  {
    Pow2Of8();
    AllOnes(w, 8);
  }

  // Masks.

  function MaskLength(msgLen: nat): nat {
    (msgLen + 7) / 8
  }

  /** Bit `b` of a mask. */
  predicate Marked(mask: seq<byte>, b: nat)
    requires b < 8 * |mask|
  {
    HasBit(mask[b / 8], b % 8)
  }

  /** The mask holds the byte numbers `marked`, all below `msgLen`. */
  ghost predicate Masks(mask: seq<byte>, msgLen: nat, marked: set<nat>) {
    && |mask| == MaskLength(msgLen)
    && (forall b :: b in marked ==> b < msgLen)
    && (forall b: nat :: b < 8 * |mask| ==> (Marked(mask, b) <==> b in marked))
  }

  /** The byte numbers from `start`, inclusive, to `end`, exclusive. */
  function Interval(start: nat, end: nat): (r: set<nat>)
    ensures forall b :: b in r <==> start <= b < end
  {
    if start >= end then {} else Interval(start, end - 1) + {end - 1}
  }

  ghost predicate Covers(marked: set<nat>, start: nat, end: nat) {
    forall b: nat :: start <= b < end ==> b in marked
  }

  /** Whole bytes all ones and the last bits a full range: the test at the end of dtls1_hm_fragment_mark. */
  predicate LooksComplete(mask: seq<byte>, msgLen: nat)
    requires |mask| == MaskLength(msgLen)
  {
    && (forall i :: 0 <= i < msgLen / 8 ==> mask[i] == 0xff)
    && (msgLen % 8 != 0 ==> mask[msgLen / 8] == BitRange(0, msgLen % 8))
  }

  lemma FullCovers(w: byte, marked: set<nat>, lo: nat, n: nat)
    requires n <= 8 && forall k: nat :: k < 8 ==> (HasBit(w, k) <==> lo + k in marked)
    ensures Full(w, n) <==> Covers(marked, lo, lo + n)
  {
    hide HasBit;
    if Full(w, n) {
      forall b: nat | lo <= b < lo + n ensures b in marked { assert HasBit(w, b - lo); }
    }
    if Covers(marked, lo, lo + n) {
      forall k: nat | k < n ensures HasBit(w, k) { assert lo + k in marked; }
    }
  }

  /** Byte `i` of the mask, compared with all ones or a range, tells whether its message bytes are marked. */
  lemma ByteComplete(mask: seq<byte>, msgLen: nat, marked: set<nat>, i: nat)
    requires Masks(mask, msgLen, marked) && i < |mask|
    ensures i < msgLen / 8 ==> (mask[i] == 0xff <==> Covers(marked, 8 * i, 8 * i + 8))
    ensures i == msgLen / 8 ==> (mask[i] == BitRange(0, msgLen % 8) <==> Covers(marked, 8 * i, msgLen))
  {
    hide HasBit, BitRange, Covers, Full;
    forall k: nat | k < 8
      ensures HasBit(mask[i], k) <==> 8 * i + k in marked
    {
      assert (8 * i + k) / 8 == i && (8 * i + k) % 8 == k;
      assert Marked(mask, 8 * i + k) <==> 8 * i + k in marked;
    }
    if i < msgLen / 8 {
      AllBits(mask[i]);
      FullCovers(mask[i], marked, 8 * i, 8);
    } else if i == msgLen / 8 {
      RangeTest(mask[i], msgLen % 8);
      FullCovers(mask[i], marked, 8 * i, msgLen % 8);
    }
  }

  lemma {:induction false} BytesComplete(mask: seq<byte>, msgLen: nat, marked: set<nat>, n: nat)
    requires Masks(mask, msgLen, marked) && n <= msgLen / 8
    ensures (forall i :: 0 <= i < n ==> mask[i] == 0xff) <==> Covers(marked, 0, 8 * n)
  {
    hide HasBit;
    if n > 0 {
      BytesComplete(mask, msgLen, marked, n - 1);
      ByteComplete(mask, msgLen, marked, n - 1);
    }
  }

  /** The completeness test of the mask is coverage of the message. */
  lemma LooksCompleteIff(mask: seq<byte>, msgLen: nat, marked: set<nat>)
    requires Masks(mask, msgLen, marked)
    ensures LooksComplete(mask, msgLen) <==> Covers(marked, 0, msgLen)
  {
    hide HasBit, BitRange;
    BytesComplete(mask, msgLen, marked, msgLen / 8);
    if msgLen % 8 != 0 {
      ByteComplete(mask, msgLen, marked, msgLen / 8);
      assert msgLen == 8 * (msgLen / 8) + msgLen % 8;
    }
  }

  /** What dtls1_hm_fragment_mark writes into the mask for a range within one byte, or over several. */
  ghost predicate Wrote(mask: seq<byte>, mask': seq<byte>, start: nat, end: nat)
    requires start <= end <= 8 * |mask| && |mask'| == |mask|
  {
    forall i :: 0 <= i < |mask| ==> mask'[i] == NewByte(mask, start, end, i)
  }

  function NewByte(mask: seq<byte>, start: nat, end: nat, i: nat): nat
    requires start <= end <= 8 * |mask| && i < |mask|
  {
    if start / 8 == end / 8 then (if i == start / 8 then Or(mask[i], BitRange(start % 8, end % 8)) else mask[i])
    else if i == start / 8 then Or(mask[i], BitRange(start % 8, 8))
    else if start / 8 < i < end / 8 then 0xff
    else if i == end / 8 && end % 8 != 0 then Or(mask[i], BitRange(0, end % 8))
    else mask[i]
  }

  /** Exactly the bytes of the range are newly marked. */
  lemma WroteMarks(mask: seq<byte>, mask': seq<byte>, start: nat, end: nat, b: nat)
    requires start < end <= 8 * |mask| && |mask'| == |mask| && b < 8 * |mask| && Wrote(mask, mask', start, end)
    ensures Marked(mask', b) <==> Marked(mask, b) || start <= b < end
  {
    hide HasBit, BitRange, Or;
    var i, k := b / 8, b % 8;
    assert mask'[i] == NewByte(mask, start, end, i);
    if start / 8 == end / 8 {
      if i == start / 8 { OrByte(mask[i], start % 8, end % 8, k); }
    } else if i == start / 8 {
      OrByte(mask[i], start % 8, 8, k);
    } else if start / 8 < i < end / 8 {
      AllBits(mask'[i]);
      assert HasBit(mask'[i], k);
    } else if i == end / 8 && end % 8 != 0 {
      OrByte(mask[i], 0, end % 8, k);
    }
  }

  lemma OrByte(m: byte, lo: nat, hi: nat, k: nat)
    requires lo <= 8 && hi <= 8 && k < 8
    ensures HasBit(Or(m, BitRange(lo, hi)), k) <==> HasBit(m, k) || lo <= k < hi
  {
    hide HasBit, BitRange, Or;
    OrBits(m, BitRange(lo, hi), k);
    BitRangeBits(lo, hi, k);
  }

  lemma OrIsByte(m: byte, lo: nat, hi: nat)
    ensures Or(m, BitRange(lo, hi)) < 0x100
  {
    hide BitRange, Or;
    Pow2Of8();
    OrBound(m, BitRange(lo, hi), 8);
  }

  lemma WroteMasks(mask: seq<byte>, mask': seq<byte>, msgLen: nat, marked: set<nat>, start: nat, end: nat)
    requires Masks(mask, msgLen, marked) && start < end <= msgLen
    requires |mask'| == |mask| && Wrote(mask, mask', start, end)
    ensures Masks(mask', msgLen, marked + Interval(start, end))
  {
    hide HasBit, Wrote;
    forall b: nat | b < 8 * |mask|
      ensures Marked(mask', b) <==> b in marked + Interval(start, end)
    {
      WroteMarks(mask, mask', start, end, b);
    }
  }

  /** hm_fragment. */
  class HmFragment {
    const mtype: byte
    const seqNum: nat
    const msgLen: nat
    const data: array<byte>
    var reassembly: array?<byte>      // null once the message is complete
    ghost var marked: set<nat>        // the bytes that have arrived

    ghost predicate Valid()
      reads this, data, reassembly
    {
      && data.Length == HM_HEADER_LENGTH + msgLen
      && data != reassembly
      && (forall b :: b in marked ==> b < msgLen)
      && (reassembly == null <==> Covers(marked, 0, msgLen))
      && (reassembly != null ==> Masks(reassembly[..], msgLen, marked))
    }

    /** dtls1_hm_fragment_new. */
    constructor (h: HmHeader)
      ensures Valid() && marked == {} && fresh(data) && (reassembly != null ==> fresh(reassembly))
      ensures mtype == h.mtype && seqNum == h.seqNum && msgLen == h.msgLen
      ensures data[..] == PutHeader(HmHeader(h.mtype, h.msgLen, h.seqNum, 0, h.msgLen)) + seq(h.msgLen, _ => 0)
    {
      mtype, seqNum, msgLen, marked := h.mtype, h.seqNum, h.msgLen, {};
      var header := PutHeader(HmHeader(h.mtype, h.msgLen, h.seqNum, 0, h.msgLen));
      data := new byte[HM_HEADER_LENGTH + h.msgLen](i => if 0 <= i < HM_HEADER_LENGTH then header[i] else 0);
      reassembly := null;
      new;
      if msgLen > 0 {
        reassembly := new byte[MaskLength(msgLen)](i => 0);
        assert 0 !in marked;
        forall b: nat | b < 8 * reassembly.Length ensures !Marked(reassembly[..], b) { ZeroBits(b % 8); }
      }
    }

    /** The writes of dtls1_hm_fragment_mark, lines 224 to 235. */
    method WriteRange(start: nat, end: nat)
      requires Valid() && reassembly != null && start < end <= msgLen
      modifies reassembly
      ensures Wrote(old(reassembly[..]), reassembly[..], start, end)
    {
      hide HasBit, BitRange, Or, Masks;
      assert reassembly.Length == MaskLength(msgLen) by { MaskSize(); }
      if start / 8 == end / 8 {
        OrIsByte(reassembly[start / 8], start % 8, end % 8);
        reassembly[start / 8] := Or(reassembly[start / 8], BitRange(start % 8, end % 8));
      } else {
        OrIsByte(reassembly[start / 8], start % 8, 8);
        reassembly[start / 8] := Or(reassembly[start / 8], BitRange(start % 8, 8));
        for i := start / 8 + 1 to end / 8
          invariant forall j :: 0 <= j < reassembly.Length ==>
            reassembly[j] == if start / 8 < j < i then 0xff
                             else if j == start / 8 then Or(old(reassembly[j]), BitRange(start % 8, 8))
                             else old(reassembly[j])
        {
          reassembly[i] := 0xff;
        }
        if end % 8 != 0 {
          OrIsByte(reassembly[end / 8], 0, end % 8);
          reassembly[end / 8] := Or(reassembly[end / 8], BitRange(0, end % 8));
        }
      }
    }

    lemma MaskSize()
      requires Valid() && reassembly != null
      ensures reassembly.Length == MaskLength(msgLen)
    {
    }

    /** dtls1_hm_fragment_mark; the range is ignored unless it lies in a message still being assembled. */
    method Mark(start: nat, end: nat)
      requires Valid()
      modifies this`reassembly, this`marked, reassembly
      ensures Valid() && (reassembly == null || reassembly == old(reassembly))
      ensures marked == if old(reassembly) == null || start > end || end > msgLen then old(marked)
                        else old(marked) + Interval(start, end)
    {
      hide HasBit, BitRange, Or, Wrote, Covers, Masks;
      if reassembly == null || start > end || end > msgLen {
        return;
      }
      if start == end {
        assert Interval(start, end) == {};
        return;
      }
      MaskSize();
      WriteRange(start, end);
      WroteMasks(old(reassembly[..]), reassembly[..], msgLen, marked, start, end);
      marked := marked + Interval(start, end);
      LooksCompleteIff(reassembly[..], msgLen, marked);
      for i := 0 to msgLen / 8
        invariant forall j :: 0 <= j < i ==> reassembly[j] == 0xff
      {
        if reassembly[i] != 0xff {
          return;
        }
      }
      if msgLen % 8 != 0 && reassembly[msgLen / 8] != BitRange(0, msgLen % 8) {
        return;
      }
      reassembly := null;
    }

    /** The copy of lines 432 to 435 into the message, and the mark. */
    method Receive(off: nat, body: seq<byte>)
      requires Valid() && reassembly != null && off + |body| <= msgLen
      modifies this`reassembly, this`marked, data, reassembly
      ensures Valid() && (reassembly == null || reassembly == old(reassembly))
      ensures marked == old(marked) + Interval(off, off + |body|)
      ensures data[..] == Patched(old(data[..]), HM_HEADER_LENGTH + off, body)
    {
      hide Covers, Masks;
      for k := 0 to |body|
        invariant Valid() && reassembly == old(reassembly) && marked == old(marked)
        invariant reassembly[..] == old(reassembly[..])
        invariant data[..] == Patched(old(data[..]), HM_HEADER_LENGTH + off, body[..k])
      {
        data[HM_HEADER_LENGTH + off + k] := body[k];
        PatchOne(old(data[..]), HM_HEADER_LENGTH + off, body, k);
      }
      assert body[..|body|] == body;
      Mark(off, off + |body|);
    }
  }

  /** `s` with `body` written at `at`. */
  function Patched(s: seq<byte>, at: nat, body: seq<byte>): (r: seq<byte>)
    requires at + |body| <= |s|
    ensures |r| == |s|
  {
    s[..at] + body + s[at + |body|..]
  }

  lemma PatchOne(s: seq<byte>, at: nat, body: seq<byte>, k: nat)
    requires k < |body| && at + |body| <= |s|
    ensures Patched(s, at, body[..k])[at + k := body[k]] == Patched(s, at, body[..k + 1])
  {
  }
}
