/** The fields_seen words of pb_decode_noinit as a set of required-field numbers. */
module FieldsSeen {
  import opened Bits
  import opened Descriptors

  lemma {:induction false} ShiftedOnes(r: nat, n: nat)
    ensures Shr(Pow2(r + n) - 1, n) == Pow2(r) - 1
  {
    if n > 0 {
      assert (Pow2(r + n) - 1) / 2 == Pow2(r + n - 1) - 1;
      ShiftedOnes(r, n - 1);
    }
  }

  /** Whether number `n` is marked. */
  predicate Marked(w0: nat, w1: nat, n: nat)
    requires n < 64
  {
    if n < 32 then HasBit(w0, n) else HasBit(w1, n - 32)
  }

  /** The two words hold exactly the numbers in `seen`. */
  ghost predicate Holds(w0: nat, w1: nat, seen: set<nat>) {
    && w0 < Pow2(32) && w1 < Pow2(32)
    && (forall n :: n in seen ==> n < 64)
    && (forall n: nat :: n < 64 ==> (Marked(w0, w1, n) <==> n in seen))
  }

  lemma HoldsNothing()
    ensures Holds(0, 0, {})
  {
    forall n: nat | n < 64 ensures !Marked(0, 0, n) { ZeroBits(if n < 32 then n else n - 32); }
  }

  /** Setting a bit adds a number. */
  lemma HoldsOneMore(w0: nat, w1: nat, seen: set<nat>, n: nat)
    requires Holds(w0, w1, seen) && n < 64
    ensures n < 32 ==> Holds(Or(w0, Pow2(n)), w1, seen + {n})
    ensures n >= 32 ==> Holds(w0, Or(w1, Pow2(n - 32)), seen + {n})
  {
    hide Pow2, Or, HasBit;
    var b, w := if n < 32 then n else n - 32, if n < 32 then w0 else w1;
    BitBelow(b);
    OrBound(w, Pow2(b), 32);
    forall k: nat | k < 32
      ensures HasBit(Or(w, Pow2(b)), k) <==> HasBit(w, k) || k == b
    {
      OrBits(w, Pow2(b), k);
      Pow2Bits(b, k);
    }
  }

  lemma BitBelow(b: nat)
    requires b < 32
    ensures Pow2(b) < Pow2(32)
  {
    Pow2Mono(b, 31);
    assert Pow2(32) == 2 * Pow2(31);
  }

  /** The test of lines 1027 to 1045: whole words against ~0, the rest against a mask. */
  predicate WordsComplete(w0: nat, w1: nat, count: nat)
    requires count <= 64
  {
    && (count / 32 >= 1 ==> w0 == TWO_32 - 1)
    && (count / 32 >= 2 ==> w1 == TWO_32 - 1)
    && (count % 32 != 0 ==> (if count / 32 == 0 then w0 else w1) == Shr(TWO_32 - 1, 32 - count % 32))
  }

  ghost predicate UpTo(seen: set<nat>, count: nat) {
    forall k: nat :: k < count ==> k in seen
  }

  /** The word test is the set test. */
  lemma WordsAreSets(w0: nat, w1: nat, seen: set<nat>, count: nat)
    requires Holds(w0, w1, seen) && count <= 64
    requires forall k :: k in seen ==> k < count
    ensures WordsComplete(w0, w1, count) <==> UpTo(seen, count)
  {
    hide Pow2, HasBit, Shr;
    Pow2Of32();
    var c0, c1 := if count < 32 then count else 32, if count < 32 then 0 else count - 32;
    ShiftedOnes(count % 32, 32 - count % 32);
    forall k: nat | c0 <= k < 32 ensures !HasBit(w0, k) { assert !Marked(w0, w1, k); }
    forall k: nat | c1 <= k < 32 ensures !HasBit(w1, k) { assert !Marked(w0, w1, k + 32); }
    WordTest(w0, c0);
    WordTest(w1, c1);
    SplitMarks(w0, w1, seen, count, c0, c1);
  }

  /** A word without bits from `r` on, compared with a mask of `r` ones. */
  lemma WordTest(w: nat, r: nat)
    requires w < Pow2(32) && r <= 32 && forall k: nat :: r <= k < 32 ==> !HasBit(w, k)
    ensures w == Pow2(r) - 1 <==> Full(w, r)
  {
    hide Pow2, HasBit;
    NoHighBits(w, r, 32);
    AllOnes(w, r);
  }

  lemma SplitMarks(w0: nat, w1: nat, seen: set<nat>, count: nat, c0: nat, c1: nat)
    requires Holds(w0, w1, seen) && count == c0 + c1 && c0 <= 32 && c1 <= 32 && (c1 > 0 ==> c0 == 32)
    ensures UpTo(seen, count) <==> Full(w0, c0) && Full(w1, c1)
  {
    hide HasBit;
    if UpTo(seen, count) {
      forall k: nat | k < c0 ensures HasBit(w0, k) { assert Marked(w0, w1, k); }
      forall k: nat | k < c1 ensures HasBit(w1, k) { assert Marked(w0, w1, k + 32); }
    }
    if Full(w0, c0) && Full(w1, c1) {
      forall k: nat | k < count
        ensures k in seen
      {
        if k >= 32 { assert HasBit(w1, k - 32); }
        assert Marked(w0, w1, k);
      }
    }
  }
}
