/** Options, bytes and the few bit operations the C sources use, over unbounded integers. */
module Bits {
  /** An unsigned 8-bit byte. */
  type byte = x: int | 0 <= x < 0x100

  const TWO_8: nat := 0x100
  const TWO_16: nat := 0x1_0000
  const TWO_24: nat := 0x100_0000
  const TWO_31: nat := 0x8000_0000
  const TWO_32: nat := 0x1_0000_0000
  const TWO_63: nat := 0x8000_0000_0000_0000
  const TWO_64: nat := 0x1_0000_0000_0000_0000

  datatype Option<+T> = None | Some(value: T) {
    predicate IsFailure() { None? }
    function PropagateFailure<U>(): Option<U>
      requires None?
    {
      None
    }
    function Extract(): T
      requires Some?
    {
      value
    }
  }

  /** `1 << n`. */
  function Pow2(n: nat): (r: nat)
    ensures r > 0
  {
    if n == 0 then 1 else 2 * Pow2(n - 1)
  }

  /** Bitwise or. */
  function Or(x: nat, y: nat): nat {
    if x == 0 then y
    else if y == 0 then x
    else 2 * Or(x / 2, y / 2) + (if x % 2 == 1 || y % 2 == 1 then 1 else 0)
  }

  /** `x >> n`. */
  function Shr(x: nat, n: nat): nat {
    if n == 0 then x else Shr(x / 2, n - 1)
  }

  lemma {:induction false} Pow2Add(a: nat, b: nat)
    ensures Pow2(a + b) == Pow2(a) * Pow2(b)
  {
    if a > 0 {
      Pow2Add(a - 1, b);
      assert Pow2(a + b) == 2 * Pow2(a - 1 + b);
    }
  }

  lemma {:induction false} Pow2Mono(a: nat, b: nat)
    requires a <= b
    ensures Pow2(a) <= Pow2(b)
  {
    if a < b {
      Pow2Mono(a, b - 1);
    }
  }

  /** Or-ing a value shifted to `k` into a value below `1 << k` is addition. */
  lemma {:induction false} OrDisjoint(x: nat, y: nat, k: nat)
    requires x < Pow2(k)
    ensures Or(x, y * Pow2(k)) == x + y * Pow2(k)
  {
    var p := Pow2(k);
    if x != 0 && y * p != 0 {
      var h := Pow2(k - 1);
      assert p == 2 * h;
      assert y * p == 2 * (y * h);
      OrDisjoint(x / 2, y, k - 1);
    }
  }

  lemma {:induction false} OrBound(x: nat, y: nat, k: nat)
    requires x < Pow2(k) && y < Pow2(k)
    ensures Or(x, y) < Pow2(k)
  {
    if x != 0 && y != 0 {
      OrBound(x / 2, y / 2, k - 1);
    }
  }

  /** Bit `k` of `x`. */
  predicate HasBit(x: nat, k: nat) {
    if k == 0 then x % 2 == 1 else HasBit(x / 2, k - 1)
  }

  lemma {:induction false} OrBits(x: nat, y: nat, k: nat)
    ensures HasBit(Or(x, y), k) <==> HasBit(x, k) || HasBit(y, k)
    decreases k
  {
    if x == 0 {
      ZeroBits(k);
    } else if y == 0 {
      ZeroBits(k);
    } else if k > 0 {
      OrBits(x / 2, y / 2, k - 1);
    }
  }

  lemma {:induction false} ZeroBits(k: nat)
    ensures !HasBit(0, k)
  {
    if k > 0 { ZeroBits(k - 1); }
  }

  lemma {:induction false} Pow2Bits(n: nat, k: nat)
    ensures HasBit(Pow2(n), k) <==> k == n
  {
    if k == 0 {
    } else if n == 0 {
      ZeroBits(k - 1);
    } else {
      assert Pow2(n) / 2 == Pow2(n - 1);
      Pow2Bits(n - 1, k - 1);
    }
  }

  /** Bits 0 to `n` of `x` are set. */
  ghost predicate Full(x: nat, n: nat) {
    forall k: nat :: k < n ==> HasBit(x, k)
  }

  lemma {:induction false} OnesHaveBits(n: nat, k: nat)
    requires k < n
    ensures HasBit(Pow2(n) - 1, k)
  {
    assert (Pow2(n) - 1) / 2 == Pow2(n - 1) - 1;
    if k > 0 { OnesHaveBits(n - 1, k - 1); }
  }

  lemma {:induction false} BitsAreOnes(x: nat, n: nat)
    requires x < Pow2(n) && Full(x, n)
    ensures x == Pow2(n) - 1
  {
    if n > 0 {
      assert HasBit(x, 0);
      forall k: nat | k < n - 1
        ensures HasBit(x / 2, k)
      {
        assert HasBit(x, k + 1);
      }
      BitsAreOnes(x / 2, n - 1);
    }
  }

  /** A word of `n` bits is all ones exactly when it has each of its bits. */
  lemma AllOnes(x: nat, n: nat)
    requires x < Pow2(n)
    ensures x == Pow2(n) - 1 <==> Full(x, n)
  {
    hide Pow2, HasBit;
    if x == Pow2(n) - 1 {
      forall k: nat | k < n ensures HasBit(x, k) { OnesHaveBits(n, k); }
    } else if Full(x, n) {
      BitsAreOnes(x, n);
    }
  }

  /** A word without bits from `r` on is below `1 << r`. */
  lemma {:induction false} NoHighBits(x: nat, r: nat, n: nat)
    requires x < Pow2(n) && forall k: nat :: r <= k < n ==> !HasBit(x, k)
    ensures x < Pow2(r)
  {
    if n == 0 {
    } else if r == 0 {
      assert !HasBit(x, 0);
      forall k: nat | 0 <= k < n - 1
        ensures !HasBit(x / 2, k)
      {
        assert !HasBit(x, k + 1);
      }
      NoHighBits(x / 2, 0, n - 1);
    } else {
      forall k: nat | r - 1 <= k < n - 1
        ensures !HasBit(x / 2, k)
      {
        assert !HasBit(x, k + 1);
      }
      NoHighBits(x / 2, r - 1, n - 1);
    }
  }

  // Bits of a shifted word.

  lemma {:induction false} ShiftedBits(x: nat, k: nat, i: nat)
    ensures HasBit(x * Pow2(k), i) <==> k <= i && HasBit(x, i - k)
    decreases k
  {
    if k > 0 {
      var y := x * Pow2(k - 1);
      assert x * Pow2(k) == 2 * y;
      if i > 0 { ShiftedBits(x, k - 1, i - 1); }
    }
  }

  lemma {:induction false} TruncatedBits(x: nat, n: nat, i: nat)
    requires i < n
    ensures HasBit(x % Pow2(n), i) <==> HasBit(x, i)
    decreases i
  {
    var h := Pow2(n - 1);
    HalfMod(x, h);
    if i > 0 { TruncatedBits(x / 2, n - 1, i - 1); }
  }

  lemma HalfMod(x: nat, h: nat)
    requires h > 0
    ensures x % (2 * h) / 2 == x / 2 % h && x % (2 * h) % 2 == x % 2
  {
    var q, r := x / (2 * h), x % (2 * h);
    assert x == 2 * (h * q) + r by { assert 2 * h * q == 2 * (h * q); }
    assert x / 2 == h * q + r / 2;
    ModUnique(x / 2, h, q, r / 2);
  }

  lemma ModUnique(x: nat, h: nat, q: nat, r: nat)
    requires x == h * q + r && r < h
    ensures x % h == r
  {
    var d := x / h - q;
    assert h * d == r - x % h by { assert h * (x / h) == h * q + h * d; }
    Multiple(h, d);
  }

  lemma Multiple(h: nat, d: int)
    ensures d >= 1 ==> h * d >= h
    ensures d <= -1 ==> h * d <= -(h as int)
  {
  }

  lemma Pow2Of7()
    ensures Pow2(7) == 0x80
  {
  }

  lemma Pow2Of16()
    ensures Pow2(16) == TWO_16
  {
    assert Pow2(8) == TWO_8;
    Pow2Add(8, 8);
  }

  lemma Pow2Of24()
    ensures Pow2(24) == TWO_24 && Pow2(16) == TWO_16 && Pow2(8) == TWO_8
  {
    Pow2Of16();
    assert Pow2(8) == TWO_8;
    Pow2Add(16, 8);
  }

  lemma Pow2Of32()
    ensures Pow2(32) == TWO_32 && Pow2(31) == TWO_31
  {
    Pow2Of16();
    Pow2Add(16, 16);
  }

  lemma Pow2Of64()
    ensures Pow2(64) == TWO_64 && Pow2(63) == TWO_63
  {
    Pow2Of32();
    Pow2Add(32, 32);
  }
}
