/** Big-endian numbers in byte strings: the readers of cbs.c and the writers of cbb.c. */
module ByteString {
  import opened Bits

  /** Two bytes, most significant first. */
  function U16(hi: byte, lo: byte): nat {
    0x100 * hi + lo
  }

  /** The number a big-endian byte string stands for: cbs_get_u, and to_u64_be on eight bytes. */
  function BigEndian(s: seq<byte>): nat {
    if s == [] then 0 else BigEndian(s[..|s| - 1]) * 0x100 + s[|s| - 1]
  }

  lemma {:induction false} BigEndianBound(s: seq<byte>)
    ensures BigEndian(s) < Pow2(8 * |s|)
  {
    if s != [] {
      BigEndianBound(s[..|s| - 1]);
      Pow2Add(8 * (|s| - 1), 8);
      assert Pow2(8) == TWO_8;
    }
  }

  lemma {:induction false} BigEndianSplit(a: seq<byte>, b: seq<byte>)
    ensures BigEndian(a + b) == BigEndian(a) * Pow2(8 * |b|) + BigEndian(b)
  {
    if b == [] {
      assert a + b == a;
    } else {
      var b' := b[..|b| - 1];
      assert (a + b)[..|a + b| - 1] == a + b';
      BigEndianSplit(a, b');
      Pow2Add(8 * |b'|, 8);
      assert Pow2(8) == TWO_8;
      assert BigEndian(a) * Pow2(8 * |b|) == BigEndian(a) * Pow2(8 * |b'|) * 0x100;
    }
  }

  /** Different byte strings are different numbers. */
  lemma {:induction false} BigEndianInjective(a: seq<byte>, b: seq<byte>)
    requires |a| == |b| && BigEndian(a) == BigEndian(b)
    ensures a == b
  {
    if a != [] {
      BigEndianInjective(a[..|a| - 1], b[..|b| - 1]);
      assert a == a[..|a| - 1] + [a[|a| - 1]] && b == b[..|b| - 1] + [b[|b| - 1]];
    }
  }

  /** cbb_add_u: the low `n` bytes of `v`. */
  function PutBig(v: nat, n: nat): (r: seq<byte>)
    ensures |r| == n
  {
    if n == 0 then [] else PutBig(v / 0x100, n - 1) + [v % 0x100]
  }

  lemma {:induction false} BigRoundTrip(v: nat, n: nat)
    requires v < Pow2(8 * n)
    ensures BigEndian(PutBig(v, n)) == v
  {
    if n > 0 {
      Pow2Add(8 * (n - 1), 8);
      assert Pow2(8) == TWO_8;
      BigRoundTrip(v / 0x100, n - 1);
      assert PutBig(v, n)[..n - 1] == PutBig(v / 0x100, n - 1);
    }
  }

  /** The number in the first `n` bytes, and the rest. */
  function GetBig(s: seq<byte>, n: nat): Option<(nat, seq<byte>)> {
    if |s| < n then None else Some((BigEndian(s[..n]), s[n..]))
  }

  lemma GetPutBig(v: nat, n: nat, t: seq<byte>)
    requires v < Pow2(8 * n)
    ensures GetBig(PutBig(v, n) + t, n) == Some((v, t))
  {
    hide Pow2, BigEndian;
    BigRoundTrip(v, n);
    var s := PutBig(v, n) + t;
    assert s[..n] == PutBig(v, n) && s[n..] == t;
  }

  function Concat(parts: seq<seq<byte>>): seq<byte> {
    if parts == [] then [] else parts[0] + Concat(parts[1..])
  }

  lemma {:induction false} ConcatMore(parts: seq<seq<byte>>, last: seq<byte>)
    ensures Concat(parts + [last]) == Concat(parts) + last
  {
    if parts == [] {
      assert parts + [last] == [last] && [last][1..] == [];
    } else {
      assert (parts + [last])[1..] == parts[1..] + [last];
      ConcatMore(parts[1..], last);
    }
  }
}
