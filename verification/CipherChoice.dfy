/** ssl3_choose_cipher: the server's pick between two preference lists, with equal-preference groups. */
module CipherChoice {
  import opened Bits

  datatype Cipher = Cipher(id: nat, minVersion: nat, maxVersion: nat, mkey: bv32, auth: bv32)

  /** What a cipher has to be compatible with. */
  datatype Setting = Setting(version: nat, maskK: bv32, maskA: bv32)

  predicate Compatible(c: Cipher, s: Setting) {
    && c.minVersion <= s.version <= c.maxVersion
    && Meet(c.mkey, s.maskK)
    && Meet(c.auth, s.maskA)
  }

  predicate Meet(a: bv32, b: bv32) {
    a & b != 0
  }

  /** A mask with one bit. */
  predicate IsOne(m: bv32) {
    m != 0 && m & (m - 1) == 0
  }

  predicate Has(mask: bv32, m: bv32) {
    mask & m != 0
  }

  /** Some algorithm is in both masks. */
  ghost predicate InCommon(a: bv32, b: bv32) {
    exists m: bv32 :: IsOne(m) && Has(a, m) && Has(b, m)
  }

  lemma LowestBit(a: bv32, b: bv32)
    requires a & b != 0
    ensures var m := (a & b) & (0 - (a & b)); IsOne(m) && Has(a, m) && Has(b, m)
  {
  }

  lemma SameBit(a: bv32, b: bv32, m: bv32)
    requires IsOne(m) && Has(a, m) && Has(b, m)
    ensures a & b != 0
  {
  }

  lemma CommonExactly(a: bv32, b: bv32)
    ensures Meet(a, b) <==> InCommon(a, b)
  {
    hide IsOne, Has;
    if Meet(a, b) { LowestBit(a, b); }
    if InCommon(a, b) {
      var m: bv32 :| IsOne(m) && Has(a, m) && Has(b, m);
      SameBit(a, b, m);
    }
  }

  /** A cipher will do exactly when the version is one of its own, and a key exchange and an authentication are on offer. */
  lemma CompatibleExactly(c: Cipher, s: Setting)
    ensures Compatible(c, s) <==>
      && c.minVersion <= s.version && s.version <= c.maxVersion
      && InCommon(c.mkey, s.maskK) && InCommon(c.auth, s.maskA)
  {
    hide InCommon, IsOne, Has, Meet;
    CommonExactly(c.mkey, s.maskK);
    CommonExactly(c.auth, s.maskA);
  }

  /** sk_SSL_CIPHER_find: the first place of `c`. */
  function IndexOf(list: seq<Cipher>, c: Cipher): (r: Option<nat>)
    ensures r.Some? <==> c in list
    ensures r.Some? ==> r.value < |list| && list[r.value] == c && c !in list[..r.value]
  {
    if list == [] then None
    else if list[0] == c then Some(0)
    else
      match IndexOf(list[1..], c)
      case None => None
      case Some(k) => assert list[..k + 1] == [list[0]] + list[1..][..k]; Some(k + 1)
  }

  predicate Eligible(prio: seq<Cipher>, allow: seq<Cipher>, s: Setting, i: nat) {
    i < |prio| && Compatible(prio[i], s) && prio[i] in allow
  }

  /** The place of eligible cipher `i` in the other list. */
  function Rank(prio: seq<Cipher>, allow: seq<Cipher>, s: Setting, i: nat): nat
    requires Eligible(prio, allow, s, i)
  {
    IndexOf(allow, prio[i]).value
  }

  /** No group ends between `i` and `j`. */
  ghost predicate SameGroup(flags: seq<nat>, i: nat, j: nat) {
    forall k :: i <= k < j || j <= k < i ==> k < |flags| && flags[k] == 1
  }

  /** The group of `i` has a last element. */
  ghost predicate Ends(flags: seq<nat>, i: nat) {
    exists k :: i <= k < |flags| && flags[k] == 0
  }

  /**
    `i` lies in the first group with an eligible cipher, and no eligible cipher of that group
    comes before it in the other list.
   */
  ghost predicate Best(prio: seq<Cipher>, allow: seq<Cipher>, flags: seq<nat>, s: Setting, i: nat) {
    && Eligible(prio, allow, s, i)
    && (forall j: nat :: j < i && Eligible(prio, allow, s, j) ==> SameGroup(flags, i, j))
    && (forall j: nat :: Eligible(prio, allow, s, j) && SameGroup(flags, i, j) ==>
          Rank(prio, allow, s, i) <= Rank(prio, allow, s, j))
  }

  /** One flag an element, 1 inside a group and 0 at its end. */
  predicate FlagsOk(flags: seq<nat>, n: nat) {
    |flags| == n && forall i :: 0 <= i < n ==> flags[i] <= 1
  }

  /** Without flags every element is a group of its own. */
  function Flags(inGroupFlags: Option<seq<nat>>, n: nat): (r: seq<nat>)
    ensures inGroupFlags.None? ==> |r| == n && forall i :: 0 <= i < n ==> r[i] == 0
  {
    if inGroupFlags.Some? then inGroupFlags.value else seq(n, _ => 0)
  }

  /**
    The loop of ssl3_choose_cipher. The result is the best cipher of all, and null exactly when
    every eligible cipher lies behind the end of the last group.
   */
  method Choose(prio: seq<Cipher>, allow: seq<Cipher>, inGroupFlags: Option<seq<nat>>, s: Setting) returns (r: Option<Cipher>)
    requires inGroupFlags.Some? ==> FlagsOk(inGroupFlags.value, |prio|)
    ensures r.Some? ==> exists i: nat :: Best(prio, allow, Flags(inGroupFlags, |prio|), s, i) && r.value == prio[i]
    ensures r.None? <==>
      forall i: nat :: Eligible(prio, allow, s, i) ==> !Ends(Flags(inGroupFlags, |prio|), i)
  {
    hide IndexOf, Compatible;
    ghost var flags := Flags(inGroupFlags, |prio|);
    var groupMin := -1;
    ghost var best := 0;
    for i := 0 to |prio|
      invariant inGroupFlags.None? ==> groupMin == -1
      invariant groupMin == -1 ==> forall j: nat :: j < i ==> !Eligible(prio, allow, s, j)
      invariant groupMin != -1 ==>
        && best < i && Eligible(prio, allow, s, best) && Rank(prio, allow, s, best) == groupMin
        && SameGroup(flags, best, i)
        && forall j: nat :: j < i && Eligible(prio, allow, s, j) ==>
             SameGroup(flags, j, i) && groupMin <= Rank(prio, allow, s, j)
    {
      if Compatible(prio[i], s) && IndexOf(allow, prio[i]).Some? {
        var cipherIndex := IndexOf(allow, prio[i]).value;
        assert Eligible(prio, allow, s, i);
        if inGroupFlags.Some? && inGroupFlags.value[i] == 1 {
          if groupMin == -1 || groupMin > cipherIndex {
            groupMin, best := cipherIndex, i;
          }
        } else {
          if groupMin == -1 || groupMin >= cipherIndex {
            best := i;
          }
          if groupMin != -1 && groupMin < cipherIndex {
            cipherIndex := groupMin;
          }
          GroupEnds(prio, allow, flags, s, best, i);
          return Some(allow[cipherIndex]);
        }
      }
      if inGroupFlags.Some? && inGroupFlags.value[i] == 0 && groupMin != -1 {
        GroupEnds(prio, allow, flags, s, best, i);
        return Some(allow[groupMin]);
      }
    }
    r := None;
    NoGroupEnds(prio, allow, flags, s, groupMin);
  }

  /** At the end of a group, the best of the eligible ciphers so far is the best of all. */
  lemma GroupEnds(prio: seq<Cipher>, allow: seq<Cipher>, flags: seq<nat>, s: Setting, best: nat, i: nat)
    requires i < |prio| == |flags| && flags[i] == 0
    requires best <= i && Eligible(prio, allow, s, best) && SameGroup(flags, best, i)
    requires forall j: nat :: j <= i && Eligible(prio, allow, s, j) ==>
      SameGroup(flags, j, i) && Rank(prio, allow, s, best) <= Rank(prio, allow, s, j)
    ensures Best(prio, allow, flags, s, best) && Ends(flags, best)
  {
    hide IndexOf, Compatible;
    forall j: nat | j < best && Eligible(prio, allow, s, j)
      ensures SameGroup(flags, best, j)
    {
      assert SameGroup(flags, j, i);
    }
    forall j: nat | Eligible(prio, allow, s, j) && SameGroup(flags, best, j)
      ensures Rank(prio, allow, s, best) <= Rank(prio, allow, s, j)
    {
      WithinGroup(flags, best, j, i);
    }
  }

  /** A group does not reach past its end. */
  lemma WithinGroup(flags: seq<nat>, best: nat, j: nat, i: nat)
    requires best <= i < |flags| && flags[i] == 0 && SameGroup(flags, best, j)
    ensures j <= i
  {
  }

  lemma NoGroupEnds(prio: seq<Cipher>, allow: seq<Cipher>, flags: seq<nat>, s: Setting, groupMin: int)
    requires |flags| == |prio|
    requires groupMin == -1 ==> forall j: nat :: j < |prio| ==> !Eligible(prio, allow, s, j)
    requires groupMin != -1 ==> forall j: nat :: j < |prio| && Eligible(prio, allow, s, j) ==> SameGroup(flags, j, |prio|)
    ensures forall i: nat :: Eligible(prio, allow, s, i) ==> !Ends(flags, i)
  {
    hide IndexOf, Compatible;
  }

  /** With the last flag 0, as the cipher list parser leaves it, null means that nothing was eligible. */
  lemma WellFormedEnds(prio: seq<Cipher>, flags: seq<nat>, i: nat)
    requires i < |prio| == |flags| && flags[|flags| - 1] == 0
    ensures Ends(flags, i)
  {
  }

  /** ssl3_choose_cipher: the server's order if it insists, the client's otherwise. */
  method ChooseCipher(client: Option<seq<Cipher>>, server: seq<Cipher>, inGroupFlags: Option<seq<nat>>,
                      serverPreference: bool, s: Setting)
      returns (r: Option<Cipher>)
    requires inGroupFlags.Some? ==> FlagsOk(inGroupFlags.value, |server|) && (server != [] ==> inGroupFlags.value[|server| - 1] == 0)
    ensures client.None? ==> r.None?
    ensures client.Some? && serverPreference ==>
      && (r.None? <==> forall i: nat :: !Eligible(server, client.value, s, i))
      && (r.Some? ==> exists i: nat :: Best(server, client.value, Flags(inGroupFlags, |server|), s, i) && r.value == server[i])
    ensures client.Some? && !serverPreference ==>
      && (r.None? <==> forall i: nat :: !Eligible(client.value, server, s, i))
      && (r.Some? ==> exists i: nat :: First(client.value, server, s, i) && r.value == client.value[i])
  {
    hide IndexOf, Compatible;
    if client.None? {
      return None;
    }
    if serverPreference {
      r := Choose(server, client.value, inGroupFlags, s);
      AllEnd(server, client.value, Flags(inGroupFlags, |server|), s);
    } else {
      r := Choose(client.value, server, None, s);
      AllEnd(client.value, server, Flags(None, |client.value|), s);
      if r.Some? {
        ghost var i: nat :| Best(client.value, server, Flags(None, |client.value|), s, i) && r.value == client.value[i];
        BestIsFirst(client.value, server, s, i);
      }
    }
  }

  lemma AllEnd(prio: seq<Cipher>, allow: seq<Cipher>, flags: seq<nat>, s: Setting)
    requires |flags| == |prio| && (prio != [] ==> flags[|prio| - 1] == 0)
    ensures forall i: nat :: Eligible(prio, allow, s, i) ==> Ends(flags, i)
  {
    forall i: nat | Eligible(prio, allow, s, i) ensures Ends(flags, i) { WellFormedEnds(prio, flags, i); }
  }

  /** `i` is the first eligible cipher. */
  ghost predicate First(prio: seq<Cipher>, allow: seq<Cipher>, s: Setting, i: nat) {
    Eligible(prio, allow, s, i) && forall j: nat :: j < i ==> !Eligible(prio, allow, s, j)
  }

  lemma BestIsFirst(prio: seq<Cipher>, allow: seq<Cipher>, s: Setting, i: nat)
    requires Best(prio, allow, Flags(None, |prio|), s, i)
    ensures First(prio, allow, s, i)
  {
    hide IndexOf, Compatible;
    forall j: nat | j < i ensures !SameGroup(Flags(None, |prio|), i, j) { Alone(|prio|, i, j); }
  }

  /** Without flags no two elements share a group. */
  lemma Alone(n: nat, i: nat, j: nat)
    requires j < i <= n
    ensures !SameGroup(Flags(None, n), i, j)
  {
    assert Flags(None, n)[j] == 0;
  }
}
