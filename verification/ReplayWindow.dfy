/**
  The DTLS replay window (section 4.1.2.6 of RFC 6347): dtls1_bitmap_should_discard,
  dtls1_bitmap_record and the accept path of dtls_open_record, with the epoch changes of
  dtls1_set_read_state.
 */
module ReplayWindow {
  import opened Bits
  import opened ByteString

  const WINDOW: nat := 64
  const TWO_48: nat := 0x1_0000_0000_0000
  const HEADER_LENGTH: nat := 13         // DTLS1_RT_HEADER_LENGTH
  const MAX_ENCRYPTED_LENGTH: nat := 16704
  const MAX_PLAIN_LENGTH: nat := 16384
  const VERSION_MAJOR: nat := 0xfe
  const RT_ALERT: byte := 21

  /** `mask <<= shift` on 64 bits moves every bit up and drops the top ones. */
  lemma SlideBits(mask: nat, shift: nat, i: nat)
    requires i < WINDOW
    ensures HasBit(mask * Pow2(shift) % Pow2(64), i) <==> shift <= i && HasBit(mask, i - shift)
  {
    hide Pow2, HasBit;
    TruncatedBits(mask * Pow2(shift), 64, i);
    ShiftedBits(mask, shift, i);
  }

  // Sequence numbers.

  /** The epoch is the top 16 bits of the record's sequence number. */
  lemma EpochOf(s: seq<byte>)
    requires |s| == 8
    ensures BigEndian(s) < TWO_64 && BigEndian(s) / TWO_48 == U16(s[0], s[1])
  {
    hide Pow2;
    BigEndianBound(s);
    Pow2Of64();
    var hi, lo := s[..2], s[2..];
    assert s == hi + lo;
    BigEndianSplit(hi, lo);
    BigEndianBound(lo);
    Pow2Of48();
    assert BigEndian(hi) == U16(s[0], s[1]) by {
      assert hi[..1][..0] == [] && BigEndian(hi[..1]) == s[0];
    }
  }

  lemma Pow2Of48()
    ensures Pow2(48) == TWO_48
  {
    Pow2Of32();
    Pow2Of16();
    Pow2Add(32, 16);
  }

  /** to_u64_be. */
  method ToU64(s: seq<byte>) returns (r: nat)
    ensures r == BigEndian(s)
  {
    r := 0;
    for i := 0 to |s|
      invariant r == BigEndian(s[..i])
    {
      assert s[..i + 1][..i] == s[..i];
      r := r * 0x100 + s[i];
    }
    assert s[..|s|] == s;
  }

  /** An accepted record: its number, and how many epoch changes came before it. */
  datatype Accepted = Accepted(seqNum: nat, changes: nat)

  /** A number is accepted twice only with 2^16 epoch changes or more in between. */
  ghost predicate NoReplay(log: seq<Accepted>) {
    forall a, b :: 0 <= a < b < |log| && log[a].seqNum == log[b].seqNum ==> log[b].changes - log[a].changes >= TWO_16
  }

  datatype OpenResult = Partial | CloseNotify | Discard | Error | AlertRecord | Success(rtype: byte, plain: seq<byte>)

  /** The AEAD's answer for the record at hand, and the version it demands. */
  datatype Cipher = Cipher(isNull: bool, version: nat, plaintext: Option<seq<byte>>)

  /** A record header that parses: its type, version, number and body length. */
  predicate Parses(packet: seq<byte>) {
    && |packet| >= HEADER_LENGTH
    && BodyLength(packet) <= |packet| - HEADER_LENGTH
    && BodyLength(packet) <= MAX_ENCRYPTED_LENGTH
  }

  function BodyLength(packet: seq<byte>): nat
    requires |packet| >= HEADER_LENGTH
  {
    U16(packet[11], packet[12])
  }

  predicate VersionOk(packet: seq<byte>, cipher: Cipher)
    requires |packet| >= HEADER_LENGTH
  {
    if cipher.isNull then packet[1] == VERSION_MAJOR else U16(packet[1], packet[2]) == cipher.version
  }

  /** The number `i` below `max` is in `seen`. */
  ghost predicate At(max: nat, seen: set<nat>, i: nat) {
    i <= max && max - i in seen
  }

  /** The low 64 bits of `mask` are the last 64 numbers up to `max`. */
  ghost predicate Mirrors(mask: nat, max: nat, seen: set<nat>) {
    mask < Pow2(64) && forall i: nat :: i < WINDOW ==> (HasBit(mask, i) <==> At(max, seen, i))
  }

  /** The bitmap stands for `seen`, all numbers recorded since it was cleared. */
  ghost predicate Window(mask: nat, max: nat, seen: set<nat>) {
    && Mirrors(mask, max, seen) && max < TWO_64
    && (forall n :: n in seen ==> n <= max)
    && (if seen == {} then max == 0 else max in seen)
  }

  /** `mask <<= shift`, or zero when the shift is as wide as the window. */
  function Slide(mask: nat, shift: nat): nat {
    if shift >= WINDOW then 0 else mask * Pow2(shift) % Pow2(64)
  }

  lemma SlideMirrors(mask: nat, max: nat, seen: set<nat>, s: nat)
    requires Mirrors(mask, max, seen) && max < s && forall n :: n in seen ==> n <= max
    ensures Mirrors(Slide(mask, s - max), s, seen)
  {
    hide Pow2, HasBit;
    var shift := s - max;
    forall i: nat | i < WINDOW
      ensures HasBit(Slide(mask, shift), i) <==> At(s, seen, i)
    {
      if shift >= WINDOW {
        ZeroBits(i);
      } else {
        SlideBits(mask, shift, i);
        if shift <= i { assert HasBit(mask, i - shift) <==> At(max, seen, i - shift); }
      }
    }
  }

  lemma MarkMirrors(mask: nat, max: nat, seen: set<nat>, idx: nat)
    requires Mirrors(mask, max, seen) && idx < WINDOW && idx <= max
    ensures Mirrors(Or(mask, Pow2(idx)), max, seen + {max - idx})
  {
    hide Pow2, HasBit, Or;
    Pow2Below(idx);
    OrBound(mask, Pow2(idx), 64);
    forall i: nat | i < WINDOW
      ensures HasBit(Or(mask, Pow2(idx)), i) <==> At(max, seen + {max - idx}, i)
    {
      OrBits(mask, Pow2(idx), i);
      Pow2Bits(idx, i);
      assert HasBit(mask, i) <==> At(max, seen, i);
    }
  }

  lemma Pow2Below(k: nat)
    requires k < 64
    ensures Pow2(k) < Pow2(64)
  {
    Pow2Mono(k, 63);
    assert Pow2(64) == 2 * Pow2(63);
  }

  /** What was accepted, when, and that `seen` remembers the current epoch's part of it. */
  ghost predicate LogOk(log: seq<Accepted>, changes: nat, seen: set<nat>) {
    && (forall n :: n in seen ==> n / TWO_48 == changes % TWO_16)
    && (forall a :: 0 <= a < |log| ==> log[a].changes <= changes && log[a].seqNum / TWO_48 == log[a].changes % TWO_16)
    && (forall a :: 0 <= a < |log| && log[a].changes == changes ==> log[a].seqNum in seen)
    && NoReplay(log)
  }

  lemma AcceptFresh(log: seq<Accepted>, changes: nat, seen: set<nat>, s: nat)
    requires LogOk(log, changes, seen) && s !in seen && s / TWO_48 == changes % TWO_16
    ensures LogOk(log + [Accepted(s, changes)], changes, seen + {s})
  {
    forall a | 0 <= a < |log| && log[a].seqNum == s
      ensures changes - log[a].changes >= TWO_16
    {
      SameEpoch(log[a].changes, changes);
    }
  }

  /** Equal 16-bit epochs are equal or a whole wrap apart. */
  lemma SameEpoch(c: nat, d: nat)
    requires c <= d && c % TWO_16 == d % TWO_16
    ensures c == d || d - c >= TWO_16
  {
  }

  lemma NewEpoch(log: seq<Accepted>, changes: nat, seen: set<nat>)
    requires LogOk(log, changes, seen)
    ensures LogOk(log, changes + 1, {})
  {
  }

  lemma EmptyWindow(mask: nat, max: nat)
    requires Window(mask, max, {})
    ensures max == 0
  {
  }

  /** The read half of a DTLS connection. */
  class ReadState {
    var rEpoch: nat
    var mask: nat
    var maxSeqNum: nat
    ghost var seen: set<nat>          // recorded since the last epoch change
    ghost var changes: nat            // epoch changes so far
    ghost var log: seq<Accepted>      // every record accepted

    ghost predicate Valid()
      reads this
    {
      && Window(mask, maxSeqNum, seen)
      && rEpoch == changes % TWO_16
      && LogOk(log, changes, seen)
    }

    /** At least 64 below the maximum. */
    ghost predicate Stale(s: nat)
      reads this
    {
      s + WINDOW <= maxSeqNum
    }

    constructor ()
      ensures Valid() && seen == {} && changes == 0 && log == []
    {
      rEpoch, mask, maxSeqNum := 0, 0, 0;
      seen, changes, log := {}, 0, [];
      new;
      forall i: nat | i < WINDOW ensures !HasBit(0, i) { ZeroBits(i); }
    }

    /** dtls1_bitmap_should_discard: recorded before, or stale. */
    method ShouldDiscard(s: nat) returns (discard: bool)
      requires Window(mask, maxSeqNum, seen)
      ensures discard <==> s in seen || Stale(s)
    {
      hide HasBit, Pow2;
      if s > maxSeqNum {
        return false;
      }
      var idx := maxSeqNum - s;
      discard := idx >= WINDOW || HasBit(mask, idx);
      assert idx < WINDOW ==> (HasBit(mask, idx) <==> At(maxSeqNum, seen, idx));
    }

    /** dtls1_bitmap_record; a stale number leaves no trace. */
    method Record(s: nat)
      requires Window(mask, maxSeqNum, seen) && s < TWO_64
      modifies this`mask, this`maxSeqNum, this`seen
      ensures Window(mask, maxSeqNum, seen)
      ensures seen == if old(Stale(s)) then old(seen) else old(seen) + {s}
    {
      hide HasBit, Pow2, Or, Slide, Mirrors;
      if s > maxSeqNum {
        SlideMirrors(mask, maxSeqNum, seen, s);
        mask := Slide(mask, s - maxSeqNum);
        maxSeqNum := s;
      }
      var idx := maxSeqNum - s;
      if idx < WINDOW {
        MarkMirrors(mask, maxSeqNum, seen, idx);
        mask := Or(mask, Pow2(idx));
        seen := seen + {s};
      }
    }

    /** dtls_open_record up to the dispatch on alerts. */
    method Open(packet: seq<byte>, readShutdown: bool, cipher: Cipher) returns (result: OpenResult, consumed: nat)
      requires Valid()
      modifies this
      ensures Valid() && changes == old(changes)
      ensures readShutdown ==> result == CloseNotify && consumed == 0
      ensures !readShutdown && packet == [] ==> result == Partial && consumed == 0
      ensures !readShutdown && packet != [] && (!Parses(packet) || !VersionOk(packet, cipher)) ==>
        result == Discard && consumed == |packet|
      ensures !readShutdown && Parses(packet) && VersionOk(packet, cipher) ==>
        && consumed == HEADER_LENGTH + BodyLength(packet)
        && result == Outcome(old(rEpoch), old(seen), old(maxSeqNum), packet, cipher)
      ensures Recorded(result) ==>
        && log == old(log) + [Accepted(BigEndian(packet[3..11]), changes)]
        && seen == old(seen) + {BigEndian(packet[3..11])}
      ensures !Recorded(result) ==> log == old(log) && seen == old(seen)
    {
      hide Window, BigEndian, LogOk;
      consumed := 0;
      if readShutdown {
        return CloseNotify, 0;
      }
      if packet == [] {
        return Partial, 0;
      }
      if |packet| < HEADER_LENGTH || |packet| - HEADER_LENGTH < BodyLength(packet)
         || BodyLength(packet) > MAX_ENCRYPTED_LENGTH {
        return Discard, |packet|;
      }
      if !VersionOk(packet, cipher) {
        return Discard, |packet|;
      }
      var sequence := packet[3..11];
      EpochOf(sequence);
      var epoch := U16(sequence[0], sequence[1]);
      var seqNum := ToU64(sequence);
      consumed := HEADER_LENGTH + BodyLength(packet);
      var replayed := ShouldDiscard(seqNum);
      if epoch != rEpoch || replayed || cipher.plaintext.None? {
        return Discard, consumed;
      }
      if |cipher.plaintext.value| > MAX_PLAIN_LENGTH {
        return Error, consumed;
      }
      Record(seqNum);
      AcceptFresh(log, changes, old(seen), seqNum);
      log := log + [Accepted(seqNum, changes)];
      result := if packet[0] == RT_ALERT then AlertRecord else Success(packet[0], cipher.plaintext.value);
    }

    /** dtls1_set_read_state; refused while handshake data of the current epoch is left over. */
    method SetReadState(leftover: bool) returns (ok: bool)
      requires Valid()
      modifies this
      ensures Valid() && ok == !leftover && log == old(log)
      ensures ok ==> changes == old(changes) + 1 && seen == {}
      ensures !ok ==> unchanged(this)
    {
      if leftover {
        return false;
      }
      ok := true;
      hide LogOk;
      NewEpoch(log, changes, seen);
      rEpoch := (rEpoch + 1) % TWO_16;
      mask, maxSeqNum := 0, 0;
      seen, changes := {}, changes + 1;
      forall i: nat | i < WINDOW ensures !HasBit(0, i) { ZeroBits(i); }
    }
  }

  predicate Recorded(result: OpenResult) {
    result.Success? || result.AlertRecord?
  }

  /** What becomes of a record that parses, given the numbers seen in the current epoch. */
  function Outcome(rEpoch: nat, seen: set<nat>, max: nat, packet: seq<byte>, cipher: Cipher): OpenResult
    requires Parses(packet)
  {
    var seqNum := BigEndian(packet[3..11]);
    if seqNum / TWO_48 != rEpoch || seqNum in seen || seqNum + WINDOW <= max || cipher.plaintext.None? then Discard
    else if |cipher.plaintext.value| > MAX_PLAIN_LENGTH then Error
    else if packet[0] == RT_ALERT then AlertRecord
    else Success(packet[0], cipher.plaintext.value)
  }

  /** The 16-bit epoch does wrap: after 2^16 changes an old record is accepted again. */
  method EpochWrapReplay(packet: seq<byte>, cipher: Cipher) returns (d: ReadState)
    requires Parses(packet) && VersionOk(packet, cipher) && packet[3] == 0 && packet[4] == 0
    requires cipher.plaintext.Some? && |cipher.plaintext.value| <= MAX_PLAIN_LENGTH
    ensures fresh(d) && d.Valid() && |d.log| == 2
    ensures d.log[0].seqNum == d.log[1].seqNum && d.log[1].changes - d.log[0].changes == TWO_16
  {
    hide Window, BigEndian, LogOk;
    d := new ReadState();
    EmptyWindow(d.mask, d.maxSeqNum);
    EpochOf(packet[3..11]);
    var first, n := d.Open(packet, false, cipher);
    for i := 0 to TWO_16
      invariant fresh(d) && d.Valid() && d.changes == i && (i > 0 ==> d.seen == {})
      invariant d.log == [Accepted(BigEndian(packet[3..11]), 0)]
    {
      var changed := d.SetReadState(false);
    }
    EmptyWindow(d.mask, d.maxSeqNum);
    var second, n' := d.Open(packet, false, cipher);
  }
}
