/** DTLS records byte by byte, section 4.1 of RFC 6347, and what becomes of each. */
module DtlsRecord {
  import opened Bits
  import opened ByteString
  import opened ReplayWindow

  /** A record: type, version, epoch and number, length, body. */
  function Record(rtype: byte, major: byte, minor: byte, sequence: seq<byte>, body: seq<byte>): seq<byte>
    requires |body| < 0x1_0000
  {
    [rtype, major, minor] + sequence + [|body| / 0x100, |body| % 0x100] + body
  }

  /** The first of eight bytes weighs most. */
  function Number(s: seq<byte>): nat
    requires |s| == 8
  {
    0x1_0000_0000_0000 * Epoch(s)
    + 0x100_0000_0000 * (s[2] as int) + 0x1_0000_0000 * (s[3] as int) + 0x100_0000 * (s[4] as int)
    + 0x1_0000 * (s[5] as int) + 0x100 * (s[6] as int) + s[7]
  }

  function Epoch(s: seq<byte>): nat
    requires |s| == 8
  {
    0x100 * (s[0] as int) + s[1]
  }

  lemma {:induction false} Horner(s: seq<byte>, n: nat)
    requires n < |s|
    ensures BigEndian(s[..n + 1]) == 0x100 * BigEndian(s[..n]) + s[n]
  {
    assert s[..n + 1][..n] == s[..n];
  }

  lemma NumberIs(s: seq<byte>)
    requires |s| == 8
    ensures BigEndian(s) == Number(s) < 0x1_0000_0000_0000_0000 && Number(s) / 0x1_0000_0000_0000 == Epoch(s)
  {
    hide BigEndian;
    assert s[..8] == s && s[..0] == [];
    assert BigEndian([]) == 0 by { Nothing(); }
    Horner(s, 0);
    Horner(s, 1);
    Horner(s, 2);
    Horner(s, 3);
    Horner(s, 4);
    Horner(s, 5);
    Horner(s, 6);
    Horner(s, 7);
  }

  lemma Nothing()
    ensures BigEndian([]) == 0
  {
  }

  /** A packet parses exactly when a record with a body of at most 16704 bytes stands in front of it. */
  lemma ParsesExactly(packet: seq<byte>)
    ensures Parses(packet) <==> exists body: seq<byte> :: InFront(packet, body)
    ensures Parses(packet) ==> InFront(packet, packet[13..13 + BodyLength(packet)])
  {
    if Parses(packet) {
      var n := BodyLength(packet);
      var body := packet[13..13 + n];
      assert n / 0x100 == packet[11] && n % 0x100 == packet[12];
      assert packet == Record(packet[0], packet[1], packet[2], packet[3..11], body) + packet[13 + n..];
      assert InFront(packet, body);
    }
    if exists body: seq<byte> :: InFront(packet, body) {
      var body: seq<byte> :| InFront(packet, body);
      InFrontParses(packet, body);
    }
  }

  predicate InFront(packet: seq<byte>, body: seq<byte>) {
    && |packet| >= 13 && |body| <= 16704
    && Record(packet[0], packet[1], packet[2], packet[3..11], body) <= packet
  }

  lemma InFrontParses(packet: seq<byte>, body: seq<byte>)
    requires InFront(packet, body)
    ensures Parses(packet) && BodyLength(packet) == |body| && packet[13..13 + |body|] == body
  {
    var r := Record(packet[0], packet[1], packet[2], packet[3..11], body);
    assert r[11] == |body| / 0x100 && r[12] == |body| % 0x100;
    assert packet[11] == r[11] && packet[12] == r[12];
    assert packet[13..13 + |body|] == r[13..] == body;
  }

  /** The version of the connection, or before there is one, any version of DTLS. */
  lemma VersionExactly(packet: seq<byte>, cipher: Cipher)
    requires |packet| >= 13
    ensures VersionOk(packet, cipher) <==>
      if cipher.isNull then packet[1] == 254 else 0x100 * (packet[1] as int) + packet[2] == cipher.version
  {
  }

  /** A record of the current epoch, not seen before, and less than 64 behind the latest one. */
  predicate Fresh(rEpoch: nat, seen: set<nat>, max: nat, sequence: seq<byte>)
    requires |sequence| == 8
  {
    Epoch(sequence) == rEpoch && Number(sequence) !in seen && max < Number(sequence) + 64
  }

  /** Exactly the fresh records that decrypt to at most 16384 bytes are taken; alerts apart. */
  lemma TakenExactly(rEpoch: nat, seen: set<nat>, max: nat, packet: seq<byte>, cipher: Cipher)
    requires Parses(packet)
    ensures var good := Fresh(rEpoch, seen, max, packet[3..11]) && cipher.plaintext.Some?;
      Outcome(rEpoch, seen, max, packet, cipher)
      == if !good then Discard
         else if |cipher.plaintext.value| > 16384 then Error
         else if packet[0] == 21 then AlertRecord
         else Success(packet[0], cipher.plaintext.value)
  {
    hide BigEndian, Number, Epoch;
    NumberIs(packet[3..11]);
  }

  /**
    Over the object that keeps the window: a fresh record that decrypts is taken, whatever the order
    in which records arrive, and the same record is discarded from then on.
   */
  method TakeOnce(d: ReadState, packet: seq<byte>, cipher: Cipher, again: Cipher) returns (first: OpenResult, second: OpenResult)
    requires d.Valid() && Parses(packet) && VersionOk(packet, cipher) && VersionOk(packet, again)
    requires Fresh(d.rEpoch, d.seen, d.maxSeqNum, packet[3..11])
    requires cipher.plaintext.Some? && |cipher.plaintext.value| <= 16384
    modifies d
    ensures d.Valid() && d.log == old(d.log) + [Accepted(Number(packet[3..11]), d.changes)]
    ensures d.seen == old(d.seen) + {Number(packet[3..11])}
    ensures first == if packet[0] == 21 then AlertRecord else Success(packet[0], cipher.plaintext.value)
    ensures second == Discard
  {
    hide ReadState.Valid, BigEndian, Number, Parses, VersionOk;
    NotEmpty(packet);
    NumberIs(packet[3..11]);
    var n;
    TakenExactly(d.rEpoch, d.seen, d.maxSeqNum, packet, cipher);
    first, n := d.Open(packet, false, cipher);
    TakenExactly(d.rEpoch, d.seen, d.maxSeqNum, packet, again);
    second, n := d.Open(packet, false, again);
  }

  lemma NotEmpty(packet: seq<byte>)
    requires Parses(packet)
    ensures |packet| >= 13
  {
  }
}
