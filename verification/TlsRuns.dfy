/** Two runs of the outbound side that show where its guarantees end: bytes that get lost, and bytes that repeat. */
module TlsRuns {
  import opened Bits
  import opened SslBuffer
  import opened TlsOutbound

  const OVERHEAD: nat := 5

  /** A sealed record of nothing but ones, `OVERHEAD` longer than its plaintext. */
  function Ones(data: seq<byte>): (out: seq<byte>) {
    seq(|data| + OVERHEAD, _ => 1)
  }

  predicate AllOnes(s: seq<byte>) {
    forall i :: 0 <= i < |s| ==> s[i] == 1
  }

  lemma OnesMore(s: seq<byte>, data: seq<byte>)
    requires AllOnes(s)
    ensures AllOnes(s + Ones(data)) && |s + Ones(data)| == |s| + |data| + OVERHEAD
  {
  }

  /** A transport that takes `first`, then `second`, then all it is offered, seven bytes of alignment, and zeroes as memory. */
  function Replies(first: int, second: int): Env {
    Env(i => if i == 0 then first else if i == 1 then second else TWO_16, _ => true,
        (i, rtype, data) => Some(Ones(data)), OVERHEAD, _ => 7, 0)
  }

  lemma RepliesSeal(first: int, second: int)
    ensures SealsAll(Replies(first, second))
  {
  }

  // Lost bytes.

  const WRAP: nat := TWO_16 - 7  // a first write that carries the offset from 7 to 2^16

  /** A flight of three records that, with `len` bytes of data and the overhead, makes `m`. */
  method FlightBefore(m: nat) returns (c: Conn, len: nat)
    requires WRAP < m < TWO_16
    ensures fresh(c) && fresh(c.writeBuffer) && c.Valid() && c.env == Replies(WRAP, TWO_16) && c.fits
    ensures c.MaxOut(len) == m && 0 < len <= c.maxSendFragment && AllOnes(c.sealed) && AllOnes(c.Rest())
    ensures |c.sealed| == |c.Rest()|
    ensures c.accepted == [] && c.ios == 0 && !c.wpendPending && c.writeBuffer.buf == null && c.writeBuffer.size == c.writeBuffer.cap == 0
  {
    hide Conn.Valid;
    c := new Conn(Replies(WRAP, TWO_16), MAX_PLAIN_LENGTH);
    var message: seq<byte> := seq(MAX_PLAIN_LENGTH, _ => 0);
    for i := 0 to 3
      invariant c.Valid() && |c.Rest()| == i * (MAX_PLAIN_LENGTH + OVERHEAD) && AllOnes(c.sealed) && AllOnes(c.Rest())
      invariant c.fits && |c.sealed| == |c.Rest()|
      modifies c`pendingFlight, c`seals, c`sealed, c`records
    {
      OnesMore(c.sealed, message);
      OnesMore(c.Rest(), message);
      var ok := c.AddRecordToFlight(RT_HANDSHAKE, message);
    }
    len := m - 3 * (MAX_PLAIN_LENGTH + OVERHEAD) - OVERHEAD;
  }

  lemma WrapSteps(size: nat)
    requires WRAP < size < TWO_16
    ensures var env := Replies(WRAP, TWO_16);
      Takes(env, 0, size) == WRAP && Takes(env, 1, size - WRAP) == size - WRAP && Takes(env, 2, 0) == 0
    ensures Moved(7, WRAP) == 0 && Moved(0, size - WRAP) == size - WRAP
  {
  }

  /** What a flush from offset 7 takes when its first call takes `WRAP` bytes: the rest comes from the front of the memory. */
  lemma WrappedFlush(mem: seq<byte>, size: nat)
    requires WRAP < size < TWO_16 && 7 + size <= |mem|
    ensures FlushFrom(Replies(WRAP, TWO_16), mem, 7, size, 0).taken == mem[7..TWO_16] + mem[..size - WRAP]
  {
    hide FlushFrom, Takes, Moved, Replies;
    var env, left := Replies(WRAP, TWO_16), size - WRAP;
    WrapSteps(size);
    FlushTurn(env, mem, 7, size, 0);
    FlushTurn(env, mem, 0, left, 1);
    FlushTurn(env, mem, left, 0, 2);
    assert mem[0..left] + [] == mem[..left];
  }

  /**
    For every room between 2^16 - 6 and 2^16 - 1 that a record behind a flight can ask for, a write
    sends what was never sealed: the offset wraps, and the tail comes from the front of the memory.
   */
  method LosesBytes(m: nat) returns (c: Conn)
    requires WRAP < m < TWO_16
    ensures fresh(c) && c.Valid() && |c.sealed| == |c.accepted| == m && !(c.accepted <= c.sealed)
  {
    hide Conn.Valid, FlushFrom;
    var len;
    c, len := FlightBefore(m);
    var data: seq<byte> := seq(len, _ => 0);
    ghost var window := c.Rest() + Ones(data);
    OnesMore(c.sealed, data);
    OnesMore(c.Rest(), data);
    var ret;
    ghost var mem, at;
    ret, mem, at := c.DoWrite(RT_APPLICATION_DATA, data, 0);
    WrappedFlush(mem, |window|);
    assert c.accepted[WRAP] == 0;
  }

  // Repeated bytes.

  /** The transport takes one record of two: the first is counted, the second pending. */
  method HalfWritten(data: seq<byte>, addr: int) returns (c: Conn)
    requires |data| == 2 * MIN_FRAGMENT
    ensures fresh(c) && fresh(c.writeBuffer) && (c.writeBuffer.buf != null ==> fresh(c.writeBuffer.buf)) && c.env == Replies(TWO_16, 0)
    ensures c.Valid() && c.Tracked() && c.Smooth() && c.clean && c.movingBuffer && !c.writeShutdown && !c.partialWrite
    ensures c.wnum == c.Pending() == c.maxSendFragment == MIN_FRAGMENT && c.ios == 2
    ensures BytesOf(c.records, RT_APPLICATION_DATA) == data
  {
    hide Conn.Valid, SealsAll, BytesOf, Sealed;
    var env := Replies(TWO_16, 0);
    RepliesSeal(TWO_16, 0);
    c := new Conn(env, MIN_FRAGMENT);
    assert AllOrNothing(env);
    c.movingBuffer := true;
    var ret := c.WriteAppData(data, addr);
    assert env.write(1) <= 0;
    SealedAll(c.records, data);
  }

  lemma SealedAll(records: seq<Plain>, data: seq<byte>)
    ensures Sealed([], records, data, 0, |data|) ==> BytesOf(records, RT_APPLICATION_DATA) == data
  {
  }

  /** With a buffer that may move, a write at least as long as the pending record goes on. */
  lemma PendingGoing(c: Conn, n: nat, addr: int)
    requires c.Valid() && c.Smooth() && c.movingBuffer && 0 < c.Pending() <= n && c.Pending() <= c.maxSendFragment
    ensures c.Going(n, addr)
  {
    hide Conn.Conserved, SSLBuffer.Valid, WithinLimits, SealsAll;
  }

  lemma RepliesTake(first: int, second: int)
    ensures Taking(Replies(first, second), 2)
  {
  }

  /** A retry with less than was counted is refused, and the one after it with all of the data seals half of it again. */
  method RepeatsBytes(data: seq<byte>, addr: int, short: seq<byte>) returns (c: Conn, ret: int)
    requires |data| == 2 * MIN_FRAGMENT && |short| < MIN_FRAGMENT
    ensures fresh(c) && c.Valid() && ret == |data|
    ensures BytesOf(c.records, RT_APPLICATION_DATA) == data + data[MIN_FRAGMENT..]
  {
    hide Conn.Valid, Conn.Smooth, Conn.Going, Conn.Tracked, SealsAll, BytesOf, AllOrNothing, Taking, Paced, Replies;
    c := HalfWritten(data, addr);
    var refused := c.WriteAppData(short, addr);
    PendingGoing(c, |data|, addr);
    RepliesTake(TWO_16, 0);
    ret := c.WriteAppData(data, addr);
  }
}
