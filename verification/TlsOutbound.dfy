/**
  The outbound side of a TLS connection: do_ssl3_write, ssl3_write_app_data and the write retry
  of s3_pkt.cc, the pending flight of s3_both.cc, and the flush of ssl_buffer.cc.
 */
module TlsOutbound {
  import opened Bits
  import opened SslBuffer
  import opened ByteString

  const RT_CHANGE_CIPHER_SPEC: byte := 20
  const RT_ALERT: byte := 21
  const RT_HANDSHAKE: byte := 22
  const RT_APPLICATION_DATA: byte := 23
  const MAX_PLAIN_LENGTH: nat := 16384
  const MIN_FRAGMENT: nat := 512  // SSL_set_max_send_fragment
  const MAX_INT: nat := 0x7FFF_FFFF

  /** The plaintext of a sealed record, and the fragment limit of the moment. */
  datatype Plain = Plain(rtype: byte, data: seq<byte>, limit: nat)

  /**
    The answers of the transport and of tls_seal_record, by the number of the call; a sealing
    that is too long for its room counts as failed.
   */
  datatype Env = Env(write: nat -> int, flush: nat -> bool, seal: (nat, byte, seq<byte>) -> Option<seq<byte>>,
                     overhead: nat, slack: nat -> nat, junk: byte)

  /** The plaintext of one type among sealed records. */
  function BytesOf(records: seq<Plain>, rtype: byte): seq<byte> {
    if records == [] then []
    else
      var last := records[|records| - 1];
      BytesOf(records[..|records| - 1], rtype) + (if last.rtype == rtype then last.data else [])
  }

  lemma BytesMore(records: seq<Plain>, p: Plain, rtype: byte)
    ensures BytesOf(records + [p], rtype) == BytesOf(records, rtype) + (if p.rtype == rtype then p.data else [])
  {
    assert (records + [p])[..|records|] == records;
  }

  /** Records never exceed the fragment limit. */
  predicate WithinLimits(records: seq<Plain>) {
    forall i :: 0 <= i < |records| ==> |records[i].data| <= records[i].limit <= MAX_PLAIN_LENGTH
  }

  predicate AddsUp(accepted: seq<byte>, contents: seq<byte>, rest: seq<byte>, sealed: seq<byte>) {
    accepted + contents + rest == sealed
  }

  // Flushing, on the memory of the write buffer.

  /** What a flush leaves: the bytes the transport took, the window on the rest, and the result. */
  datatype Flush = Flush(taken: seq<byte>, offset: nat, size: nat, ios: nat, ret: int)

  /** The offset after `n` more bytes, in 16 bits. */
  function Moved(offset: nat, n: nat): (r: nat)
    ensures r < TWO_16 && r <= offset + n
    ensures offset + n < TWO_16 ==> r == offset + n
  {
    (offset + n) % TWO_16
  }

  /** How many of `size` bytes call number `ios` takes; not positive when it fails. */
  function Takes(env: Env, ios: nat, size: nat): (n: int)
    ensures n <= size && (n <= 0 <==> env.write(ios) <= 0 || size == 0)
  {
    if env.write(ios) > size then size else env.write(ios)
  }

  /** tls_write_buffer_flush on memory `mem`, up to the last Clear. */
  function FlushFrom(env: Env, mem: seq<byte>, offset: nat, size: nat, ios: nat): (r: Flush)
    requires offset < TWO_16 && offset + size <= |mem|
    ensures r.offset < TWO_16 && r.size <= size && r.offset + r.size <= |mem| && r.ios >= ios
    ensures r.ret == 1 || r.ret <= 0
    ensures if r.ret == 1 then r.size == 0 else r.size > 0
    decreases size
  {
    if size == 0 then Flush([], offset, 0, ios, 1)
    else
      var n := Takes(env, ios, size);
      if n <= 0 then Flush([], offset, size, ios + 1, n)
      else
        var r := FlushFrom(env, mem, Moved(offset, n), size - n, ios + 1);
        r.(taken := mem[offset..offset + n] + r.taken)
  }

  /** A flush between two counts of transport calls: it fails only because a call did, and not if each takes something. */
  ghost predicate Went(env: Env, ios: nat, ios': nat, ret: int) {
    && ios < ios'
    && (Taking(env, ios) ==> ret > 0)
    && (ret <= 0 ==> env.write(ios' - 1) <= 0)
    && (AllOrNothing(env) ==> ios' == ios + 1 && (ret > 0 <==> env.write(ios) > 0))
  }

  lemma WentOf(env: Env, mem: seq<byte>, offset: nat, size: nat, ios: nat, done: int)
    requires offset < TWO_16 && offset + size <= |mem| && 0 < size <= TWO_16 && done > 0
    ensures var r := FlushFrom(env, mem, offset, size, ios);
      Went(env, ios, r.ios, if r.ret == 1 then done else r.ret)
  {
    FlushSucceeds(env, mem, offset, size, ios);
    CallsGrow(env, mem, offset, size, ios);
  }

  lemma CallsGrow(env: Env, mem: seq<byte>, offset: nat, size: nat, ios: nat)
    requires offset < TWO_16 && offset + size <= |mem| && size > 0
    ensures FlushFrom(env, mem, offset, size, ios).ios > ios
  {
    hide Moved;
  }

  /** When a flush succeeds, and what the calls of the transport tell about it. */
  lemma {:induction false} FlushSucceeds(env: Env, mem: seq<byte>, offset: nat, size: nat, ios: nat)
    requires offset < TWO_16 && offset + size <= |mem|
    ensures var r := FlushFrom(env, mem, offset, size, ios);
      && (Taking(env, ios) ==> r.ret == 1)
      && (r.ret <= 0 ==> r.ios > ios && r.ret == env.write(r.ios - 1))
      && (AllOrNothing(env) && 0 < size <= TWO_16 ==> r.ios == ios + 1 && (r.ret == 1 <==> env.write(ios) > 0))
    decreases size
  {
    hide Moved;
    if size > 0 {
      var n := Takes(env, ios, size);
      if n > 0 { FlushSucceeds(env, mem, Moved(offset, n), size - n, ios + 1); }
    }
  }

  /** The transport takes something at every call from `ios` on. */
  ghost predicate Taking(env: Env, ios: nat) {
    forall i: nat :: i >= ios ==> env.write(i) > 0
  }

  ghost predicate Flushes(env: Env) {
    forall i: nat :: env.flush(i)
  }

  /** The transport takes everything it is offered, or nothing. */
  ghost predicate AllOrNothing(env: Env) {
    forall i: nat :: env.write(i) >= TWO_16 || env.write(i) <= 0
  }

  /** Fresh memory. */
  function Junk(env: Env, n: nat): seq<byte> {
    seq(n, _ => env.junk)
  }

  /** tls_seal_record never fails, and a record is never empty. */
  ghost predicate SealsAll(env: Env) {
    forall i: nat, rtype: byte, data: seq<byte> :: SealsOne(env, i, rtype, data)
  }

  predicate SealsOne(env: Env, i: nat, rtype: byte, data: seq<byte>) {
    |data| <= MAX_PLAIN_LENGTH ==> SealFits(env, i, rtype, data, |data| + env.overhead)
  }

  /** Sealing number `i` yields a record of at most `room` bytes. */
  predicate SealFits(env: Env, i: nat, rtype: byte, data: seq<byte>, room: nat) {
    var reply := env.seal(i, rtype, data);
    reply.Some? && 0 < |reply.value| <= room && |reply.value| <= |data| + env.overhead
  }

  /** A message cut into chunks of at most `max` bytes, one if it is empty. */
  function Chunks(msg: seq<byte>, max: nat): (r: seq<seq<byte>>)
    requires max > 0
    ensures r != []
    decreases |msg|
  {
    if |msg| <= max then [msg] else [msg[..max]] + Chunks(msg[max..], max)
  }

  /** All but the last chunk are full, the last is not empty unless the message is, and together they are the message. */
  lemma {:induction false} ChunksExactly(msg: seq<byte>, max: nat)
    requires max > 0
    ensures var r := Chunks(msg, max);
      && (forall i :: 0 <= i < |r| - 1 ==> |r[i]| == max)
      && |r[|r| - 1]| <= max && (msg != [] ==> r[|r| - 1] != [])
      && |msg| == (|r| - 1) * max + |r[|r| - 1]|
      && Concat(r) == msg
    decreases |msg|
  {
    if |msg| <= max {
      assert [msg][1..] == [] && msg + [] == msg;
    } else {
      ChunksExactly(msg[max..], max);
      var more := Chunks(msg[max..], max);
      var r := [msg[..max]] + more;
      assert r[1..] == more && |r[0]| == max;
      assert forall i :: 1 <= i < |r| ==> r[i] == more[i - 1];
      assert |more| * max == (|more| - 1) * max + max;
      assert msg == msg[..max] + msg[max..];
    }
  }

  /** How many of the chunks are sealed, from sealing `at` on, before one fails. */
  function Sealable(env: Env, at: nat, chunks: seq<seq<byte>>): (n: nat)
    ensures n <= |chunks|
    ensures forall i :: 0 <= i < n ==> SealFits(env, at + i, RT_HANDSHAKE, chunks[i], |chunks[i]| + env.overhead)
    ensures n < |chunks| ==> !SealFits(env, at + n, RT_HANDSHAKE, chunks[n], |chunks[n]| + env.overhead)
    decreases |chunks|
  {
    if chunks == [] || !SealFits(env, at, RT_HANDSHAKE, chunks[0], |chunks[0]| + env.overhead) then 0
    else 1 + Sealable(env, at + 1, chunks[1..])
  }

  /** Handshake records with these plaintexts. */
  function Plains(chunks: seq<seq<byte>>, limit: nat): (r: seq<Plain>)
    ensures |r| == |chunks| && forall i :: 0 <= i < |r| ==> r[i] == Plain(RT_HANDSHAKE, chunks[i], limit)
  {
    seq(|chunks|, i requires 0 <= i < |chunks| => Plain(RT_HANDSHAKE, chunks[i], limit))
  }

  /** The first chunk, and what becomes of it. */
  lemma NextChunk(env: Env, at: nat, rest: seq<byte>, max: nat)
    requires max > 0
    ensures var c, cs := if |rest| > max then rest[..max] else rest, Chunks(rest, max);
      && cs[0] == c && cs[1..] == (if rest[|c|..] == [] then [] else Chunks(rest[|c|..], max))
      && Sealable(env, at, cs)
         == if SealFits(env, at, RT_HANDSHAKE, c, |c| + env.overhead) then 1 + Sealable(env, at + 1, cs[1..]) else 0
  {
    hide SealFits;
    if |rest| <= max { assert [rest][1..] == []; }
  }

  /** The records of some chunks carry their bytes. */
  lemma {:induction false} PlainsBytes(before: seq<Plain>, chunks: seq<seq<byte>>, limit: nat)
    ensures BytesOf(before + Plains(chunks, limit), RT_HANDSHAKE) == BytesOf(before, RT_HANDSHAKE) + Concat(chunks)
    ensures BytesOf(before + Plains(chunks, limit), RT_APPLICATION_DATA) == BytesOf(before, RT_APPLICATION_DATA)
    decreases |chunks|
  {
    hide BytesOf, Plains;
    if chunks == [] {
      assert before + Plains(chunks, limit) == before;
    } else {
      var p, more := Plain(RT_HANDSHAKE, chunks[0], limit), chunks[1..];
      PlainsBytes(before + [p], more, limit);
      BytesMore(before, p, RT_HANDSHAKE);
      BytesMore(before, p, RT_APPLICATION_DATA);
      assert before + Plains(chunks, limit) == before + [p] + Plains(more, limit);
      assert BytesOf(before, RT_HANDSHAKE) + chunks[0] + Concat(more) == BytesOf(before, RT_HANDSHAKE) + (chunks[0] + Concat(more));
    }
  }

  /** `n` chunks are sealed, and `left` is still to be. */
  ghost predicate Cutting(env: Env, start: nat, all: seq<seq<byte>>, before: seq<Plain>, limit: nat, n: nat,
                          left: seq<seq<byte>>, records: seq<Plain>) {
    && n <= |all| && left == all[n..] && records == before + Plains(all[..n], limit)
    && Sealable(env, start, all) == n + Sealable(env, start + n, left)
  }

  lemma StartCutting(env: Env, start: nat, all: seq<seq<byte>>, before: seq<Plain>, limit: nat)
    ensures Cutting(env, start, all, before, limit, 0, all, before)
  {
    assert all[0..] == all && before + Plains(all[..0], limit) == before;
  }

  lemma CutMore(env: Env, start: nat, all: seq<seq<byte>>, before: seq<Plain>, limit: nat, n: nat,
                left: seq<seq<byte>>, records: seq<Plain>)
    requires Cutting(env, start, all, before, limit, n, left, records) && left != []
    requires SealFits(env, start + n, RT_HANDSHAKE, left[0], |left[0]| + env.overhead)
    ensures Cutting(env, start, all, before, limit, n + 1, left[1..], records + [Plain(RT_HANDSHAKE, left[0], limit)])
  {
    hide SealFits;
    assert Plains(all[..n + 1], limit) == Plains(all[..n], limit) + [Plain(RT_HANDSHAKE, all[n], limit)];
    assert left[1..] == all[n + 1..];
  }

  lemma CutEnds(env: Env, start: nat, all: seq<seq<byte>>, before: seq<Plain>, limit: nat, n: nat,
                left: seq<seq<byte>>, records: seq<Plain>)
    requires Cutting(env, start, all, before, limit, n, left, records)
    requires left != [] ==> !SealFits(env, start + n, RT_HANDSHAKE, left[0], |left[0]| + env.overhead)
    ensures n == Sealable(env, start, all) && records == before + Plains(all[..n], limit) && (left == [] <==> n == |all|)
  {
    hide SealFits;
  }

  lemma FlushTurn(env: Env, mem: seq<byte>, offset: nat, size: nat, ios: nat)
    requires offset < TWO_16 && offset + size <= |mem|
    ensures var r, n := FlushFrom(env, mem, offset, size, ios), Takes(env, ios, size);
      if n <= 0 then r.taken == [] && r.size == size && (size > 0 ==> r.offset == offset)
      else
        var next := FlushFrom(env, mem, Moved(offset, n), size - n, ios + 1);
        r == next.(taken := mem[offset..offset + n] + next.taken)
  {
    hide Moved;
  }

  /** More room than the overhead asks for changes nothing. */
  lemma RoomGrows(env: Env, i: nat, rtype: byte, data: seq<byte>, room: nat)
    requires room >= |data| + env.overhead
    ensures SealFits(env, i, rtype, data, room) <==> SealFits(env, i, rtype, data, |data| + env.overhead)
  {
  }

  /** The contents go out in order if they end at 2^16 at most. */
  lemma {:induction false} FlushInOrder(env: Env, mem: seq<byte>, offset: nat, size: nat, ios: nat)
    requires offset < TWO_16 && offset + size <= |mem| && offset + size <= TWO_16
    ensures var r := FlushFrom(env, mem, offset, size, ios);
      r.taken == mem[offset..offset + size - r.size] && (r.size > 0 ==> r.offset == offset + size - r.size)
    decreases size
  {
    hide Takes, Moved, FlushFrom;
    var n := Takes(env, ios, size);
    FlushTurn(env, mem, offset, size, ios);
    if 0 < n {
      var next := FlushFrom(env, mem, Moved(offset, n), size - n, ios + 1);
      if n < size { FlushInOrder(env, mem, offset + n, size - n, ios + 1); } else { FlushTurn(env, mem, Moved(offset, n), 0, ios + 1); }
      SliceJoin(mem, offset, offset + n, offset + size - next.size);
    }
  }

  lemma SliceJoin(mem: seq<byte>, a: nat, b: nat, c: nat)
    requires a <= b <= c <= |mem|
    ensures mem[a..b] + mem[b..c] == mem[a..c]
  {
  }

  lemma Regroup(a: seq<byte>, b: seq<byte>, c: seq<byte>, d: seq<byte>)
    ensures b + c == d ==> a + b + c == a + d
    ensures a + [] == a
  {
    assert a + b + c == a + (b + c);
  }

  /** How a call of ssl3_write_app_data began. */
  datatype WriteRun = WriteRun(records: seq<Plain>, from: nat, first: nat, ios: nat, smooth: bool, going: bool, paced: bool)

  class Conn {
    const env: Env
    const writeBuffer: SSLBuffer
    var pendingFlight: Option<seq<byte>>
    var pendingOffset: nat
    var wnum: nat
    var wpendPending: bool
    var wpendTot: nat
    var wpendBuf: int
    var wpendType: byte
    var wpendRet: nat
    var maxSendFragment: nat
    var writeShutdown: bool
    var partialWrite: bool       // SSL_MODE_ENABLE_PARTIAL_WRITE
    var movingBuffer: bool       // SSL_MODE_ACCEPT_MOVING_WRITE_BUFFER
    var ios: nat                 // calls of the transport so far
    var seals: nat               // sealings so far
    ghost var sealed: seq<byte>      // every record sealed, in order
    ghost var accepted: seq<byte>    // every byte the transport took
    ghost var records: seq<Plain>
    ghost var fits: bool             // the write buffer's end never passed 16 bits
    ghost var done: seq<byte>        // what the application's finished writes reported as written
    ghost var current: seq<byte>     // what is sealed of its unfinished write
    ghost var clean: bool            // every retry repeated what was sealed before

    /** pending_flight from its offset. */
    ghost function Rest(): seq<byte>
      reads this`pendingFlight, this`pendingOffset
    {
      if pendingFlight.None? || pendingOffset > |pendingFlight.value| then [] else pendingFlight.value[pendingOffset..]
    }

    ghost function FlightLength(): nat
      reads this`pendingFlight
    {
      if pendingFlight.None? then 0 else |pendingFlight.value|
    }

    /** Bytes accepted, then the write buffer, then the flight, are all that was ever sealed. */
    ghost predicate Conserved()
      requires writeBuffer.Valid()
      reads this`accepted, this`sealed, this`pendingFlight, this`pendingOffset, writeBuffer, writeBuffer.buf
    {
      AddsUp(accepted, writeBuffer.Contents(), Rest(), sealed)
    }

    /** The memory of the write buffer. */
    ghost function Memory(): seq<byte>
      reads this, writeBuffer, writeBuffer.buf
    {
      if writeBuffer.buf == null then [] else writeBuffer.buf[..]
    }

    /** Every sealing succeeds and fits, and nothing but a pending record waits in the write buffer. */
    ghost predicate Smooth()
      reads this`pendingFlight, this`pendingOffset, this`wpendPending, writeBuffer
    {
      && SealsAll(env) && |Rest()| + MAX_PLAIN_LENGTH + env.overhead < TWO_16
      && (wpendPending <==> writeBuffer.size > 0)
    }

    ghost predicate Core()
      reads this`pendingFlight, this`pendingOffset, this`maxSendFragment, this`wpendRet, this`wpendTot, this`wpendPending
      reads this`fits, this`accepted, this`sealed, this`records, writeBuffer, writeBuffer.buf
    {
      && writeBuffer.Valid()
      && pendingOffset <= FlightLength()
      && MIN_FRAGMENT <= maxSendFragment <= MAX_PLAIN_LENGTH
      && wpendRet == wpendTot && (wpendPending ==> wpendRet > 0)
      && (fits ==> writeBuffer.Fits() && Conserved())
      && WithinLimits(records)
    }

    ghost predicate Valid()
      reads this`pendingFlight, this`pendingOffset, this`maxSendFragment, this`wpendRet, this`wpendTot, this`wpendPending
      reads this`fits, this`accepted, this`sealed, this`records, writeBuffer, writeBuffer.buf
    {
      Core() && (writeBuffer.size == 0 ==> writeBuffer.offset < ALIGN_PAYLOAD)
    }

    constructor (e: Env, max: nat)
      requires MIN_FRAGMENT <= max <= MAX_PLAIN_LENGTH
      ensures Valid() && env == e && maxSendFragment == max && fits && sealed == [] && records == []
      ensures wnum == 0 && !wpendPending && fresh(writeBuffer)
      ensures Tracked() && clean && done == [] && current == []
      ensures accepted == [] && pendingFlight.None? && pendingOffset == 0 && ios == 0 && seals == 0
      ensures writeBuffer.buf == null && writeBuffer.size == writeBuffer.cap == 0 && !writeShutdown && !partialWrite
    {
      env := e;
      writeBuffer := new SSLBuffer();
      pendingFlight, pendingOffset := None, 0;
      wnum, wpendPending, wpendTot, wpendBuf, wpendType, wpendRet := 0, false, 0, 0, 0, 0;
      maxSendFragment, writeShutdown, partialWrite, movingBuffer := max, false, false, false;
      ios, seals, sealed, accepted, records, fits := 0, 0, [], [], [], true;
      done, current, clean := [], [], true;
    }

    /** BIO_write takes at most what it is given. */
    method BioWrite(len: nat) returns (ret: int)
      modifies this`ios
      ensures ret == Takes(env, old(ios), len) && ios == old(ios) + 1
    {
      ret := env.write(ios);
      ios := ios + 1;
      if ret > len {
        ret := len;
      }
    }

    /** tls_seal_record into `room` bytes. */
    method Seal(rtype: byte, data: seq<byte>, room: nat) returns (ok: bool, out: seq<byte>)
      requires Valid() && |data| <= maxSendFragment
      modifies this`seals, this`sealed, this`records
      ensures ok == SealFits(env, old(seals), rtype, data, room) && seals == old(seals) + 1
      ensures ok ==> Some(out) == env.seal(old(seals), rtype, data)
      ensures sealed == if ok then old(sealed) + out else old(sealed)
      ensures records == if ok then old(records) + [Plain(rtype, data, maxSendFragment)] else old(records)
      ensures WithinLimits(records)
    {
      var reply := env.seal(seals, rtype, data);
      seals := seals + 1;
      if reply.None? || |reply.value| == 0 || |reply.value| > room || |reply.value| > |data| + env.overhead {
        return false, [];
      }
      ok, out := true, reply.value;
      sealed := sealed + out;
      records := records + [Plain(rtype, data, maxSendFragment)];
    }

    /** The transport took the first `n` bytes of the write buffer. */
    method Took(n: nat)
      requires Core() && n <= writeBuffer.size
      modifies this`accepted, writeBuffer`offset, writeBuffer`size, writeBuffer`cap
      ensures Core() && writeBuffer.size == old(writeBuffer.size) - n
      ensures writeBuffer.offset == Moved(old(writeBuffer.offset), n)
      ensures accepted == old(accepted) + old(writeBuffer.Contents())[..n]
    {
      hide WithinLimits, AddsUp, SSLBuffer.Contents, SSLBuffer.Valid;
      ghost var contents, rest := writeBuffer.Contents(), Rest();
      accepted := accepted + contents[..n];
      writeBuffer.Consume(n);
      AcceptedMore(old(accepted), contents, n, rest, sealed);
    }

    /** ssl_write_buffer_flush. */
    method FlushBuffer() returns (ret: int)
      requires Valid()
      modifies this`ios, this`accepted, writeBuffer
      ensures Valid() && writeBuffer.buf in {old(writeBuffer.buf), null}
      ensures var r := FlushFrom(env, old(Memory()), old(writeBuffer.offset), old(writeBuffer.size), old(ios));
        && ret == r.ret && ios == r.ios && accepted == old(accepted) + r.taken && writeBuffer.size == r.size
        && (ret <= 0 ==> writeBuffer.buf == old(writeBuffer.buf) && writeBuffer.offset == r.offset)
    {
      hide WithinLimits, AddsUp, SSLBuffer.Contents, FlushFrom, Takes;
      ghost var mem, offset, size, taken: seq<byte> := Memory(), writeBuffer.offset, writeBuffer.size, [];
      ghost var whole := FlushFrom(env, mem, offset, size, ios);
      assert [] + whole.taken == whole.taken;
      while writeBuffer.size != 0
        invariant Core() && writeBuffer.buf == old(writeBuffer.buf) && Memory() == mem
        invariant accepted == old(accepted) + taken
        invariant var r := FlushFrom(env, mem, writeBuffer.offset, writeBuffer.size, ios);
          whole == r.(taken := taken + r.taken)
        decreases writeBuffer.size
      {
        FlushStep(env, mem, writeBuffer.offset, writeBuffer.size, ios, taken);
        ContentsAre(writeBuffer);
        var n := BioWrite(writeBuffer.size);
        if n <= 0 {
          return n;
        }
        taken := taken + mem[writeBuffer.offset..writeBuffer.offset + n];
        Took(n);
      }
      FlushEnd(env, mem, writeBuffer.offset, ios, taken);
      writeBuffer.Clear();
      ret := 1;
    }

    // Application data and alerts.

    /** How much of the application's current write is sealed: counted, or in a record being flushed. */
    ghost function SealedSoFar(): nat
      reads this
    {
      wnum + Pending()
    }

    /** The arguments repeat those of the record that is pending. */
    predicate Retryable(rtype: byte, addr: int, len: nat)
      reads this`wpendTot, this`wpendBuf, this`wpendType, this`movingBuffer
    {
      wpendTot <= len && (movingBuffer || wpendBuf == addr) && wpendType == rtype
    }

    /** A flush of the window on memory `mem` is what happened: bytes taken, calls made, and the result. */
    ghost predicate Flushed(mem: seq<byte>, at: nat, window: seq<byte>, before: seq<byte>, start: nat, ret: int)
      reads this`accepted, this`ios, this`wpendRet
    {
      && at < TWO_16 && at + |window| <= |mem| && mem[at..at + |window|] == window
      && var r := FlushFrom(env, mem, at, |window|, start);
      && accepted == before + r.taken && ios == r.ios && ret == if r.ret == 1 then wpendRet else r.ret
    }

    /** ssl3_write_pending. */
    method WritePending(rtype: byte, addr: int, len: nat) returns (ret: int)
      requires Valid() && wpendPending
      modifies this`ios, this`accepted, this`wpendPending, writeBuffer
      ensures Valid() && writeBuffer.buf in {old(writeBuffer.buf), null}
      ensures ret > 0 ==> !wpendPending && ret == wpendRet && wpendRet <= len && rtype == wpendType
      ensures ret <= 0 ==> wpendPending
      ensures wpendTot > len || (!movingBuffer && wpendBuf != addr) || wpendType != rtype ==>
        ret == -1 && accepted == old(accepted) && ios == old(ios)
      ensures old(Retryable(rtype, addr, len)) ==>
        Flushed(old(Memory()), old(writeBuffer.offset), old(writeBuffer.Contents()), old(accepted), old(ios), ret)
      ensures old(Retryable(rtype, addr, len)) && old(Smooth()) ==> Went(env, old(ios), ios, ret)
      ensures old(Smooth()) ==> Smooth()
    {
      hide WithinLimits, AddsUp, SSLBuffer.Contents, FlushFrom, SealsAll, Went;
      if wpendTot > len || (!movingBuffer && wpendBuf != addr) || wpendType != rtype {
        return -1;
      }
      WindowIs(writeBuffer);
      if writeBuffer.size > 0 { WentOf(env, Memory(), writeBuffer.offset, writeBuffer.size, ios, wpendRet); }
      ret := FlushBuffer();
      if ret <= 0 {
        return;
      }
      wpendPending := false;
      ret := wpendRet;
    }

    /** The bytes do_ssl3_write asks room for: the rest of the flight, the data and the overhead. */
    ghost function MaxOut(len: nat): nat
      reads this
    {
      |Rest()| + len + env.overhead
    }

    /** What lies in front of the contents. */
    ghost function Slack(): seq<byte>
      requires writeBuffer.Valid()
      reads writeBuffer, writeBuffer.buf
    {
      if writeBuffer.buf == null then [] else writeBuffer.buf[..writeBuffer.offset]
    }

    /** A new allocation for record `call`: the contents start behind the slack, which nobody wrote. */
    ghost predicate Aligned(call: nat)
      requires writeBuffer.Valid()
      reads writeBuffer, writeBuffer.buf
    {
      writeBuffer.offset == env.slack(call) % ALIGN_PAYLOAD && Slack() == Junk(env, writeBuffer.offset)
    }

    /** EnsureCap on the empty write buffer. */
    method MakeRoom(maxOut: nat) returns (ok: bool)
      requires Valid() && writeBuffer.size == 0
      modifies writeBuffer
      ensures Valid() && writeBuffer.size == 0 && ok == (maxOut < TWO_16)
      ensures ok ==> writeBuffer.cap >= maxOut
      ensures ok && old(writeBuffer.cap) < maxOut ==> Aligned(seals)
      ensures writeBuffer.buf == old(writeBuffer.buf) || fresh(writeBuffer.buf)
    {
      hide WithinLimits, AddsUp, SSLBuffer.Contents;
      ok := writeBuffer.EnsureCap(env.slack(seals) % ALIGN_PAYLOAD, maxOut, env.junk);
      if ok && writeBuffer.buf != null && fresh(writeBuffer.buf) {
        assert writeBuffer.buf[..writeBuffer.offset] == Junk(env, writeBuffer.offset);
      }
    }

    /** Lines 242 to 269: room for the record, with what is left of the flight in front of it. */
    method MoveFlight(len: nat) returns (ok: bool)
      requires Valid() && writeBuffer.size == 0
      modifies this`fits, this`pendingFlight, this`pendingOffset, writeBuffer, writeBuffer.buf
      ensures Valid() && ok == (old(MaxOut(len)) < TWO_16)
      ensures ok ==> pendingFlight.None? && writeBuffer.Contents() == old(Rest()) && writeBuffer.offset < ALIGN_PAYLOAD
      ensures ok ==> writeBuffer.cap >= old(MaxOut(len)) && writeBuffer.size == |old(Rest())|
      ensures ok && old(writeBuffer.cap) < old(MaxOut(len)) ==> Aligned(seals)
      ensures !ok ==> pendingFlight == old(pendingFlight) && pendingOffset == old(pendingOffset) && writeBuffer.size == 0
      ensures writeBuffer.buf == old(writeBuffer.buf) || fresh(writeBuffer.buf)
      ensures old(fits) && (old(MaxOut(len)) + ALIGN_PAYLOAD - 1 <= TWO_16 || !ok) ==> fits
    {
      hide WithinLimits, AddsUp, SSLBuffer.Contents, SSLBuffer.Valid, Junk;
      var flight: seq<byte> := if pendingFlight.None? then [] else pendingFlight.value[pendingOffset..];
      assert flight == Rest();
      ok := MakeRoom(len + env.overhead + |flight|);
      if !ok {
        return;
      }
      if pendingFlight.Some? {
        MoveInto(flight);
      }
    }

    /** The flight becomes the contents of the empty write buffer. */
    method MoveInto(flight: seq<byte>)
      requires Valid() && writeBuffer.size == 0 && flight == Rest() && |flight| <= writeBuffer.cap
      modifies this`fits, this`pendingFlight, this`pendingOffset, writeBuffer`size, writeBuffer.buf
      ensures Valid() && pendingFlight.None? && writeBuffer.Contents() == flight && writeBuffer.size == |flight|
      ensures Slack() == old(Slack()) && (fits <==> old(fits) && writeBuffer.Fits())
    {
      hide WithinLimits, AddsUp, SSLBuffer.Contents, SSLBuffer.Valid;
      pendingFlight, pendingOffset := None, 0;
      writeBuffer.Write(flight);
      FlightMoved(accepted, flight, sealed);
      assert [] + flight == flight;
      fits := fits && writeBuffer.Fits();
    }

    /** Lines 271 to 277. */
    method SealIntoBuffer(rtype: byte, data: seq<byte>) returns (ok: bool)
      requires Valid() && |data| <= maxSendFragment && pendingFlight.None? && writeBuffer.offset < ALIGN_PAYLOAD
      requires writeBuffer.size <= writeBuffer.cap
      modifies this`seals, this`sealed, this`records, this`fits, writeBuffer`size, writeBuffer.buf
      ensures Valid()
      ensures old(fits) && old(writeBuffer.size) + |data| + env.overhead + ALIGN_PAYLOAD - 1 <= TWO_16 ==> fits
      ensures ok == SealFits(env, old(seals), rtype, data, old(writeBuffer.cap - writeBuffer.size)) && seals == old(seals) + 1
      ensures ok ==>
        var reply := env.seal(old(seals), rtype, data);
        && reply.Some? && |reply.value| > 0 && sealed == old(sealed) + reply.value
        && writeBuffer.Contents() == old(writeBuffer.Contents()) + reply.value
      ensures Slack() == old(Slack()) && writeBuffer.offset == old(writeBuffer.offset)
      ensures records == if ok then old(records) + [Plain(rtype, data, maxSendFragment)] else old(records)
    {
      hide WithinLimits, AddsUp, SSLBuffer.Contents, SSLBuffer.Valid;
      var out;
      ok, out := Seal(rtype, data, writeBuffer.cap - writeBuffer.size);
      if !ok {
        return;
      }
      ghost var contents := writeBuffer.Contents();
      writeBuffer.Write(out);
      SealedInBuffer(accepted, contents, old(sealed), out);
      fits := fits && writeBuffer.Fits();
    }

    /** Lines 242 to 277: what is left of the flight, and the record behind it. */
    method PutRecord(rtype: byte, data: seq<byte>) returns (ok: bool)
      requires Valid() && |data| <= maxSendFragment && writeBuffer.size == 0
      modifies this`seals, this`sealed, this`records, this`fits, this`pendingFlight, this`pendingOffset
      modifies writeBuffer, writeBuffer.buf
      ensures Valid() && (writeBuffer.buf == old(writeBuffer.buf) || fresh(writeBuffer.buf))
      ensures old(fits) && (old(MaxOut(|data|)) + ALIGN_PAYLOAD - 1 <= TWO_16 || old(MaxOut(|data|)) >= TWO_16) ==> fits
      ensures ok <==> old(MaxOut(|data|)) < TWO_16 && SealFits(env, old(seals), rtype, data, |data| + env.overhead)
      ensures ok ==>
        var reply := env.seal(old(seals), rtype, data);
        && reply.Some? && |reply.value| > 0 && sealed == old(sealed) + reply.value
        && writeBuffer.Contents() == old(Rest()) + reply.value && pendingFlight.None? && writeBuffer.size > 0
      ensures ok && old(writeBuffer.cap) < old(MaxOut(|data|)) ==> Aligned(old(seals))
      ensures records == if ok then old(records) + [Plain(rtype, data, maxSendFragment)] else old(records)
    {
      hide WithinLimits, AddsUp, SSLBuffer.Contents, SSLBuffer.Valid, Junk, Conn.Slack, SealFits;
      ok := MoveFlight(|data|);
      if !ok {
        return;
      }
      RoomGrows(env, seals, rtype, data, writeBuffer.cap - writeBuffer.size);
      ok := SealIntoBuffer(rtype, data);
      assert ok ==> |writeBuffer.Contents()| == writeBuffer.size;
    }

    /** do_ssl3_write up to line 288: a new record in the buffer, and its arguments remembered. */
    method StartRecord(rtype: byte, data: seq<byte>, addr: int) returns (ret: int)
      requires Valid() && |data| <= maxSendFragment && !wpendPending
      modifies this`seals, this`sealed, this`records, this`fits, this`pendingFlight, this`pendingOffset
      modifies this`wpendPending, this`wpendTot, this`wpendBuf, this`wpendType, this`wpendRet, writeBuffer, writeBuffer.buf
      ensures Valid() && (writeBuffer.buf == old(writeBuffer.buf) || fresh(writeBuffer.buf))
      ensures ret <= 1 && (ret == 1 <==> wpendPending)
      ensures old(fits) && (old(MaxOut(|data|)) + ALIGN_PAYLOAD - 1 <= TWO_16 || old(MaxOut(|data|)) >= TWO_16) ==> fits
      ensures ret == 1 ==>
        var reply := env.seal(old(seals), rtype, data);
        && reply.Some? && |reply.value| > 0 && sealed == old(sealed) + reply.value
        && writeBuffer.Contents() == old(Rest()) + reply.value && pendingFlight.None?
      ensures ret == 1 && old(writeBuffer.cap) < old(MaxOut(|data|)) ==> Aligned(old(seals))
      ensures ret == (if old(writeBuffer.size) > 0 then -1
                      else if data == [] then 0
                      else if old(MaxOut(|data|)) < TWO_16 && SealFits(env, old(seals), rtype, data, |data| + env.overhead) then 1
                      else -1)
      ensures old(Smooth()) ==> Smooth() && (|data| > 0 ==> ret == 1)
      ensures ret == 1 ==>
        && records == old(records) + [Plain(rtype, data, maxSendFragment)]
        && wpendRet == |data| && wpendType == rtype && Retryable(rtype, addr, |data|)
      ensures ret <= 0 ==> records == old(records)
    {
      hide WithinLimits, AddsUp, SSLBuffer.Contents, SSLBuffer.Valid, Conn.Aligned, SealFits;
      assert SealsAll(env) ==> SealsOne(env, seals, rtype, data);
      if |data| > MAX_PLAIN_LENGTH || writeBuffer.size > 0 {
        return -1;
      }
      if |data| == 0 {
        return 0;
      }
      var ok := PutRecord(rtype, data);
      if !ok {
        return -1;
      }
      wpendTot, wpendBuf, wpendType, wpendRet, wpendPending := |data|, addr, rtype, |data|, true;
      ret := 1;
    }

    /**
      do_ssl3_write. A record is sealed at most once: a call while one is pending only flushes.
      `mem` and `at` are the memory and the start of the contents when the flush begins.
     */
    method DoWrite(rtype: byte, data: seq<byte>, addr: int) returns (ret: int, ghost mem: seq<byte>, ghost at: nat)
      requires Valid() && |data| <= maxSendFragment
      modifies this`ios, this`accepted, this`seals, this`sealed, this`records, this`fits, this`pendingFlight, this`pendingOffset
      modifies this`wpendPending, this`wpendTot, this`wpendBuf, this`wpendType, this`wpendRet, writeBuffer, writeBuffer.buf
      ensures Valid() && (writeBuffer.buf == null || writeBuffer.buf == old(writeBuffer.buf) || fresh(writeBuffer.buf))
      ensures old(fits) && (old(MaxOut(|data|)) + ALIGN_PAYLOAD - 1 <= TWO_16 || old(MaxOut(|data|)) >= TWO_16) ==> fits
      ensures old(Smooth()) ==> Smooth()
      ensures old(Smooth()) && (!old(wpendPending) ==> |data| > 0) && ret <= 0 ==> wpendPending
      ensures old(Smooth()) && (if old(wpendPending) then old(Retryable(rtype, addr, |data|)) else |data| > 0) ==>
        Went(env, old(ios), ios, ret)
      ensures !old(wpendPending) && wpendPending ==> wpendRet == |data| && wpendType == rtype
      ensures !old(wpendPending) && (ret > 0 || wpendPending) ==>
        var reply := env.seal(old(seals), rtype, data);
        && reply.Some? && sealed == old(sealed) + reply.value
        && Flushed(mem, at, old(Rest()) + reply.value, old(accepted), old(ios), ret)
      ensures !old(wpendPending) && (ret > 0 || wpendPending) && old(writeBuffer.cap) < old(MaxOut(|data|)) ==>
        at == env.slack(old(seals)) % ALIGN_PAYLOAD && at <= |mem| && mem[..at] == Junk(env, at)
      ensures !old(wpendPending) ==>
        (ret > 0 || wpendPending <==> old(writeBuffer.size) == 0 && data != [] && old(MaxOut(|data|)) < TWO_16
                                      && SealFits(env, old(seals), rtype, data, |data| + env.overhead))
      ensures !old(wpendPending) && ret <= 0 && !wpendPending ==>
        ret == (if old(writeBuffer.size) == 0 && data == [] then 0 else -1) && ios == old(ios) && accepted == old(accepted)
      ensures old(wpendPending) ==> records == old(records) && sealed == old(sealed)
      ensures old(wpendPending) ==> wpendType == old(wpendType) && wpendRet == old(wpendRet)
      ensures old(wpendPending) ==> (ret <= 0 <==> wpendPending)
      ensures old(wpendPending) && !old(Retryable(rtype, addr, |data|)) ==> ret == -1
      ensures !old(wpendPending) && (ret > 0 || wpendPending) ==>
        && records == old(records) + [Plain(rtype, data, maxSendFragment)]
        && wpendRet == |data| > 0 && wpendType == rtype
      ensures !old(wpendPending) && ret <= 0 && !wpendPending ==> records == old(records)
      ensures ret > 0 ==> !wpendPending && ret == wpendRet && ret <= |data| && rtype == wpendType
    {
      hide WithinLimits, AddsUp, SSLBuffer.Contents, FlushFrom, SealsAll, Conn.Aligned, Went, SealFits, Junk;
      mem, at := [], 0;
      ghost var aligned := writeBuffer.cap < MaxOut(|data|);
      ghost var call := seals;
      if !wpendPending {
        ret := StartRecord(rtype, data, addr);
        if ret <= 0 {
          return;
        }
        if aligned { AlignedMemory(call); }
      }
      mem, at := Memory(), writeBuffer.offset;
      ret := WritePending(rtype, addr, |data|);
    }

    lemma AlignedMemory(call: nat)
      requires writeBuffer.Valid() && writeBuffer.buf != null && Aligned(call)
      ensures writeBuffer.offset == env.slack(call) % ALIGN_PAYLOAD && writeBuffer.offset <= |Memory()|
      ensures Memory()[..writeBuffer.offset] == Junk(env, writeBuffer.offset)
    {
      hide Junk;
    }

    /** One do_ssl3_write of application data, as positions in the caller's data. */
    method WriteOne(data: seq<byte>, tot: nat, nw: nat, addr: int) returns (ret: int)
      requires Valid() && tot + nw <= |data| && nw <= maxSendFragment
      modifies this`ios, this`accepted, this`seals, this`sealed, this`records, this`fits, this`pendingFlight, this`pendingOffset
      modifies this`wpendPending, this`wpendTot, this`wpendBuf, this`wpendType, this`wpendRet, writeBuffer, writeBuffer.buf
      ensures Valid() && (writeBuffer.buf == null || writeBuffer.buf == old(writeBuffer.buf) || fresh(writeBuffer.buf))
      ensures Sealed(old(records), records, data, tot + old(Pending()), if ret > 0 then tot + ret else tot + Pending())
      ensures ret > 0 ==> !wpendPending && old(Pending()) <= ret <= nw && (!old(wpendPending) ==> ret == nw)
      ensures old(wpendPending) ==>
        && wpendType == old(wpendType) && wpendRet == old(wpendRet)
        && records == old(records) && (old(wpendRet) > nw ==> ret == -1 && wpendPending)
      ensures !old(wpendPending) && wpendPending ==> Pending() == nw
      ensures old(Smooth()) ==> Smooth()
      ensures old(Smooth()) && (!old(wpendPending) ==> nw > 0) && ret <= 0 ==> wpendPending
      ensures old(Smooth()) && (if old(wpendPending) then old(Retryable(RT_APPLICATION_DATA, addr, nw)) else nw > 0) ==>
        Went(env, old(ios), ios, ret)
    {
      hide WithinLimits, AddsUp, SSLBuffer.Contents, SSLBuffer.Valid, BytesOf, SealsAll, Went;
      ghost var from := tot + Pending();
      ghost var mem, at;
      ret, mem, at := DoWrite(RT_APPLICATION_DATA, data[tot..tot + nw], addr);
      ghost var to := if ret > 0 then tot + ret else tot + Pending();
      if records == old(records) {
        SealedNothing(records, data, from, to);
      } else {
        BytesMore(old(records), Plain(RT_APPLICATION_DATA, data[tot..tot + nw], maxSendFragment), RT_APPLICATION_DATA);
      }
    }

    /** Nothing but the transport can stop a write of `n` more bytes from `addr` on. */
    ghost predicate Going(n: nat, addr: int)
      reads this`pendingFlight, this`pendingOffset, this`wpendPending, this`wpendTot, this`wpendBuf, this`wpendType
      reads this`movingBuffer, this`maxSendFragment, writeBuffer
    {
      && Smooth() && n > 0
      && (wpendPending ==> Retryable(RT_APPLICATION_DATA, addr, if n > maxSendFragment then maxSendFragment else n))
    }

    /** Where the loop of ssl3_write_app_data stands with `tot` bytes of `data` counted. */
    ghost predicate Along(run: WriteRun, data: seq<byte>, tot: nat, addr: int)
      reads this
      reads writeBuffer
    {
      && run.from <= tot + Pending() && Sealed(run.records, records, data, run.from, tot + Pending())
      && (|data| < run.from ==> tot == run.first && records == run.records && tot + Pending() == run.from)
      && (run.smooth ==> Smooth())
      && (run.going ==> tot < |data| && Going(|data| - tot, addr) && run.ios <= ios)
      && (run.going && run.paced ==> !wpendPending && PacedTo(env, maxSendFragment, run.first, tot, run.ios, ios))
    }

    /** Where a turn of the loop leaves off. */
    ghost predicate Ended(run: WriteRun, data: seq<byte>, tot: nat, ret: int)
      reads this
      reads writeBuffer
    {
      && Sealed(run.records, records, data, run.from, if ret > 0 then tot + ret else tot + Pending())
      && (ret > 0 ==> !wpendPending && run.from <= tot + ret <= |data|)
      && (|data| < run.from ==> ret == -1 && tot == run.first && records == run.records && tot + Pending() == run.from)
      && (run.smooth ==> Smooth())
      && (run.going ==> (Taking(env, run.ios) ==> ret > 0) && (ret <= 0 ==> ios > 0 && env.write(ios - 1) <= 0))
      && (run.going && run.paced && (ret <= 0 || tot + ret == |data| || partialWrite) ==>
            Paced(env, maxSendFragment, run.first, |data|, run.ios, ios, partialWrite, ret, tot, Pending()))
    }

    /** One turn of the loop of ssl3_write_app_data. */
    method WriteTurn(data: seq<byte>, tot: nat, addr: int, ghost run: WriteRun) returns (ret: int)
      requires Valid() && tot <= |data| && Along(run, data, tot, addr) && (run.paced ==> AllOrNothing(env))
      modifies this`ios, this`accepted, this`seals, this`sealed, this`records, this`fits, this`pendingFlight, this`pendingOffset
      modifies this`wpendPending, this`wpendTot, this`wpendBuf, this`wpendType, this`wpendRet, writeBuffer, writeBuffer.buf
      ensures Valid() && (writeBuffer.buf == null || writeBuffer.buf == old(writeBuffer.buf) || fresh(writeBuffer.buf))
      ensures Ended(run, data, tot, ret) && ret <= |data| - tot
      ensures ret > 0 && tot + ret < |data| && !partialWrite ==> Along(run, data, tot + ret, addr + ret)
    {
      hide WithinLimits, AddsUp, SSLBuffer.Contents, SSLBuffer.Valid, BytesOf, SealsAll, Went, Sealed, Conn.Smooth;
      hide Taking, AllOrNothing, PacedTo, Paced;
      var nw := if |data| - tot > maxSendFragment then maxSendFragment else |data| - tot;
      ghost var before, at, iosBefore, max := records, tot + Pending(), ios, maxSendFragment;
      TakingLater(env, run.ios, ios);
      ret := WriteOne(data, tot, nw, addr);
      SealedJoin(run.records, before, records, data, run.from, at, if ret > 0 then tot + ret else tot + Pending());
      if run.going {
        WentFacts(env, iosBefore, ios, ret);
        if run.paced {
          PacedMore(env, max, run.first, |data|, tot, nw, run.ios, iosBefore, partialWrite, ret, Pending());
        }
      }
    }

    /** The loop of ssl3_write_app_data: everything but the bookkeeping of whole writes. */
    method WriteRecords(data: seq<byte>, addr: int) returns (ret: int)
      requires Valid()
      modifies this`ios, this`accepted, this`seals, this`sealed, this`records, this`fits, this`pendingFlight, this`pendingOffset
      modifies this`wpendPending, this`wpendTot, this`wpendBuf, this`wpendType, this`wpendRet, this`wnum, writeBuffer, writeBuffer.buf
      ensures Valid() && (writeBuffer.buf == null || writeBuffer.buf == old(writeBuffer.buf) || fresh(writeBuffer.buf))
      ensures |data| < old(wnum) ==>
        ret == -1 && wnum == 0 && records == old(records) && Pending() == old(Pending()) && ios == old(ios)
      ensures |data| >= old(wnum) ==>
        Sealed(old(records), records, data, old(SealedSoFar()), if ret > 0 then ret else SealedSoFar())
      ensures ret > 0 ==> wnum == 0 && !wpendPending && old(SealedSoFar()) <= ret <= |data| && (!partialWrite ==> ret == |data|)
      ensures old(wnum) <= |data| < old(SealedSoFar()) ==>
        ret == -1 && wnum == old(wnum) && records == old(records) && Pending() == old(Pending())
      ensures old(Smooth()) ==> Smooth()
      ensures old(wnum) < |data| && old(Going(|data| - wnum, addr + wnum)) ==>
        (Taking(env, old(ios)) ==> ret > 0) && (ret <= 0 ==> ios > 0 && env.write(ios - 1) <= 0)
      ensures old(wnum) < |data| && old(Going(|data| - wnum, addr + wnum)) && !old(wpendPending) && AllOrNothing(env) ==>
        Paced(env, maxSendFragment, old(wnum), |data|, old(ios), ios, partialWrite, ret, wnum, Pending())
    {
      hide WithinLimits, AddsUp, SSLBuffer.Contents, SSLBuffer.Valid, Sealed, SealsAll, AllOrNothing, Taking, PacedTo;
      hide Conn.Going, Conn.Smooth, Conn.Valid, Conn.Conserved, Conn.Retryable, Went, BytesOf, Conn.Along, Conn.Ended, Paced;
      var tot := wnum;
      wnum := 0;
      if |data| < tot {
        return -1;
      }
      ghost var run := WriteRun(records, tot + Pending(), tot, ios, Smooth(),
                                tot < |data| && Going(|data| - tot, addr + tot), !wpendPending && AllOrNothing(env));
      StartAlong(run, data, tot, addr + tot);
      while true
        invariant Valid() && tot <= |data| && wnum == 0 && Along(run, data, tot, addr + tot)
        invariant writeBuffer.buf == null || writeBuffer.buf == old(writeBuffer.buf) || fresh(writeBuffer.buf)
        decreases |data| - tot
      {
        ret := WriteTurn(data, tot, addr + tot, run);
        EndedFacts(run, data, tot, ret);
        if ret <= 0 {
          wnum := tot;
          return;
        }
        if ret == |data| - tot || partialWrite {
          return tot + ret;
        }
        tot := tot + ret;
      }
    }

    lemma StartAlong(run: WriteRun, data: seq<byte>, tot: nat, addr: int)
      requires tot <= |data|
      requires run == WriteRun(records, tot + Pending(), tot, ios, Smooth(), tot < |data| && Going(|data| - tot, addr),
                               !wpendPending && AllOrNothing(env))
      ensures Along(run, data, tot, addr)
    {
      hide Conn.Going, Conn.Smooth, AllOrNothing, BytesOf;
      SealedNothing(records, data, run.from, run.from);
      PacedStart(env, maxSendFragment, tot, ios);
    }

    lemma EndedFacts(run: WriteRun, data: seq<byte>, tot: nat, ret: int)
      requires Ended(run, data, tot, ret)
      ensures Sealed(run.records, records, data, run.from, if ret > 0 then tot + ret else tot + Pending())
      ensures ret > 0 ==> !wpendPending && run.from <= tot + ret <= |data|
      ensures |data| < run.from ==> ret == -1 && tot == run.first && records == run.records && tot + Pending() == run.from
      ensures run.smooth ==> Smooth()
      ensures run.going ==> (Taking(env, run.ios) ==> ret > 0) && (ret <= 0 ==> ios > 0 && env.write(ios - 1) <= 0)
      ensures run.going && run.paced && ret <= 0 ==>
        Paced(env, maxSendFragment, run.first, |data|, run.ios, ios, partialWrite, ret, tot, Pending())
      ensures run.going && run.paced && ret > 0 && (tot + ret == |data| || partialWrite) ==>
        Paced(env, maxSendFragment, run.first, |data|, run.ios, ios, partialWrite, tot + ret, 0, 0)
    {
      hide Conn.Smooth, Sealed, Taking;
    }

    /** Exactly once: finished writes in order, then the part of the current one that is sealed. */
    ghost predicate Tracked()
      reads this
    {
      clean ==> BytesOf(records, RT_APPLICATION_DATA) == done + current && |current| == SealedSoFar()
    }

    /**
      ssl3_write_app_data. As long as every call begins with the bytes sealed for the unfinished
      write, which any retry with the same buffer and a length not shorter than before does, each
      byte is sealed once, in order, and the count returned is the amount sealed for the write.
      Among retries that agree with those bytes, exactly the ones shorter than what was counted
      break this: the call is refused, but the count is forgotten.
     */
    method WriteAppData(data: seq<byte>, addr: int) returns (ret: int)
      requires Valid() && Tracked()
      modifies this, writeBuffer, writeBuffer.buf
      ensures Valid() && Tracked() && (writeBuffer.buf == null || writeBuffer.buf == old(writeBuffer.buf) || fresh(writeBuffer.buf))
      ensures old(writeShutdown) ==> ret == -1 && unchanged(this)
      ensures ret <= |data| && (ret > 0 && !partialWrite ==> ret == |data|)
      ensures old(clean) && !old(writeShutdown) && (old(current) <= data || data <= old(current)) ==>
        && (clean <==> |data| >= old(wnum))
        && (!clean ==> current == old(current) && SealedSoFar() < |current|
                       && BytesOf(records, RT_APPLICATION_DATA) == done + current)
      ensures clean ==> done == if ret > 0 then old(done) + data[..ret] else old(done)
      ensures clean ==> if ret > 0 then current == [] else old(current) <= current && (current <= data || current == old(current))
      ensures !old(writeShutdown) && |data| < old(wnum) ==>
        ret == -1 && wnum == 0 && records == old(records) && Pending() == old(Pending()) && ios == old(ios) && !clean
      ensures !old(writeShutdown) && |data| >= old(wnum) ==>
        Sealed(old(records), records, data, old(SealedSoFar()), if ret > 0 then ret else SealedSoFar())
      ensures old(Smooth()) ==> Smooth()
      ensures !old(writeShutdown) && old(wnum) < |data| && old(Going(|data| - wnum, addr + wnum)) ==>
        (Taking(env, old(ios)) ==> ret > 0) && (ret <= 0 ==> ios > 0 && env.write(ios - 1) <= 0)
      ensures (!old(writeShutdown) && old(wnum) < |data| && old(Going(|data| - wnum, addr + wnum)) && !old(wpendPending)
               && AllOrNothing(env)) ==>
        Paced(env, maxSendFragment, old(wnum), |data|, old(ios), ios, partialWrite, ret, wnum, Pending())
      ensures partialWrite == old(partialWrite) && writeShutdown == old(writeShutdown)
      ensures movingBuffer == old(movingBuffer) && maxSendFragment == old(maxSendFragment)
    {
      hide WithinLimits, AddsUp, SSLBuffer.Contents, SSLBuffer.Valid, BytesOf, Conn.Going, Conn.Smooth, Paced, Taking, AllOrNothing;
      hide Conn.Core, Conn.Conserved, Sealed;
      if writeShutdown {
        return -1;
      }
      ghost var before, soFar, counted := records, SealedSoFar(), wnum;
      ret := WriteRecords(data, addr);
      Account(data, ret, before, soFar, counted);
    }

    /** The account of finished and unfinished writes, brought up to date. */
    ghost method Account(data: seq<byte>, ret: int, before: seq<Plain>, soFar: nat, counted: nat)
      requires clean ==> BytesOf(before, RT_APPLICATION_DATA) == done + current && |current| == soFar
      requires counted <= soFar && (|data| < counted ==> ret == -1 && records == before && SealedSoFar() == soFar - counted)
      requires |data| >= counted ==> Sealed(before, records, data, soFar, if ret > 0 then ret else SealedSoFar())
      requires ret > 0 ==> SealedSoFar() == 0 && soFar <= ret <= |data|
      requires counted <= |data| < soFar ==> ret == -1 && records == before && SealedSoFar() == soFar
      modifies this`done, this`current, this`clean
      ensures Tracked()
      ensures old(clean) && (old(current) <= data || data <= old(current)) ==>
        && (clean <==> |data| >= counted)
        && (!clean ==> current == old(current) && SealedSoFar() < |current|
                       && BytesOf(records, RT_APPLICATION_DATA) == done + current)
      ensures clean ==> done == if ret > 0 then old(done) + data[..ret] else old(done)
      ensures clean ==> if ret > 0 then current == [] else old(current) <= current && (current <= data || current == old(current))
      ensures |data| < counted ==> !clean
    {
      hide BytesOf;
      if clean && current <= data {
        if ret > 0 {
          WholeWrite(done, current, data, ret);
          done, current := done + data[..ret], [];
        } else {
          WholeWrite(done, current, data, SealedSoFar());
          current := data[..SealedSoFar()];
        }
      } else if ret > 0 || SealedSoFar() != soFar {
        clean := false;
      }
    }

    /** ssl3_dispatch_alert, up to the callbacks. */
    method DispatchAlert(alert: seq<byte>, addr: int) returns (ret: int)
      requires Valid() && Tracked() && |alert| == 2
      modifies this, writeBuffer, writeBuffer.buf
      ensures Valid() && Tracked() && (writeBuffer.buf == null || writeBuffer.buf == old(writeBuffer.buf) || fresh(writeBuffer.buf))
      ensures clean == old(clean) && done == old(done) && current == old(current) && wnum == old(wnum)
      ensures ret > 0 && !old(wpendPending) ==> records == old(records) + [Plain(RT_ALERT, alert, maxSendFragment)]
      ensures old(wpendPending) ==> records == old(records) && (old(wpendType) != RT_ALERT ==> ret == -1)
      ensures old(Smooth()) && !old(wpendPending) ==>
        Smooth() && Went(env, old(ios), ios, ret) && records == old(records) + [Plain(RT_ALERT, alert, maxSendFragment)]
    {
      hide WithinLimits, AddsUp, SSLBuffer.Contents, SSLBuffer.Valid, BytesOf;
      ghost var mem, at;
      ret, mem, at := DoWrite(RT_ALERT, alert, addr);
      if records != old(records) {
        BytesMore(old(records), Plain(RT_ALERT, alert, maxSendFragment), RT_APPLICATION_DATA);
      }
    }

    // The pending flight.

    /** add_record_to_flight. */
    method AddRecordToFlight(rtype: byte, data: seq<byte>) returns (ok: bool)
      requires Valid() && |data| <= maxSendFragment
      modifies this`pendingFlight, this`seals, this`sealed, this`records
      ensures Valid() && seals == old(seals) + 1
      ensures ok == SealFits(env, old(seals), rtype, data, |data| + env.overhead)
      ensures ok ==>
        var reply := env.seal(old(seals), rtype, data);
        reply.Some? && sealed == old(sealed) + reply.value && Rest() == old(Rest()) + reply.value
      ensures records == if ok then old(records) + [Plain(rtype, data, maxSendFragment)] else old(records)
    {
      hide WithinLimits, AddsUp, SSLBuffer.Contents, SSLBuffer.Valid, SealFits, SSLBuffer.Fits;
      if pendingFlight.None? {
        pendingFlight := Some([]);
        assert pendingOffset == 0;
      }
      ghost var rest := Rest();
      var out;
      ok, out := Seal(rtype, data, |data| + env.overhead);
      if !ok {
        return;
      }
      assert (pendingFlight.value + out)[pendingOffset..] == rest + out;
      SealedInFlight(accepted, writeBuffer.Contents(), rest, old(sealed), out);
      pendingFlight := Some(pendingFlight.value + out);
    }

    lemma LimitIs()
      requires Valid()
      ensures MIN_FRAGMENT <= maxSendFragment <= MAX_PLAIN_LENGTH
    {
    }

    method AddChunk(chunk: seq<byte>) returns (ok: bool)
      requires Valid() && Tracked() && |chunk| <= maxSendFragment
      modifies this`pendingFlight, this`seals, this`sealed, this`records
      ensures Valid() && Tracked() && seals == old(seals) + 1
      ensures ok == SealFits(env, old(seals), RT_HANDSHAKE, chunk, |chunk| + env.overhead)
      ensures records == if ok then old(records) + [Plain(RT_HANDSHAKE, chunk, maxSendFragment)] else old(records)
      ensures BytesOf(records, RT_APPLICATION_DATA) == old(BytesOf(records, RT_APPLICATION_DATA))
      ensures BytesOf(records, RT_HANDSHAKE) == old(BytesOf(records, RT_HANDSHAKE)) + if ok then chunk else []
      ensures ok ==>
        var reply := env.seal(old(seals), RT_HANDSHAKE, chunk);
        reply.Some? && sealed == old(sealed) + reply.value && Rest() == old(Rest()) + reply.value
    {
      hide WithinLimits, AddsUp, SSLBuffer.Contents, SSLBuffer.Valid, BytesOf, Conn.Valid, SealFits, Conn.Rest;
      BytesMore(records, Plain(RT_HANDSHAKE, chunk, maxSendFragment), RT_HANDSHAKE);
      BytesMore(records, Plain(RT_HANDSHAKE, chunk, maxSendFragment), RT_APPLICATION_DATA);
      ok := AddRecordToFlight(RT_HANDSHAKE, chunk);
    }

    /** ssl3_add_message: the message in as many records as it takes, an empty one in one; the first that fails ends it. */
    method AddMessage(msg: seq<byte>) returns (ok: bool)
      requires Valid() && Tracked()
      modifies this`pendingFlight, this`seals, this`sealed, this`records
      ensures Valid() && Tracked()
      ensures ok <==> Sealable(env, old(seals), Chunks(msg, maxSendFragment)) == |Chunks(msg, maxSendFragment)|
      ensures var chunks := Chunks(msg, maxSendFragment);
        var n := Sealable(env, old(seals), chunks);
        records == old(records) + Plains(chunks[..n], maxSendFragment) && seals == old(seals) + n + if ok then 0 else 1
      ensures BytesOf(records, RT_APPLICATION_DATA) == old(BytesOf(records, RT_APPLICATION_DATA))
      ensures ok ==> BytesOf(records, RT_HANDSHAKE) == old(BytesOf(records, RT_HANDSHAKE)) + msg
    {
      hide WithinLimits, AddsUp, SSLBuffer.Contents, SSLBuffer.Valid, BytesOf, SealFits, Chunks, Sealable, Plains, Cutting, Concat;
      hide Conn.Valid, Conn.Rest, Conn.Tracked;
      LimitIs();
      ghost var all, before, start := Chunks(msg, maxSendFragment), records, seals;
      StartCutting(env, start, all, before, maxSendFragment);
      var rest, first := msg, true;
      ghost var left, n := all, 0;
      while first || rest != []
        invariant Valid() && Tracked() && seals == start + n
        invariant left == if first || rest != [] then Chunks(rest, maxSendFragment) else []
        invariant Cutting(env, start, all, before, maxSendFragment, n, left, records)
        decreases first, |rest|
      {
        var chunk := if |rest| > maxSendFragment then rest[..maxSendFragment] else rest;
        NextChunk(env, seals, rest, maxSendFragment);
        ghost var soFar := records;
        ok := AddChunk(chunk);
        if !ok {
          CutEnds(env, start, all, before, maxSendFragment, n, left, records);
          PlainsBytes(before, all[..n], maxSendFragment);
          return;
        }
        CutMore(env, start, all, before, maxSendFragment, n, left, soFar);
        rest, first, left, n := rest[|chunk|..], false, left[1..], n + 1;
      }
      CutEnds(env, start, all, before, maxSendFragment, n, left, records);
      assert all[..n] == all;
      ChunksExactly(msg, maxSendFragment);
      PlainsBytes(before, all, maxSendFragment);
      ok := true;
    }

    /** ssl3_flush_flight. */
    method FlushFlight() returns (ret: int)
      requires Valid()
      modifies this`ios, this`accepted, this`pendingFlight, this`pendingOffset, writeBuffer
      ensures Valid() && writeBuffer.buf in {old(writeBuffer.buf), null}
      ensures ret == 1 ==> pendingFlight.None?
      ensures ret == 1 && old(pendingFlight).Some? && fits ==> accepted == sealed
      ensures old(pendingFlight).None? ==> ret == 1 && accepted == old(accepted)
      ensures old(pendingFlight).Some? && writeShutdown ==> ret == -1 && accepted == old(accepted)
      ensures !writeShutdown && old(FlightLength()) <= MAX_INT && Taking(env, old(ios)) && Flushes(env) ==> ret == 1
    {
      hide WithinLimits, AddsUp, SSLBuffer.Contents, FlushFrom, Takes, Taking, Flushes;
      if pendingFlight.None? {
        return 1;
      }
      if writeShutdown || |pendingFlight.value| > MAX_INT {
        return -1;
      }
      if writeBuffer.size != 0 {
        FlushSucceeds(env, Memory(), writeBuffer.offset, writeBuffer.size, ios);
        ret := FlushBuffer();
        if ret <= 0 {
          return;
        }
      }
      TakingLater(env, old(ios), ios);
      ret := WriteFlight();
    }

    /** The pending flight from its offset on, once the write buffer is empty. */
    method WriteFlight() returns (ret: int)
      requires Valid() && pendingFlight.Some? && writeBuffer.size == 0
      modifies this`ios, this`accepted, this`pendingFlight, this`pendingOffset
      ensures Valid() && (ret == 1 ==> pendingFlight.None? && (fits ==> accepted == sealed))
      ensures Taking(env, old(ios)) && Flushes(env) ==> ret == 1
    {
      hide WithinLimits, AddsUp, SSLBuffer.Contents, SSLBuffer.Valid, FlushFrom;
      while pendingOffset < |pendingFlight.value|
        invariant Valid() && pendingFlight.Some? && writeBuffer.size == 0 && ios >= old(ios)
        decreases |pendingFlight.value| - pendingOffset
      {
        ghost var rest := Rest();
        var n := BioWrite(|pendingFlight.value| - pendingOffset);
        if n <= 0 {
          return n;
        }
        assert pendingFlight.value[pendingOffset + n..] == rest[n..];
        FlightTaken(accepted, rest, n, sealed);
        accepted := accepted + rest[..n];
        pendingOffset := pendingOffset + n;
      }
      assert Rest() == [];
      AllTaken(accepted, sealed);
      ios := ios + 1;
      if !env.flush(ios - 1) {
        return -1;
      }
      pendingFlight, pendingOffset := None, 0;
      ret := 1;
    }

    ghost function Pending(): nat
      reads this
    {
      if wpendPending && wpendType == RT_APPLICATION_DATA then wpendRet else 0
    }
  }

  /** Between the two logs exactly `data[from..to]` was sealed as application data. */
  ghost predicate Sealed(before: seq<Plain>, after: seq<Plain>, data: seq<byte>, from: nat, to: nat) {
    if from <= to <= |data| then
      BytesOf(after, RT_APPLICATION_DATA) == BytesOf(before, RT_APPLICATION_DATA) + data[from..to]
    else
      from == to && BytesOf(after, RT_APPLICATION_DATA) == BytesOf(before, RT_APPLICATION_DATA)
  }

  lemma SealedNothing(records: seq<Plain>, data: seq<byte>, from: nat, to: nat)
    requires from == to
    ensures Sealed(records, records, data, from, to)
  {
  }

  /** What was sealed for a write so far is a prefix of its data. */
  lemma WholeWrite(done: seq<byte>, current: seq<byte>, data: seq<byte>, to: nat)
    requires current <= data && |current| <= to <= |data|
    ensures done + current + data[|current|..to] == done + data[..to]
  {
    assert data[..to] == current + data[|current|..to];
  }

  /**
    A retry that is shorter than what was already counted is refused, but forgets the count: the
    next call with the whole data seals on from the length of the pending record, if there is
    one, instead of from what was sealed.
   */
  method ShorterRetryRepeats(c: Conn, short: seq<byte>, data: seq<byte>, addr: int) returns (ret: int)
    requires c.Valid() && c.Tracked() && !c.writeShutdown && |short| < c.wnum
    modifies c, c.writeBuffer, c.writeBuffer.buf
    ensures Sealed(old(c.records), c.records, data, old(c.Pending()), if ret > 0 then ret else c.SealedSoFar())
    ensures old(c.Pending()) < old(c.SealedSoFar())
  {
    hide Conn.Valid, Conn.Tracked, Sealed;
    var refused := c.WriteAppData(short, addr);
    ret := c.WriteAppData(data, addr);
  }

  lemma SealedJoin(r0: seq<Plain>, r1: seq<Plain>, r2: seq<Plain>, data: seq<byte>, a: nat, b: nat, c: nat)
    requires Sealed(r0, r1, data, a, b) && Sealed(r1, r2, data, b, c)
    ensures Sealed(r0, r2, data, a, c)
  {
    hide BytesOf;
    if a <= b <= c <= |data| { assert data[a..b] + data[b..c] == data[a..c]; }
  }

  /** One turn of the flush. */
  lemma FlushStep(env: Env, mem: seq<byte>, offset: nat, size: nat, ios: nat, taken: seq<byte>)
    requires offset < TWO_16 && offset + size <= |mem| && size > 0
    ensures var r, n := FlushFrom(env, mem, offset, size, ios), Takes(env, ios, size);
      if n <= 0 then r.(taken := taken + r.taken) == Flush(taken, offset, size, ios + 1, n)
      else
        var next := FlushFrom(env, mem, Moved(offset, n), size - n, ios + 1);
        r.(taken := taken + r.taken) == next.(taken := taken + mem[offset..offset + n] + next.taken)
  {
    hide Takes, Moved;
    var n := Takes(env, ios, size);
    if n <= 0 {
      Regroup(taken, [], [], []);
    } else {
      var next := FlushFrom(env, mem, Moved(offset, n), size - n, ios + 1);
      assert taken + (mem[offset..offset + n] + next.taken) == taken + mem[offset..offset + n] + next.taken;
    }
  }

  lemma FlushEnd(env: Env, mem: seq<byte>, offset: nat, ios: nat, taken: seq<byte>)
    requires offset < TWO_16 && offset <= |mem|
    ensures var r := FlushFrom(env, mem, offset, 0, ios);
      r.(taken := taken + r.taken) == Flush(taken, offset, 0, ios, 1)
  {
  }

  lemma ContentsAre(b: SSLBuffer)
    requires b.Valid() && b.size > 0
    ensures b.buf != null && forall n: nat :: n <= b.size ==> b.Contents()[..n] == b.buf[..][b.offset..b.offset + n]
  {
  }

  // Writes to a transport that takes all or nothing: one call a record.

  /** Records of full length have gone out, one a call, and none of the calls failed. */
  ghost predicate PacedTo(env: Env, max: nat, from: nat, tot: nat, start: nat, ios: nat) {
    start <= ios && tot == from + (ios - start) * max && forall i: nat :: start <= i < ios ==> env.write(i) > 0
  }

  /** How such a write ends: all records out, or the last call failed and its record is pending. */
  ghost predicate Paced(env: Env, max: nat, from: nat, len: nat, start: nat, ios: nat, partialWrite: bool, ret: int,
                        wnum: nat, pending: nat) {
    if ret > 0 then
      && start <= ios && (!partialWrite ==> len <= from + (ios - start) * max)
      && forall i: nat :: start <= i < ios ==> env.write(i) > 0
    else
      && start < ios && env.write(ios - 1) <= 0 && PacedTo(env, max, from, wnum, start, ios - 1)
      && wnum < len && pending == if len - wnum > max then max else len - wnum
  }

  lemma PacedStart(env: Env, max: nat, tot: nat, ios: nat)
    ensures PacedTo(env, max, tot, tot, ios, ios)
  {
  }

  lemma PacedMore(env: Env, max: nat, from: nat, len: nat, tot: nat, nw: nat, start: nat, ios: nat, partialWrite: bool,
                  ret: int, pending: nat)
    requires PacedTo(env, max, from, tot, start, ios) && tot < len && nw == if len - tot > max then max else len - tot
    requires ret > 0 <==> env.write(ios) > 0
    requires ret > 0 ==> ret == nw
    requires ret <= 0 ==> pending == nw
    ensures ret > 0 && nw == max ==> PacedTo(env, max, from, tot + nw, start, ios + 1)
    ensures ret <= 0 || nw == len - tot || partialWrite ==>
      Paced(env, max, from, len, start, ios + 1, partialWrite, ret, tot, pending)
  {
    assert (ios + 1 - start) * max == (ios - start) * max + max;
  }

  lemma TakingLater(env: Env, ios: nat, later: nat)
    ensures ios <= later && Taking(env, ios) ==> Taking(env, later)
  {
  }

  lemma WentFacts(env: Env, ios: nat, ios': nat, ret: int)
    requires Went(env, ios, ios', ret)
    ensures ios < ios' && (Taking(env, ios) ==> ret > 0) && (ret <= 0 ==> env.write(ios' - 1) <= 0)
    ensures AllOrNothing(env) ==> ios' == ios + 1 && (ret > 0 <==> env.write(ios) > 0)
  {
  }

  lemma WindowIs(b: SSLBuffer)
    requires b.Valid()
    ensures b.offset < TWO_16 && b.size < TWO_16
    ensures b.offset + b.size <= if b.buf == null then 0 else b.buf.Length
    ensures (if b.buf == null then [] else b.buf[..])[b.offset..b.offset + b.size] == b.Contents()
  {
  }

  lemma AcceptedMore(a: seq<byte>, b: seq<byte>, n: nat, c: seq<byte>, s: seq<byte>)
    requires n <= |b|
    ensures AddsUp(a, b, c, s) ==> AddsUp(a + b[..n], b[n..], c, s)
  {
    assert b[..n] + b[n..] == b;
    assert a + b[..n] + b[n..] == a + b;
  }

  lemma FlightMoved(a: seq<byte>, rest: seq<byte>, s: seq<byte>)
    ensures AddsUp(a, [], rest, s) ==> AddsUp(a, [] + rest, [], s)
  {
    assert a + [] + rest == a + ([] + rest) + [];
  }

  lemma FlightTaken(a: seq<byte>, c: seq<byte>, n: nat, s: seq<byte>)
    requires n <= |c|
    ensures AddsUp(a, [], c, s) ==> AddsUp(a + c[..n], [], c[n..], s)
  {
    assert c[..n] + c[n..] == c;
    assert a + c[..n] + [] + c[n..] == a + [] + c;
  }

  lemma AllTaken(a: seq<byte>, s: seq<byte>)
    ensures AddsUp(a, [], [], s) ==> a == s
  {
    assert a + [] + [] == a;
  }

  lemma SealedInBuffer(a: seq<byte>, b: seq<byte>, s: seq<byte>, out: seq<byte>)
    ensures AddsUp(a, b, [], s) ==> AddsUp(a, b + out, [], s + out)
  {
    assert a + (b + out) + [] == a + b + [] + out;
  }

  lemma SealedInFlight(a: seq<byte>, b: seq<byte>, c: seq<byte>, s: seq<byte>, out: seq<byte>)
    ensures AddsUp(a, b, c, s) ==> AddsUp(a, b, c + out, s + out)
  {
    assert a + b + (c + out) == a + b + c + out;
  }
}
