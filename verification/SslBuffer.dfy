/** SSLBuffer of ssl_buffer.cc: a window into an allocation, with 16-bit offset, size and capacity. */
module SslBuffer {
  import opened Bits

  const ALIGN_PAYLOAD: nat := 8  // SSL3_ALIGN_PAYLOAD

  /** memcpy. */
  method Copy(dst: array<byte>, at: nat, src: seq<byte>)
    requires at + |src| <= dst.Length
    modifies dst
    ensures dst[..] == old(dst[..at]) + src + old(dst[at + |src|..])
  {
    forall i | at <= i < at + |src| { dst[i] := src[i - at]; }
  }

  lemma WindowTail(mem: seq<byte>, a: nat, b: nat, n: nat)
    requires a + n <= b <= |mem|
    ensures mem[a..b][n..] == mem[a + n..b]
  {
  }

  class SSLBuffer {
    var buf: array?<byte>
    var offset: nat
    var size: nat
    var cap: nat

    ghost predicate Valid()
      reads this, buf
    {
      && offset < TWO_16 && size <= cap < TWO_16
      && (if buf == null then offset == size == cap == 0 else offset + cap <= buf.Length)
    }

    /** The bytes written and not yet consumed. */
    ghost function Contents(): (s: seq<byte>)
      requires Valid()
      reads this, buf
      ensures |s| == size
    {
      if buf == null then [] else buf[offset..offset + size]
    }

    /** No consumption can carry the offset past 16 bits before the buffer is empty. */
    ghost predicate Fits()
      reads this
    {
      offset + size <= TWO_16
    }

    constructor ()
      ensures Valid() && Contents() == [] && buf == null
    {
      buf, offset, size, cap := null, 0, 0, 0;
    }

    method Clear()
      modifies this
      ensures Valid() && Contents() == [] && Fits() && buf == null
    {
      buf, offset, size, cap := null, 0, 0, 0;
    }

    /** `slack` is what aligning the new allocation makes of its address, below 8; `junk` is what it contains. */
    method EnsureCap(slack: nat, newCap: nat, junk: byte) returns (ok: bool)
      requires Valid() && slack < ALIGN_PAYLOAD
      modifies this
      ensures Valid() && Contents() == old(Contents()) && ok == (newCap < TWO_16)
      ensures ok ==> cap >= newCap
      ensures !ok ==> unchanged(this)
      ensures buf == old(buf) || fresh(buf)
      ensures ok && old(cap) < newCap ==> fresh(buf)
      ensures ok && old(size) == 0 && buf != old(buf) ==> offset == slack
      ensures buf == old(buf) ==> offset == old(offset)
      ensures ok && old(size) == 0 && buf != null && buf != old(buf) ==> forall k :: 0 <= k < buf.Length ==> buf[k] == junk
    {
      if newCap > 0xffff {
        return false;
      }
      if cap >= newCap {
        return true;
      }
      var newBuf := new byte[newCap + ALIGN_PAYLOAD - 1](_ => junk);
      if buf != null {
        Copy(newBuf, slack, buf[offset..offset + size]);
      }
      buf, offset, cap := newBuf, slack, newCap;
      ok := true;
    }

    /** Bytes copied into remaining(), and DidWrite, which aborts when they do not fit. */
    method Write(bytes: seq<byte>)
      requires Valid() && |bytes| <= cap - size
      modifies this`size, buf
      ensures Valid() && Contents() == old(Contents()) + bytes
      ensures buf != null ==> buf[..offset] == old(buf[..offset])
    {
      if buf != null {
        Copy(buf, offset + size, bytes);
      }
      size := size + |bytes|;
    }

    /** Consume, which aborts when there is less; the new offset is cut to 16 bits. */
    method Consume(len: nat)
      requires Valid() && len <= size
      modifies this`offset, this`size, this`cap
      ensures Valid() && size == old(size) - len && offset == (old(offset) + len) % TWO_16
      ensures Contents() == if old(offset) + len < TWO_16 || len == old(size) then old(Contents())[len..]
                            else old(buf[offset + len - TWO_16..offset + size - TWO_16])
      ensures old(Fits()) ==> Fits() && Contents() == old(Contents())[len..]
    {
      if buf != null { WindowTail(buf[..], offset, offset + size, len); }
      offset := (offset + len) % TWO_16;
      size := size - len;
      cap := cap - len;
    }

    /** DiscardConsumed. */
    method DiscardConsumed()
      requires Valid()
      modifies this
      ensures Valid() && Contents() == old(Contents())
    {
      if size == 0 {
        Clear();
      }
    }
  }

  /** A consumption that wraps the offset and leaves something is possible exactly when the contents end past 2^16. */
  lemma WrapsExactly(offset: nat, size: nat)
    requires offset < TWO_16
    ensures (exists len: nat :: WrapsAt(offset, size, len)) <==> offset + size > TWO_16
  {
    if offset + size > TWO_16 { assert WrapsAt(offset, size, TWO_16 - offset); }
  }

  predicate WrapsAt(offset: nat, size: nat, len: nat) {
    len < size && offset + len >= TWO_16
  }

  /**
    Without that room the offset wraps: a full buffer behind seven bytes of slack, all but five
    of its bytes consumed, continues with the slack, which was never written.
   */
  method OffsetWraps(junk: byte, bytes: seq<byte>) returns (b: SSLBuffer)
    requires |bytes| == 0xffff
    ensures fresh(b) && b.Valid() && b.Contents() == [junk, junk, junk, junk, junk]
  {
    b := new SSLBuffer();
    var ok := b.EnsureCap(7, 0xffff, junk);
    ghost var slack := b.buf[..7];
    b.Write(bytes);
    assert b.buf[..7] == slack;
    b.Consume(0xfffa);
    assert b.Contents() == slack[1..6];
  }
}
