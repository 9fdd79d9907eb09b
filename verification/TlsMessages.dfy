/** Handshake messages in the byte stream of a TLS connection, section 7.4 of RFC 5246. */
module TlsMessages {
  import opened Bits
  import opened ByteString
  import opened TlsOutbound

  const MESSAGE_HEADER: nat := 4

  /** The first message, or how many bytes the buffer must hold at least. */
  datatype Parsed = Message(mtype: byte, body: seq<byte>, raw: seq<byte>) | Needs(bytes: nat)

  /** parse_message. */
  function ParseMessage(b: seq<byte>): (r: Parsed)
    ensures r.Message? ==> r.raw <= b && |r.raw| == MESSAGE_HEADER + |r.body| && r.raw[MESSAGE_HEADER..] == r.body
    ensures r.Needs? ==> |b| < r.bytes
  {
    if |b| < MESSAGE_HEADER then Needs(MESSAGE_HEADER)
    else
      var end := MESSAGE_HEADER + BigEndian(b[1..4]);
      if |b| < end then Needs(end) else Message(b[0], b[4..end], b[..end])
  }

  /** A message as ssl3_init_message and ssl3_finish_message lay it out. */
  function PutMessage(mtype: byte, body: seq<byte>): seq<byte> {
    [mtype] + PutBig(|body|, 3) + body
  }

  predicate IsMessage(m: seq<byte>) {
    ParseMessage(m).Message? && ParseMessage(m).raw == m
  }

  predicate AllMessages(ms: seq<seq<byte>>) {
    forall i :: 0 <= i < |ms| ==> IsMessage(ms[i])
  }

  /** What was laid out is parsed back, whatever follows it. */
  lemma MessageRoundTrip(mtype: byte, body: seq<byte>, t: seq<byte>)
    requires |body| < TWO_24
    ensures ParseMessage(PutMessage(mtype, body) + t) == Message(mtype, body, PutMessage(mtype, body))
    ensures IsMessage(PutMessage(mtype, body))
  {
    hide Pow2, BigEndian, PutBig;
    Pow2Of24();
    BigRoundTrip(|body|, 3);
    var m := PutMessage(mtype, body);
    assert m[1..4] == PutBig(|body|, 3) && m[4..] == body && m + [] == m;
    assert (m + t)[1..4] == m[1..4] && (m + t)[4..|m|] == body && (m + t)[..|m|] == m;
  }

  /** Only laid out messages parse. */
  lemma MessageIsPut(m: seq<byte>)
    requires IsMessage(m)
    ensures m == PutMessage(ParseMessage(m).mtype, ParseMessage(m).body) && |ParseMessage(m).body| < TWO_24
  {
    hide Pow2, BigEndian, PutBig;
    Pow2Of24();
    var len := m[1..4];
    BigEndianBound(len);
    BigRoundTrip(BigEndian(len), 3);
    BigEndianInjective(PutBig(BigEndian(len), 3), len);
    assert m == [m[0]] + len + m[4..];
  }

  /** More bytes behind a message do not change it. */
  lemma MessageStays(m: seq<byte>, t: seq<byte>)
    requires IsMessage(m)
    ensures ParseMessage(m + t).Message? && ParseMessage(m + t).raw == m
  {
    hide BigEndian;
    assert (m + t)[1..4] == m[1..4] && (m + t)[..|m|] == m;
  }

  lemma RawIsMessage(b: seq<byte>)
    requires ParseMessage(b).Message?
    ensures IsMessage(ParseMessage(b).raw)
  {
    hide BigEndian;
    var raw := ParseMessage(b).raw;
    assert raw[1..4] == b[1..4] && raw[..|raw|] == raw;
  }

  /** The complete messages a stream starts with. */
  function Messages(b: seq<byte>): seq<seq<byte>>
    decreases |b|
  {
    var p := ParseMessage(b);
    if p.Needs? then [] else [p.raw] + Messages(b[|p.raw|..])
  }

  /** What the stream holds behind them. */
  function Leftover(b: seq<byte>): seq<byte>
    decreases |b|
  {
    var p := ParseMessage(b);
    if p.Needs? then b else Leftover(b[|p.raw|..])
  }

  /** The stream is its messages, and an incomplete one. */
  lemma {:induction false} MessagesRebuild(b: seq<byte>)
    ensures Concat(Messages(b)) + Leftover(b) == b
    ensures AllMessages(Messages(b)) && ParseMessage(Leftover(b)).Needs?
    decreases |b|
  {
    hide ParseMessage, IsMessage, Concat;
    var p := ParseMessage(b);
    if p.Message? {
      var rest := b[|p.raw|..];
      RawIsMessage(b);
      MessagesRebuild(rest);
      OneMore(p.raw, Messages(rest), Leftover(rest));
    } else {
      ConcatNothing(b);
    }
  }

  lemma ConcatNothing(t: seq<byte>)
    ensures Concat([]) + t == t
  {
  }

  lemma OneMore(m: seq<byte>, ms: seq<seq<byte>>, t: seq<byte>)
    ensures Concat([m] + ms) + t == m + (Concat(ms) + t)
  {
    assert ([m] + ms)[1..] == ms;
  }

  /** Messages in front of a stream are its first messages: no other division exists. */
  lemma {:induction false} MessagesInFront(ms: seq<seq<byte>>, rest: seq<byte>)
    requires AllMessages(ms)
    ensures Messages(Concat(ms) + rest) == ms + Messages(rest)
    ensures Leftover(Concat(ms) + rest) == Leftover(rest)
  {
    hide ParseMessage, IsMessage, Concat;
    if ms == [] {
      ConcatNothing(rest);
    } else {
      var b, t := Concat(ms) + rest, Concat(ms[1..]) + rest;
      assert ms == [ms[0]] + ms[1..];
      OneMore(ms[0], ms[1..], rest);
      MessageStays(ms[0], t);
      assert b[|ms[0]|..] == t;
      MessagesInFront(ms[1..], rest);
    }
  }

  /** More bytes only add messages: how the stream was cut into records does not matter. */
  lemma MessagesGrow(a: seq<byte>, more: seq<byte>)
    ensures Messages(a) <= Messages(a + more)
    ensures Leftover(a) == [] ==>
      Messages(a + more) == Messages(a) + Messages(more) && Leftover(a + more) == Leftover(more)
  {
    hide ParseMessage, Messages, Leftover;
    MessagesRebuild(a);
    assert a + more == Concat(Messages(a)) + (Leftover(a) + more);
    MessagesInFront(Messages(a), Leftover(a) + more);
    if Leftover(a) == [] { assert Leftover(a) + more == more; }
  }

  /** With `taken` taken out of a stream and `buf` left over, `taken` are its first messages. */
  lemma TakenInOrder(arrived: seq<byte>, taken: seq<seq<byte>>, buf: seq<byte>)
    requires AllMessages(taken) && Concat(taken) + buf == arrived
    ensures taken <= Messages(arrived)
    ensures ParseMessage(buf).Needs? ==> taken == Messages(arrived) && buf == Leftover(arrived)
  {
    hide ParseMessage;
    MessagesInFront(taken, buf);
  }

  lemma {:induction false} PrefixBytes(records: seq<Plain>, k: nat)
    requires k <= |records|
    ensures BytesOf(records[..k], RT_HANDSHAKE) <= BytesOf(records, RT_HANDSHAKE)
    decreases |records|
  {
    if k < |records| {
      var front := records[..|records| - 1];
      assert front[..k] == records[..k];
      PrefixBytes(front, k);
    } else {
      assert records[..k] == records;
    }
  }

  /**
    From sender to receiver: of the messages queued in the records, those taken out after the
    first `k` records are a prefix, and all of them once the last record has been read.
   */
  lemma DeliveredInOrder(records: seq<Plain>, sent: seq<seq<byte>>, k: nat, taken: seq<seq<byte>>, buf: seq<byte>)
    requires AllMessages(sent) && BytesOf(records, RT_HANDSHAKE) == Concat(sent) && k <= |records|
    requires AllMessages(taken) && Concat(taken) + buf == BytesOf(records[..k], RT_HANDSHAKE)
    ensures taken <= sent
    ensures k == |records| && ParseMessage(buf).Needs? ==> taken == sent && buf == []
  {
    hide ParseMessage, Messages, Leftover, BytesOf;
    PrefixBytes(records, k);
    var arrived, all := Concat(taken) + buf, Concat(sent);
    var more := all[|arrived|..];
    TakenInOrder(arrived, taken, buf);
    MessagesGrow(arrived, more);
    assert arrived + more == all;
    NothingBehind();
    assert sent + [] == sent && all + [] == all;
    MessagesInFront(sent, []);
    if k == |records| { assert records[..k] == records; }
  }

  lemma NothingBehind()
    ensures Messages([]) == [] && Leftover([]) == []
  {
  }
}
