/** From the sender's messages to the receiver's, over the object that buffers them. */
module TlsDelivery {
  import opened Bits
  import opened ByteString
  import opened TlsMessages
  import opened TlsInbound

  /** What stands in front of the stream is its first message, as soon as it is all there. */
  lemma FirstMessage(buf: seq<byte>, rest: seq<byte>, sent: seq<seq<byte>>)
    requires AllMessages(sent) && buf + rest == Concat(sent) && ParseMessage(buf).Message?
    ensures sent != [] && ParseMessage(buf).raw == sent[0]
    ensures buf[|sent[0]|..] + rest == Concat(sent[1..])
  {
    hide ParseMessage, IsMessage;
    var raw := ParseMessage(buf).raw;
    RawIsMessage(buf);
    assert buf == raw + buf[|raw|..];
    MessageStays(raw, buf[|raw|..] + rest);
    assert raw + (buf[|raw|..] + rest) == Concat(sent);
    RawLength(buf);
    MessageStays(sent[0], Concat(sent[1..]));
    assert Concat(sent)[|sent[0]|..] == Concat(sent[1..]);
  }

  lemma RawLength(b: seq<byte>)
    requires ParseMessage(b).Message?
    ensures |ParseMessage(b).raw| > 0
  {
  }

  /** A part of a message asks for no more than the message. */
  lemma NeedsNoMore(buf: seq<byte>, rest: seq<byte>, sent: seq<seq<byte>>, limit: nat)
    requires AllMessages(sent) && buf + rest == Concat(sent) && ParseMessage(buf).Needs?
    requires forall i :: 0 <= i < |sent| ==> |sent[i]| <= 4 + limit
    ensures ParseMessage(buf).bytes <= 4 + limit
  {
    hide BigEndian;
    if |buf| >= 4 {
      assert buf == Concat(sent)[..|buf|];
      assert IsMessage(sent[0]);
      assert sent[0][1..4] == Concat(sent)[1..4] == buf[1..4];
    }
  }

  lemma ConcatTail(parts: seq<seq<byte>>, i: nat)
    requires i < |parts|
    ensures Concat(parts[i..]) == parts[i] + Concat(parts[i + 1..])
  {
    assert parts[i..][1..] == parts[i + 1..];
  }

  lemma MessageTaken(buf: seq<byte>, left: seq<byte>, rest: seq<byte>, sent: seq<seq<byte>>, from: nat, k: nat)
    requires AllMessages(sent) && from <= k <= |sent| && buf + rest == Concat(sent[k..])
    requires ParseMessage(buf).Message? && ParseMessage(buf).raw + left == buf
    ensures k < |sent| && ParseMessage(buf).raw == sent[k] && left + rest == Concat(sent[k + 1..])
    ensures sent[from..k] + [sent[k]] == sent[from..k + 1]
  {
    hide ParseMessage, IsMessage, Concat;
    FirstMessage(buf, rest, sent[k..]);
    assert sent[k..][1..] == sent[k + 1..] && buf[|sent[k]|..] == left;
  }

  /** Every complete message in the buffer is taken. */
  method TakeMessages(c: Inbound, ghost rest: seq<byte>, ghost sent: seq<seq<byte>>, ghost from: nat) returns (ghost k: nat)
    requires c.Valid() && AllMessages(sent) && from <= |sent| && c.Buf() + rest == Concat(sent[from..])
    modifies c`hsBuf, c`hasMessage, c`taken
    ensures c.Valid() && from <= k <= |sent| && c.arrived == old(c.arrived) && !c.hasMessage
    ensures c.taken == old(c.taken) + sent[from..k] && c.Buf() + rest == Concat(sent[k..])
    ensures ParseMessage(c.Buf()).Needs?
  {
    hide ParseMessage, IsMessage, AllMessages, Concat, Messages, Inbound.Valid;
    k := from;
    var msg := c.GetMessage();
    while msg.Message?
      invariant c.Valid() && from <= k <= |sent| && c.arrived == old(c.arrived)
      invariant c.taken == old(c.taken) + sent[from..k] && c.Buf() + rest == Concat(sent[k..])
      invariant msg == ParseMessage(c.Buf()) && c.hasMessage == msg.Message?
      decreases |sent| - k
    {
      ghost var buf := c.Buf();
      c.NextMessage(true);
      MessageTaken(buf, c.Buf(), rest, sent, from, k);
      k := k + 1;
      msg := c.GetMessage();
    }
  }

  /**
    However a sender cuts its messages into records, after the last record has been opened all of
    them have been taken out, in order, and nothing is left.
   */
  method ReceiveAll(c: Inbound, input: seq<byte>, bodies: seq<seq<byte>>, ghost sent: seq<seq<byte>>, limit: nat)
    requires c.Valid() && c.Buf() == [] && AllMessages(sent) && Concat(bodies) == Concat(sent)
    requires forall i :: 0 <= i < |bodies| ==> |bodies[i]| <= 16384
    requires forall i :: 0 <= i < |sent| ==> |sent[i]| <= 4 + limit
    requires c.Bypassed() ==> |input| >= 5 && !LooksLikeHttp(input) && !LooksLikeV2(input)
    modifies c
    ensures c.Valid() && c.taken == old(c.taken) + sent && c.Buf() == [] && c.arrived == old(c.arrived) + Concat(sent)
  {
    hide ParseMessage, IsMessage, Concat, Inbound.Valid, LooksLikeHttp, LooksLikeV2;
    ghost var k := 0;
    NothingYet(c, bodies, sent);
    for i := 0 to |bodies|
      invariant c.Valid() && k <= |sent| && ParseMessage(c.Buf()).Needs?
      invariant c.taken == old(c.taken) + sent[..k] && c.Buf() + Concat(bodies[i..]) == Concat(sent[k..])
      invariant c.arrived + Concat(bodies[i..]) == old(c.arrived) + Concat(sent)
      invariant c.Bypassed() ==> |input| >= 5 && !LooksLikeHttp(input) && !LooksLikeV2(input)
    {
      ConcatTail(bodies, i);
      NeedsNoMore(c.Buf(), Concat(bodies[i..]), sent[k..], limit);
      ghost var buf, rest := c.Buf(), Concat(bodies[i + 1..]);
      assert buf + (bodies[i] + rest) == buf + bodies[i] + rest;
      var result := c.OpenHandshake(input, false, Opened(22, bodies[i]), limit);
      ghost var next := TakeMessages(c, rest, sent, k);
      assert sent[..next] == sent[..k] + sent[k..next];
      k := next;
    }
    Finished(c.Buf(), sent[k..], bodies[|bodies|..]);
    assert sent[..k] == sent;
  }

  lemma NothingYet(c: Inbound, bodies: seq<seq<byte>>, sent: seq<seq<byte>>)
    requires c.Buf() == [] && Concat(bodies) == Concat(sent)
    ensures ParseMessage(c.Buf()).Needs? && bodies[0..] == bodies && sent[0..] == sent
    ensures c.Buf() + Concat(bodies[0..]) == Concat(sent[0..])
  {
    hide Concat;
    assert [] + Concat(bodies) == Concat(bodies);
  }

  /** An incomplete message is no stream of messages. */
  lemma Finished(buf: seq<byte>, sent: seq<seq<byte>>, none: seq<seq<byte>>)
    requires none == [] && buf + Concat(none) == Concat(sent) && AllMessages(sent) && ParseMessage(buf).Needs?
    ensures sent == [] && buf == [] && Concat(none) == []
  {
    hide ParseMessage;
    assert buf + [] == buf;
    if sent != [] { MessageStays(sent[0], Concat(sent[1..])); }
  }
}
