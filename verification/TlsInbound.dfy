/** The inbound handshake buffer of a TLS connection: s3_both.cc, with its callers in the record layer. */
module TlsInbound {
  import opened Bits
  import opened ByteString
  import opened TlsOutbound
  import opened TlsMessages

  const RECORD_HEADER_LENGTH: nat := 5  // SSL3_RT_HEADER_LENGTH
  const AD_UNEXPECTED_MESSAGE: byte := 10
  const AD_RECORD_OVERFLOW: byte := 22
  const AD_ILLEGAL_PARAMETER: byte := 47
  const AD_INTERNAL_ERROR: byte := 80
  const AD_NO_RENEGOTIATION: byte := 100

  /** ssl_open_record_t; a V2ClientHello leaves the model. */
  datatype Outcome = Success | Discard | Partial | CloseNotify | Error(alert: byte) | V2Hello

  /** What the input decrypts to: a record, or what else tls_open_record ends with, as after an alert. */
  datatype Record = Opened(rtype: byte, body: seq<byte>) | Ended(outcome: Outcome)

  predicate StartsWith(input: seq<byte>, s: string) {
    |s| <= |input| && forall i :: 0 <= i < |s| ==> s[i] as int == input[i]
  }

  /** The mix-ups with HTTP that get an error of their own. */
  predicate LooksLikeHttp(input: seq<byte>) {
    || StartsWith(input, "GET ") || StartsWith(input, "POST ") || StartsWith(input, "HEAD ")
    || StartsWith(input, "PUT ") || StartsWith(input, "CONNE")
  }

  predicate LooksLikeV2(input: seq<byte>) {
    |input| >= RECORD_HEADER_LENGTH && input[0] >= 0x80 && input[2] == 1 && input[3] == 3
  }

  /** The texts, as bytes; a TLS record of any type is none of them, and no V2ClientHello either. */
  lemma MixUps(input: seq<byte>)
    requires |input| >= 5
    ensures LooksLikeHttp(input) <==>
      || input[..4] == [71, 69, 84, 32] || input[..5] == [80, 79, 83, 84, 32] || input[..5] == [72, 69, 65, 68, 32]
      || input[..4] == [80, 85, 84, 32] || input[..5] == [67, 79, 78, 78, 69]
    ensures 20 <= input[0] <= 23 ==> !LooksLikeHttp(input) && !LooksLikeV2(input)
  {
  }

  class Inbound {
    const server: bool
    var hsBuf: Option<seq<byte>>
    var hasMessage: bool
    var v2HelloDone: bool
    var nullCipher: bool
    ghost var arrived: seq<byte>       // the bodies of all handshake records
    ghost var taken: seq<seq<byte>>    // the messages done with
    ghost var keyChanges: seq<nat>     // how much had arrived when the read keys changed

    ghost predicate Valid()
      reads this
    {
      && AllMessages(taken) && Concat(taken) + Buf() == arrived
      && (hasMessage ==> ParseMessage(Buf()).Message?)
      && forall i :: 0 <= i < |keyChanges| ==> WholeAt(arrived, keyChanges[i])
    }

    constructor (isServer: bool)
      ensures Valid() && Buf() == [] && arrived == [] && taken == [] && keyChanges == [] && server == isServer
    {
      server, hsBuf, hasMessage, v2HelloDone, nullCipher := isServer, None, false, false, true;
      arrived, taken, keyChanges := [], [], [];
    }

    function Buf(): seq<byte>
      reads this
    {
      if hsBuf.Some? then hsBuf.value else []
    }

    /** No complete message waits, and the next one is within the limit. */
    predicate Accepts(limit: nat)
      reads this
    {
      ParseMessage(Buf()).Needs? && ParseMessage(Buf()).bytes <= 4 + limit
    }

    /** The record layer is bypassed to look at a server's first bytes. */
    predicate Bypassed()
      reads this
    {
      server && !v2HelloDone
    }

    /** ssl3_get_message. */
    method GetMessage() returns (msg: Parsed)
      requires Valid()
      modifies this`hasMessage
      ensures Valid() && msg == ParseMessage(Buf()) && hasMessage == msg.Message?
      ensures msg.Message? ==> taken + [msg.raw] <= Messages(arrived)
    {
      hide ParseMessage, Messages;
      msg := ParseMessage(Buf());
      if msg.Message? {
        hasMessage := true;
        NextIs(arrived, taken, Buf());
      }
    }

    /** tls_can_accept_handshake_data: an alert refuses. */
    method CanAccept(limit: nat) returns (alert: Option<byte>)
      ensures alert.None? <==> Accepts(limit)
      ensures alert.Some? ==>
        alert.value == if ParseMessage(Buf()).Message? then AD_INTERNAL_ERROR else AD_ILLEGAL_PARAMETER
    {
      hide ParseMessage;
      var msg := ParseMessage(Buf());
      if msg.Message? {
        return Some(AD_INTERNAL_ERROR);
      }
      if msg.bytes > MESSAGE_HEADER + limit {
        return Some(AD_ILLEGAL_PARAMETER);
      }
      alert := None;
    }

    /** tls_has_unprocessed_handshake_data: `false` exactly between two messages. */
    method HasUnprocessed() returns (b: bool)
      requires Valid()
      ensures !b <==> Buf() == if hasMessage then ParseMessage(Buf()).raw else []
      ensures !b ==> WholeAt(arrived, |arrived|)
    {
      hide ParseMessage, Messages, Leftover;
      var msgLen := 0;
      if hasMessage {
        var msg := ParseMessage(Buf());
        if msg.Message? {
          msgLen := |msg.raw|;
        }
      }
      b := hsBuf.Some? && |hsBuf.value| > msgLen;
      if !b { BetweenMessages(arrived, taken, Buf()); }
    }

    /**
      The checks of tls_open_record around the decryption: no record is opened in front of an
      unread message, and only handshake records inside one.
     */
    method OpenRecord(closed: bool, record: Record, limit: nat) returns (result: Outcome)
      requires Valid() && (record.Ended? ==> !record.outcome.Success?)
      ensures result.Success? <==>
        !closed && Accepts(limit) && record.Opened? && |record.body| <= 16384 && (record.rtype == 22 || Buf() == [])
      ensures closed ==> result == CloseNotify
      ensures !closed && !Accepts(limit) ==> result == Error(if ParseMessage(Buf()).Message? then 80 else 47)
      ensures !closed && Accepts(limit) && record.Ended? ==> result == record.outcome
      ensures !closed && Accepts(limit) && record.Opened? && !result.Success? ==>
        result == Error(if |record.body| > 16384 then 22 else 10)
      ensures result.Success? ==> |Buf()| < MESSAGE_HEADER + limit
      ensures result.Success? && record.rtype != RT_HANDSHAKE ==> Buf() == [] && WholeAt(arrived, |arrived|)
    {
      hide ParseMessage, WholeAt;
      if closed {
        return CloseNotify;
      }
      var alert := CanAccept(limit);
      if alert.Some? {
        return Error(alert.value);
      }
      if record.Ended? {
        return record.outcome;
      }
      if |record.body| > MAX_PLAIN_LENGTH {
        return Error(AD_RECORD_OVERFLOW);
      }
      var unprocessed := HasUnprocessed();
      if record.rtype != RT_HANDSHAKE && unprocessed {
        return Error(AD_UNEXPECTED_MESSAGE);
      }
      result := Success;
    }

    /** ssl3_open_handshake. */
    method OpenHandshake(input: seq<byte>, closed: bool, record: Record, limit: nat) returns (result: Outcome)
      requires Valid() && (record.Ended? ==> !record.outcome.Success?)
      modifies this`hsBuf, this`v2HelloDone, this`arrived
      ensures Valid()
      ensures result.Success? <==>
        && (old(Bypassed()) ==> |input| >= 5 && !LooksLikeHttp(input) && !LooksLikeV2(input))
        && !closed && old(Accepts(limit)) && record.Opened? && record.rtype == 22 && |record.body| <= 16384
      ensures old(Bypassed()) && |input| < 5 ==> result == Partial
      ensures old(Bypassed()) && |input| >= 5 && LooksLikeHttp(input) ==> result == Error(0)
      ensures old(Bypassed()) && |input| >= 5 && !LooksLikeHttp(input) && LooksLikeV2(input) ==> result == V2Hello
      ensures (old(Bypassed()) ==> |input| >= 5 && !LooksLikeHttp(input) && !LooksLikeV2(input)) && !result.Success? ==>
        result == (if closed then CloseNotify
                   else if !old(Accepts(limit)) then Error(if ParseMessage(old(Buf())).Message? then 80 else 47)
                   else if record.Ended? then record.outcome
                   else Error(if |record.body| > 16384 then 22 else 10))
      ensures arrived == old(arrived) + (if result.Success? then record.body else [])
      ensures Buf() == old(Buf()) + (if result.Success? then record.body else [])
      ensures result.Success? ==> |Buf()| < MESSAGE_HEADER + limit + MAX_PLAIN_LENGTH
      ensures Bypassed() <==> old(Bypassed()) && (|input| < 5 || LooksLikeHttp(input) || LooksLikeV2(input))
    {
      hide ParseMessage, AllMessages, LooksLikeHttp, LooksLikeV2;
      if hsBuf.None? {
        hsBuf := Some([]);
      }
      if server && !v2HelloDone {
        if |input| < RECORD_HEADER_LENGTH {
          return Partial;
        }
        if LooksLikeHttp(input) {
          return Error(0);
        }
        if LooksLikeV2(input) {
          return V2Hello;
        }
        v2HelloDone := true;
      }
      result := OpenRecord(closed, record, limit);
      if !result.Success? {
        return;
      }
      if !server && record.rtype == RT_APPLICATION_DATA && nullCipher {
        return Error(AD_UNEXPECTED_MESSAGE);
      }
      if record.rtype != RT_HANDSHAKE {
        return Error(AD_UNEXPECTED_MESSAGE);
      }
      Append(record.body);
    }

    /** ssl3_open_app_data: post-handshake messages go into the same buffer. */
    method OpenAppData(closed: bool, record: Record, limit: nat, tls13: bool) returns (result: Outcome, data: seq<byte>)
      requires Valid() && !nullCipher && (record.Ended? ==> !record.outcome.Success?)
      modifies this`hsBuf, this`arrived
      ensures Valid()
      ensures result.Success? <==>
        !closed && old(Accepts(limit)) && old(Buf()) == [] && record.Opened? && record.rtype == 23 && 0 < |record.body| <= 16384
      ensures data == if result.Success? then record.body else []
      ensures var more := !closed && old(Accepts(limit)) && record.Opened? && record.rtype == 22 && |record.body| <= 16384
                          && (!server || tls13);
        && arrived == old(arrived) + (if more then record.body else [])
        && Buf() == old(Buf()) + (if more then record.body else [])
        && (more ==> result == Discard)
      ensures closed ==> result == CloseNotify
      ensures !closed && !old(Accepts(limit)) ==> result == Error(if ParseMessage(old(Buf())).Message? then 80 else 47)
      ensures !closed && old(Accepts(limit)) && record.Ended? ==> result == record.outcome
      ensures !closed && old(Accepts(limit)) && record.Opened? && record.rtype == 22 && |record.body| <= 16384 ==>
        result == if server && !tls13 then Error(100) else Discard
      ensures !closed && old(Accepts(limit)) && record.Opened? && record.rtype != 22 && !result.Success? ==>
        result == if record.rtype == 23 && record.body == [] && old(Buf()) == [] then Discard
                  else Error(if |record.body| > 16384 then 22 else 10)
    {
      hide ParseMessage, AllMessages;
      data := [];
      result := OpenRecord(closed, record, limit);
      if !result.Success? {
        return;
      }
      if record.rtype == RT_HANDSHAKE {
        if server && !tls13 {
          return Error(AD_NO_RENEGOTIATION), data;
        }
        if hsBuf.None? {
          hsBuf := Some([]);
        }
        Append(record.body);
        return Discard, data;
      }
      if record.rtype != RT_APPLICATION_DATA {
        return Error(AD_UNEXPECTED_MESSAGE), data;
      }
      if record.body == [] {
        return Discard, data;
      }
      data := record.body;
    }

    /** BUF_MEM_append on hs_buf. */
    method Append(body: seq<byte>)
      requires Valid() && hsBuf.Some? && ParseMessage(Buf()).Needs?
      modifies this`hsBuf, this`arrived
      ensures Valid() && arrived == old(arrived) + body && hsBuf == Some(old(Buf()) + body)
    {
      hide ParseMessage, AllMessages, Leftover;
      assert Concat(taken) + (Buf() + body) == arrived + body;
      hsBuf, arrived := Some(Buf() + body), arrived + body;
      assert forall i :: 0 <= i < |keyChanges| ==> arrived[..keyChanges[i]] == old(arrived)[..keyChanges[i]];
    }

    /** ssl3_next_message: without a complete message nothing happens. */
    method NextMessage(inInit: bool)
      requires Valid()
      modifies this`hsBuf, this`hasMessage, this`taken
      ensures Valid() && arrived == old(arrived)
      ensures var msg := ParseMessage(old(Buf()));
        if msg.Needs? then Buf() == old(Buf()) && taken == old(taken) && !hasMessage
        else taken == old(taken) + [msg.raw] && msg.raw + Buf() == old(Buf()) && !hasMessage
      ensures taken <= Messages(arrived)
    {
      hide ParseMessage, IsMessage, Messages, Leftover, Concat;
      var msg := GetMessage();
      if msg.Message? && hsBuf.Some? {
        RawIsMessage(hsBuf.value);
        ConcatMore(taken, msg.raw);
        assert msg.raw + hsBuf.value[|msg.raw|..] == hsBuf.value;
        assert Concat(taken) + hsBuf.value == Concat(taken) + msg.raw + hsBuf.value[|msg.raw|..];
        hsBuf, hasMessage, taken := Some(hsBuf.value[|msg.raw|..]), false, taken + [msg.raw];
        if !inInit && |hsBuf.value| == 0 {
          hsBuf := None;
        }
      }
      TakenInOrder(arrived, taken, Buf());
    }

    /** ssl3_set_read_state: new read keys only between two messages. */
    method SetReadState() returns (ok: bool)
      requires Valid()
      modifies this`nullCipher, this`keyChanges
      ensures Valid() && (ok <==> Buf() == if hasMessage then ParseMessage(Buf()).raw else [])
      ensures keyChanges == if ok then old(keyChanges) + [|arrived|] else old(keyChanges)
    {
      hide ParseMessage, Leftover;
      var unprocessed := HasUnprocessed();
      if unprocessed {
        return false;
      }
      nullCipher, keyChanges := false, keyChanges + [|arrived|];
      ok := true;
    }

    /** ssl3_on_handshake_complete. */
    method OnHandshakeComplete()
      requires Valid() && !hasMessage
      modifies this`hsBuf
      ensures Valid() && Buf() == old(Buf()) && (Buf() == [] ==> hsBuf.None?)
    {
      hide ParseMessage;
      if hsBuf.Some? && |hsBuf.value| == 0 {
        hsBuf := None;
      }
    }
  }

  /** The first `n` bytes of the stream are whole messages. */
  ghost predicate WholeAt(arrived: seq<byte>, n: nat) {
    n <= |arrived| && Leftover(arrived[..n]) == []
  }

  lemma NextIs(arrived: seq<byte>, taken: seq<seq<byte>>, buf: seq<byte>)
    requires AllMessages(taken) && Concat(taken) + buf == arrived && ParseMessage(buf).Message?
    ensures taken + [ParseMessage(buf).raw] <= Messages(arrived)
  {
    hide ParseMessage, Leftover;
    MessagesInFront(taken, buf);
  }

  lemma BetweenMessages(arrived: seq<byte>, taken: seq<seq<byte>>, buf: seq<byte>)
    requires AllMessages(taken) && Concat(taken) + buf == arrived
    requires buf == [] || (ParseMessage(buf).Message? && ParseMessage(buf).raw == buf)
    ensures WholeAt(arrived, |arrived|)
  {
    hide ParseMessage;
    MessagesInFront(taken, buf);
    NothingBehind();
    assert arrived[..|arrived|] == arrived;
    if buf != [] { assert buf[|buf|..] == []; }
  }

  /**
    No message is read under two keys: what arrived before a key change and what arrived after
    it are divided into messages independently.
   */
  lemma NoMessageAcrossKeys(c: Inbound, i: nat)
    requires c.Valid() && i < |c.keyChanges|
    ensures var n := c.keyChanges[i];
      n <= |c.arrived| && Messages(c.arrived) == Messages(c.arrived[..n]) + Messages(c.arrived[n..])
  {
    hide Messages, Leftover, AllMessages, ParseMessage;
    var n := c.keyChanges[i];
    assert WholeAt(c.arrived, n);
    MessagesGrow(c.arrived[..n], c.arrived[n..]);
    assert c.arrived[..n] + c.arrived[n..] == c.arrived;
  }
}
