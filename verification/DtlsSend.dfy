/** The sending half of d1_both.cc: the outgoing flight, packed into datagrams of at most the MTU. */
module DtlsSend {
  import opened Bits
  import opened HandshakeFragment
  import opened DtlsFlight

  const MIN_MTU: nat := 228       // kMinMTU
  const DEFAULT_MTU: nat := 1472  // kDefaultMTU
  const MT_CCS: byte := 1

  /** DTLS_OUTGOING_MESSAGE. */
  datatype OutMsg = OutMsg(data: seq<byte>, epoch: nat, isCcs: bool)

  /** The plaintext of a record, before it is sealed. */
  datatype Record = Record(rtype: byte, payload: seq<byte>, epoch: nat)

  /** A datagram that was written, with the MTU of the moment. */
  datatype Packet = Packet(records: seq<Record>, length: nat, mtu: nat)

  /** dtls_seal_prefix_len and dtls_max_seal_overhead of one epoch's AEAD. */
  datatype Aead = Aead(prefix: nat, overhead: nat)

  /** The answers of the AEAD (the expansion of each sealing, or a failure) and of the transport. */
  datatype Env = Env(current: Aead, previous: Aead, seal: nat -> Option<nat>, write: nat -> int, flushed: bool,
                     noQuery: bool, queryMtu: int)

  /** The MTU dtls1_update_mtu leaves: one below the minimum is replaced, unless asking is forbidden. */
  function NewMtu(mtu: nat, env: Env): (r: nat)
    ensures mtu >= 228 || env.noQuery ==> r == mtu
    ensures mtu < 228 && !env.noQuery ==> r == if 228 <= env.queryMtu <= 0x4000_0000 then env.queryMtu else 1472
  {
    if mtu >= MIN_MTU || env.noQuery then mtu
    else if MIN_MTU <= env.queryMtu <= 0x4000_0000 then env.queryMtu
    else DEFAULT_MTU
  }

  datatype PacketResult = Written | Blocked(bioRet: int) | Failed

  datatype SealResult = SealError | SealNoProgress | SealPartial | SealSuccess

  /** The AEADs never fail, and every message belongs to the current or the previous epoch. */
  ghost predicate Healthy(outgoing: seq<OutMsg>, wEpoch: nat, env: Env) {
    && (forall i :: 0 <= i < |outgoing| ==> EpochOk(outgoing[i], wEpoch))
    && (forall n: nat :: env.seal(n).Some?)
    && env.current.prefix <= env.current.overhead && env.previous.prefix <= env.previous.overhead
  }

  ghost predicate AllWritten(env: Env) {
    env.flushed && forall n: nat :: env.write(n) > 0
  }

  predicate EpochOk(msg: OutMsg, wEpoch: nat) {
    msg.epoch == wEpoch || (wEpoch >= 1 && msg.epoch == wEpoch - 1)
  }

  /** One byte of a message fits into a packet of `size` bytes. */
  predicate Room(size: nat, env: Env) {
    HM_HEADER_LENGTH + 1 + env.current.overhead <= size && HM_HEADER_LENGTH + 1 + env.previous.overhead <= size
  }

  /** `payload` is a fragment of a queued message, under that message's number. */
  ghost predicate IsFragment(queued: seq<Msg>, payload: seq<byte>) {
    exists k: nat, off: nat, todo: nat :: IsFragmentAt(queued, payload, k, off, todo)
  }

  ghost predicate IsFragmentAt(queued: seq<Msg>, payload: seq<byte>, k: nat, off: nat, todo: nat) {
    && k < |queued| && |queued[k].body| < TWO_24 && off + todo <= |queued[k].body|
    && payload == FragmentBytes(queued[k], k % TWO_16, off, todo)
  }

  /** The entry is a ChangeCipherSpec or the queued message its number says. */
  ghost predicate InQueue(queued: seq<Msg>, it: Item) {
    it.Handshake? ==> exists k: nat :: IsQueued(queued, it, k)
  }

  ghost predicate IsQueued(queued: seq<Msg>, it: Item, k: nat) {
    it.Handshake? && k < |queued| && queued[k] == it.m && it.seqNum == k % TWO_16
  }

  /** The buffered messages are the entries. */
  ghost predicate Represents(outgoing: seq<OutMsg>, items: seq<Item>) {
    && |outgoing| == |items|
    && forall i :: 0 <= i < |items| ==> RepresentsItem(outgoing[i], items[i])
  }

  ghost predicate RepresentsItem(msg: OutMsg, it: Item) {
    ItemOk(it) && msg.isCcs == it.Ccs? && (it.Handshake? ==> msg.data == Raw(it.m, it.seqNum))
  }

  ghost predicate AllQueued(queued: seq<Msg>, items: seq<Item>) {
    forall i :: 0 <= i < |items| ==> InQueue(queued, items[i])
  }

  ghost predicate PacketOk(queued: seq<Msg>, p: Packet) {
    p.length <= p.mtu && forall r :: 0 <= r < |p.records| ==> RecordOk(queued, p.records[r])
  }

  ghost predicate RecordOk(queued: seq<Msg>, r: Record) {
    if r.rtype == RT_HANDSHAKE then IsFragment(queued, r.payload)
    else r.rtype == RT_CHANGE_CIPHER_SPEC && r.payload == [MT_CCS]
  }

  ghost predicate WireOk(queued: seq<Msg>, wire: seq<Packet>) {
    forall p :: 0 <= p < |wire| ==> PacketOk(queued, wire[p])
  }

  /** The record a cut is sent as. */
  ghost predicate IsRecord(outgoing: seq<OutMsg>, items: seq<Item>, cut: Cut, r: Record)
    requires |outgoing| == |items| && CutOk(items, cut)
  {
    var it := items[cut.at.written];
    r == match it
         case Ccs => Record(RT_CHANGE_CIPHER_SPEC, [MT_CCS], outgoing[cut.at.written].epoch)
         case Handshake(m, seqNum) =>
           Record(RT_HANDSHAKE, FragmentBytes(m, seqNum, cut.at.offset, cut.todo), outgoing[cut.at.written].epoch)
  }

  /** The records carry the cuts, one each. */
  ghost predicate Records(outgoing: seq<OutMsg>, items: seq<Item>, cuts: seq<Cut>, records: seq<Record>) {
    && |outgoing| == |items| && |cuts| == |records|
    && forall k :: 0 <= k < |cuts| ==> CutOk(items, cuts[k]) && IsRecord(outgoing, items, cuts[k], records[k])
  }

  /** The records of some packets, in order. */
  function RecordsOf(packets: seq<Packet>): seq<Record> {
    if packets == [] then [] else RecordsOf(packets[..|packets| - 1]) + packets[|packets| - 1].records
  }

  // What the AEAD's answers make of the next packet.

  /** Sealing adds at most the overhead. */
  function SealedLength(inLen: nat, expansion: nat, overhead: nat): (r: nat)
    ensures inLen <= r <= inLen + overhead
  {
    inLen + if expansion < overhead then expansion else overhead
  }

  function AeadOf(msg: OutMsg, wEpoch: nat, env: Env): Aead {
    if wEpoch >= 1 && msg.epoch == wEpoch - 1 then env.previous else env.current
  }

  datatype Attempt = Fails | NoRoom | Seals(todo: nat, len: nat)

  /** One fragment at cursor `c`, with `room` bytes left in the packet. */
  function Try(outgoing: seq<OutMsg>, items: seq<Item>, wEpoch: nat, env: Env, c: Cursor, room: nat, call: nat): (r: Attempt)
    requires |outgoing| == |items| && CursorOk(items, c) && c.written < |items|
    ensures r.Seals? ==> r.len <= room && CutOk(items, Cut(c, r.todo))
  {
    var msg, left := outgoing[c.written], |BodyOf(items[c.written])| - c.offset;
    var aead := AeadOf(msg, wEpoch, env);
    var header := if items[c.written].Ccs? then 1 else HM_HEADER_LENGTH;
    var least := if items[c.written].Ccs? then 1 else HM_HEADER_LENGTH + 1;
    if !EpochOk(msg, wEpoch) then Fails
    else if room < least + aead.overhead || (items[c.written].Handshake? && room < aead.prefix) then NoRoom
    else
      var todo := if left > room - header - aead.overhead then room - header - aead.overhead else left;
      if env.seal(call).None? || (items[c.written].Handshake? && header + todo > room - aead.prefix) then Fails
      else Seals(todo, SealedLength(header + todo, env.seal(call).value, aead.overhead))
  }

  /** A fragment is an error exactly for an epoch long gone, a failing AEAD, or a prefix longer than the overhead. */
  lemma FailsExactly(outgoing: seq<OutMsg>, items: seq<Item>, wEpoch: nat, env: Env, c: Cursor, room: nat, call: nat)
    requires |outgoing| == |items| && CursorOk(items, c) && c.written < |items|
    ensures var msg, it := outgoing[c.written], items[c.written];
      var aead, left := AeadOf(msg, wEpoch, env), |BodyOf(it)| - c.offset;
      var roomy := if it.Ccs? then 1 + aead.overhead <= room
                   else HM_HEADER_LENGTH + 1 + aead.overhead <= room && aead.prefix <= room;
      Try(outgoing, items, wEpoch, env, c, room, call).Fails? <==>
        || (msg.epoch != wEpoch && !(wEpoch >= 1 && msg.epoch == wEpoch - 1))
        || (roomy && env.seal(call).None?)
        || (roomy && it.Handshake? && aead.prefix > aead.overhead && HM_HEADER_LENGTH + left > room - aead.prefix)
  {
  }

  /**
    A fragment is sealed exactly when its epoch is the current one or the one before, the AEAD does
    not fail, and a byte of it fits; it takes all that is left of the message or fills the room.
   */
  lemma SealsExactly(outgoing: seq<OutMsg>, items: seq<Item>, wEpoch: nat, env: Env, c: Cursor, room: nat, call: nat)
    requires |outgoing| == |items| && CursorOk(items, c) && c.written < |items|
    ensures var r := Try(outgoing, items, wEpoch, env, c, room, call);
      var msg, it := outgoing[c.written], items[c.written];
      var aead := if msg.epoch == wEpoch then env.current else env.previous;
      var left := if it.Ccs? then 0 else |it.m.body| - c.offset;
      var known := msg.epoch == wEpoch || msg.epoch + 1 == wEpoch;
      var roomy := if it.Ccs? then 1 + aead.overhead <= room else 13 + aead.overhead <= room && aead.prefix <= room;
      var todo := if it.Handshake? && left > room - 12 - aead.overhead then room - 12 - aead.overhead else left;
      var plain := if it.Ccs? then 1 else 12 + todo;
      && (r.NoRoom? <==> known && !roomy)
      && (r.Seals? <==> known && roomy && env.seal(call).Some? && (it.Handshake? ==> plain <= room - aead.prefix))
      && (r.Seals? ==> r.todo == todo
                       && r.len == plain + if env.seal(call).value < aead.overhead then env.seal(call).value else aead.overhead)
  {
  }

  /** Not one byte of the next entry fits into the room. */
  predicate NoMore(outgoing: seq<OutMsg>, items: seq<Item>, wEpoch: nat, env: Env, c: Cursor, room: nat) {
    |outgoing| == |items| && CursorOk(items, c) && (c.written < |items| ==> Try(outgoing, items, wEpoch, env, c, room, 0).NoRoom?)
  }

  /** A packet is full when a fragment does not fit, or is only a part of its message. */
  lemma NoMoreAfter(outgoing: seq<OutMsg>, items: seq<Item>, wEpoch: nat, env: Env, c: Cursor, room: nat, call: nat)
    requires |outgoing| == |items| && CursorOk(items, c) && c.written < |items|
    ensures var first := Try(outgoing, items, wEpoch, env, c, room, call);
      && (first.NoRoom? ==> NoMore(outgoing, items, wEpoch, env, c, room))
      && (first.Seals? ==> var c' := Advance(items, Cut(c, first.todo));
            c'.written == c.written ==> NoMore(outgoing, items, wEpoch, env, c', room - first.len))
  {
  }

  /** How many records of the packet that starts at `c` are sealed before the first error; None without one. */
  function FirstError(outgoing: seq<OutMsg>, items: seq<Item>, wEpoch: nat, env: Env, c: Cursor, room: nat, call: nat)
      : Option<nat>
    requires |outgoing| == |items| && CursorOk(items, c)
    decreases |items| - c.written
  {
    if c.written == |items| then None
    else
      match Try(outgoing, items, wEpoch, env, c, room, call)
      case Fails => Some(0)
      case NoRoom => None
      case Seals(todo, len) =>
        if c.offset + todo < |BodyOf(items[c.written])| then None
        else Later(1, FirstError(outgoing, items, wEpoch, env, Cursor(c.written + 1, 0), room - len, call + 1))
  }

  /** An error after `n` more records. */
  function Later(n: nat, error: Option<nat>): Option<nat> {
    if error.None? then None else Some(n + error.value)
  }

  /** The first fragment decides, or passes on to the next entry. */
  lemma ErrorStep(outgoing: seq<OutMsg>, items: seq<Item>, wEpoch: nat, env: Env, c: Cursor, room: nat, call: nat, n: nat)
    requires |outgoing| == |items| && CursorOk(items, c) && c.written < |items|
    ensures var first := Try(outgoing, items, wEpoch, env, c, room, call);
      var error := Later(n, FirstError(outgoing, items, wEpoch, env, c, room, call));
      match first
      case Fails => error == Some(n)
      case NoRoom => error == None
      case Seals(todo, len) =>
        if Advance(items, Cut(c, todo)).written == c.written then error == None
        else error == Later(n + 1, FirstError(outgoing, items, wEpoch, env, Cursor(c.written + 1, 0), room - len, call + 1))
  {
    hide Try;
  }

  lemma NoEntryLeft(outgoing: seq<OutMsg>, items: seq<Item>, wEpoch: nat, env: Env, c: Cursor, room: nat, call: nat)
    requires |outgoing| == |items| && CursorOk(items, c) && c.written == |items|
    ensures FirstError(outgoing, items, wEpoch, env, c, room, call) == None
  {
  }

  lemma NeverLater(n: nat)
    ensures Later(n, None) == None
  {
  }

  lemma NotLater(error: Option<nat>)
    ensures Later(0, error) == error
  {
  }

  lemma RecordsOk(outgoing: seq<OutMsg>, items: seq<Item>, queued: seq<Msg>, cuts: seq<Cut>, records: seq<Record>)
    requires Records(outgoing, items, cuts, records) && AllQueued(queued, items) && Represents(outgoing, items)
    ensures forall r :: 0 <= r < |records| ==> RecordOk(queued, records[r])
  {
    forall r | 0 <= r < |records|
      ensures RecordOk(queued, records[r])
    {
      var cut := cuts[r];
      assert CutOk(items, cut) && IsRecord(outgoing, items, cut, records[r]);
      var it := items[cut.at.written];
      assert InQueue(queued, it) && RepresentsItem(outgoing[cut.at.written], it);
      if it.Handshake? {
        var k: nat :| IsQueued(queued, it, k);
        assert IsFragmentAt(queued, records[r].payload, k, cut.at.offset, cut.todo);
      }
    }
  }

  lemma SameCount(outgoing: seq<OutMsg>, items: seq<Item>, cuts: seq<Cut>, records: seq<Record>)
    requires Records(outgoing, items, cuts, records)
    ensures |cuts| == |records|
  {
  }

  // Growing histories.

  lemma MoreQueued(queued: seq<Msg>, m: Msg, items: seq<Item>, wire: seq<Packet>)
    requires AllQueued(queued, items) && WireOk(queued, wire)
    ensures AllQueued(queued + [m], items) && WireOk(queued + [m], wire)
  {
    forall i | 0 <= i < |items| && items[i].Handshake?
      ensures InQueue(queued + [m], items[i])
    {
      assert InQueue(queued, items[i]);
      var k: nat :| IsQueued(queued, items[i], k);
      assert IsQueued(queued + [m], items[i], k);
    }
    forall p | 0 <= p < |wire|
      ensures PacketOk(queued + [m], wire[p])
    {
      assert PacketOk(queued, wire[p]);
      forall r | 0 <= r < |wire[p].records|
        ensures RecordOk(queued + [m], wire[p].records[r])
      {
        assert RecordOk(queued, wire[p].records[r]);
        if wire[p].records[r].rtype == RT_HANDSHAKE { FragmentStays(queued, m, wire[p].records[r].payload); }
      }
    }
  }

  lemma FragmentStays(queued: seq<Msg>, m: Msg, payload: seq<byte>)
    requires IsFragment(queued, payload)
    ensures IsFragment(queued + [m], payload)
  {
    var k: nat, off: nat, todo: nat :| IsFragmentAt(queued, payload, k, off, todo);
    assert IsFragmentAt(queued + [m], payload, k, off, todo);
  }

  lemma FlightGrows(outgoing: seq<OutMsg>, items: seq<Item>, queued: seq<Msg>, msg: OutMsg, it: Item)
    requires Represents(outgoing, items) && AllQueued(queued, items) && RepresentsItem(msg, it) && InQueue(queued, it)
    ensures Represents(outgoing + [msg], items + [it]) && AllQueued(queued, items + [it])
  {
    hide RepresentsItem, InQueue;
    forall i | 0 <= i < |items| + 1
      ensures RepresentsItem((outgoing + [msg])[i], (items + [it])[i]) && InQueue(queued, (items + [it])[i])
    {
      if i < |items| { assert RepresentsItem(outgoing[i], items[i]) && InQueue(queued, items[i]); }
    }
  }

  lemma NewestQueued(queued: seq<Msg>, m: Msg, it: Item)
    requires it == Handshake(m, |queued| % TWO_16)
    ensures InQueue(queued + [m], it)
  {
    assert IsQueued(queued + [m], it, |queued|);
  }

  lemma CursorGrows(items: seq<Item>, it: Item, c: Cursor)
    requires CursorOk(items, c)
    ensures CursorOk(items + [it], c)
  {
  }

  lemma EntryAt(outgoing: seq<OutMsg>, items: seq<Item>, i: nat)
    requires Represents(outgoing, items) && i < |items|
    ensures RepresentsItem(outgoing[i], items[i])
  {
  }

  lemma {:induction false} LeadsGrow(items: seq<Item>, it: Item, from: Cursor, cuts: seq<Cut>, to: Cursor)
    requires Leads(items, from, cuts, to)
    ensures Leads(items + [it], from, cuts, to)
    decreases |cuts|
  {
    if cuts != [] { LeadsGrow(items, it, Advance(items, cuts[0]), cuts[1..], to); }
  }

  lemma EmptyFlight(queued: seq<Msg>)
    ensures Represents([], []) && AllQueued(queued, []) && Leads([], Cursor(0, 0), [], Cursor(0, 0))
  {
  }

  class Sender {
    var outgoing: seq<OutMsg>
    var written: nat
    var offset: nat
    var complete: bool           // outgoing_messages_complete
    var hasReply: bool           // flight_has_reply
    var writeSeq: nat            // handshake_write_seq
    var wEpoch: nat
    var mtu: nat
    var writeShutdown: bool
    ghost var queued: seq<Msg>   // every handshake message so far
    ghost var items: seq<Item>   // the flight
    ghost var cuts: seq<Cut>     // what was written since the flight or the retransmission began
    ghost var lost: bool         // a packet was given up after some of its records were sealed
    ghost var wire: seq<Packet>  // every packet written

    /** What does not depend on the cursor. */
    ghost predicate FlightOk()
      reads this`outgoing, this`items, this`queued, this`writeSeq, this`wEpoch, this`wire
    {
      && |items| <= MAX_HANDSHAKE_FLIGHT
      && Represents(outgoing, items) && AllQueued(queued, items)
      && writeSeq == |queued| % TWO_16 && wEpoch < TWO_16
      && WireOk(queued, wire)
    }

    ghost predicate Core()
      reads this
    {
      |items| == |outgoing| && CursorOk(items, At()) && FlightOk()
    }

    /** Unless fragments were lost, those written lead from the start of the flight to the cursor. */
    ghost predicate Valid()
      reads this
    {
      Core() && (lost || Leads(items, Cursor(0, 0), cuts, At()))
    }

    ghost function At(): Cursor
      reads this
    {
      Cursor(written, offset)
    }

    constructor ()
      ensures Valid() && queued == [] && wire == [] && !lost && outgoing == [] && items == [] && cuts == []
      ensures At() == Cursor(0, 0) && !complete && wEpoch == 0 && mtu == 0 && !writeShutdown
    {
      outgoing, written, offset, complete, hasReply := [], 0, 0, false, false;
      writeSeq, wEpoch, mtu, writeShutdown := 0, 0, 0, false;
      queued, items, cuts, lost, wire := [], [], [], false, [];
    }

    /** dtls_clear_outgoing_messages. */
    method ClearOutgoing()
      requires Valid()
      modifies this
      ensures Valid() && outgoing == [] && items == [] && !complete && !hasReply && !lost
      ensures queued == old(queued) && wire == old(wire) && writeSeq == old(writeSeq) && wEpoch == old(wEpoch)
      ensures mtu == old(mtu) && writeShutdown == old(writeShutdown) && cuts == []
    {
      hide WireOk, Represents, AllQueued, Leads;
      EmptyFlight(queued);
      outgoing, written, offset, complete, hasReply := [], 0, 0, false, false;
      items, cuts, lost := [], [], false;
    }

    /** add_outgoing; a handshake message is what InitMessage built for the current number. */
    method AddOutgoing(isCcs: bool, data: seq<byte>, ghost m: Msg) returns (ok: bool)
      requires Valid()
      requires !isCcs ==> |m.body| < TWO_24 && data == Raw(m, writeSeq)
      modifies this
      ensures Valid() && wire == old(wire)
      ensures ok <==> old(complete) || |old(outgoing)| < 7
      ensures ok ==> var it := if isCcs then Ccs else Handshake(m, old(writeSeq));
        items == (if old(complete) then [] else old(items)) + [it]
      ensures queued == if ok && !isCcs then old(queued) + [m] else old(queued)
      ensures ok ==> outgoing == (if old(complete) then [] else old(outgoing)) + [OutMsg(data, wEpoch, isCcs)]
      ensures wEpoch == old(wEpoch) && mtu == old(mtu) && writeShutdown == old(writeShutdown) && !complete
      ensures !old(complete) ==> At() == old(At()) && cuts == old(cuts) && lost == old(lost)
    {
      hide Leads, Represents, AllQueued, WireOk, CursorOk, IsQueued, PutHeader;
      if complete {
        ClearOutgoing();
      }
      if |outgoing| >= MAX_HANDSHAKE_FLIGHT {
        return false;
      }
      ghost var it := if isCcs then Ccs else Handshake(m, writeSeq);
      if !isCcs {
        MoreQueued(queued, m, items, wire);
        NewestQueued(queued, m, it);
        queued := queued + [m];
        writeSeq := (writeSeq + 1) % TWO_16;
      }
      if !lost { LeadsGrow(items, it, Cursor(0, 0), cuts, At()); }
      FlightGrows(outgoing, items, queued, OutMsg(data, wEpoch, isCcs), it);
      CursorGrows(items, it, At());
      outgoing := outgoing + [OutMsg(data, wEpoch, isCcs)];
      items := items + [it];
      ok := true;
    }

    /** dtls1_init_message, dtls1_finish_message and dtls1_add_message. */
    method AddMessage(mtype: byte, body: seq<byte>) returns (ok: bool)
      requires Valid()
      modifies this
      ensures Valid() && wire == old(wire)
      ensures ok <==> |body| < 0x100_0000 && (old(complete) || |old(outgoing)| < 7)
      ensures queued == if ok then old(queued) + [Msg(mtype, body)] else old(queued)
      ensures ok ==>
        && items == (if old(complete) then [] else old(items)) + [Handshake(Msg(mtype, body), old(writeSeq))]
        && outgoing == (if old(complete) then [] else old(outgoing))
                       + [OutMsg(Raw(Msg(mtype, body), old(writeSeq)), wEpoch, false)]
      ensures wEpoch == old(wEpoch) && mtu == old(mtu) && writeShutdown == old(writeShutdown)
      ensures !old(complete) ==> At() == old(At()) && cuts == old(cuts) && lost == old(lost) && !complete
    {
      if |body| >= TWO_24 {
        return false;
      }
      var header := PutHeader(HmHeader(mtype, |body|, writeSeq, 0, |body|));
      ok := AddOutgoing(false, header + body, Msg(mtype, body));
    }

    /** dtls1_add_change_cipher_spec. */
    method AddChangeCipherSpec() returns (ok: bool)
      requires Valid()
      modifies this
      ensures Valid() && wire == old(wire) && queued == old(queued)
      ensures ok <==> old(complete) || |old(outgoing)| < 7
      ensures ok ==> items == (if old(complete) then [] else old(items)) + [Ccs]
    {
      ok := AddOutgoing(true, [], Msg(0, []));
    }

    /** dtls1_set_write_state. */
    method SetWriteState()
      requires Valid()
      modifies this`wEpoch
      ensures Valid() && wEpoch == (old(wEpoch) + 1) % TWO_16
    {
      wEpoch := (wEpoch + 1) % TWO_16;
    }

    /** dtls1_update_mtu. */
    method UpdateMtu(env: Env)
      modifies this`mtu
      ensures mtu == NewMtu(old(mtu), env)
    {
      if mtu < MIN_MTU && !env.noQuery {
        if 0 <= env.queryMtu <= 0x4000_0000 && env.queryMtu >= MIN_MTU {
          mtu := env.queryMtu;
        } else {
          mtu := DEFAULT_MTU;
        }
      }
    }

    /** seal_next_message. */
    method SealNextMessage(maxOut: nat, env: Env, call: nat) returns (result: SealResult, len: nat, rec: Record, ghost cut: Cut)
      requires Core() && written < |outgoing|
      modifies this`offset
      ensures Core()
      ensures var attempt := Try(outgoing, items, wEpoch, env, old(At()), maxOut, call);
        && (result.SealError? <==> attempt.Fails?) && (result.SealNoProgress? <==> attempt.NoRoom?)
        && (attempt.Seals? ==> cut == Cut(old(At()), attempt.todo) && len == attempt.len)
      ensures result.SealError? || result.SealNoProgress? ==> offset == old(offset)
      ensures result.SealPartial? || result.SealSuccess? ==>
        && cut.at == old(At()) && CutOk(items, cut) && IsRecord(outgoing, items, cut, rec)
        && len <= maxOut
        && Advance(items, cut) == (if result.SealSuccess? then Cursor(written + 1, 0) else At())
        && (result.SealSuccess? ==> offset == 0)
      ensures Healthy(outgoing, wEpoch, env) ==> !result.SealError?
      ensures Healthy(outgoing, wEpoch, env) && Room(maxOut, env) ==> !result.SealNoProgress?
    {
      hide Represents, AllQueued, WireOk, Raw, PutHeader, ParseFragment, Healthy, SealedLength, Room;
      var msg := outgoing[written];
      HealthyTry(outgoing, items, wEpoch, env, At(), maxOut, call);
      len, rec, cut := 0, Record(0, [], 0), Cut(At(), 0);
      var aead := env.current;
      if wEpoch >= 1 && msg.epoch == wEpoch - 1 {
        aead := env.previous;
      } else if msg.epoch != wEpoch {
        return SealError, len, rec, cut;
      }
      ghost var it := items[written];
      EntryAt(outgoing, items, written);
      if msg.isCcs {
        if maxOut < 1 + aead.overhead {
          return SealNoProgress, len, rec, cut;
        }
        if env.seal(call).None? {
          return SealError, len, rec, cut;
        }
        len := SealedLength(1, env.seal(call).value, aead.overhead);
        rec := Record(RT_CHANGE_CIPHER_SPEC, [MT_CCS], msg.epoch);
        return SealSuccess, len, rec, cut;
      }
      ParseRaw(it.m, it.seqNum);
      var parsed := ParseFragment(msg.data);
      if parsed.None? || parsed.value.0.fragOff != 0 || parsed.value.0.fragLen != |parsed.value.1|
         || parsed.value.0.msgLen != |parsed.value.1| || offset > |parsed.value.1| || parsed.value.2 != [] {
        return SealError, len, rec, cut;
      }
      var hdr, body := parsed.value.0, parsed.value.1[offset..];
      if maxOut < HM_HEADER_LENGTH + 1 + aead.overhead || maxOut < aead.prefix {
        return SealNoProgress, len, rec, cut;
      }
      var todo := |body|;
      if todo > maxOut - HM_HEADER_LENGTH - aead.overhead {
        todo := maxOut - HM_HEADER_LENGTH - aead.overhead;
      }
      if HM_HEADER_LENGTH + todo > maxOut - aead.prefix || env.seal(call).None? {
        return SealError, len, rec, cut;
      }
      var frag := PutHeader(hdr.(fragOff := offset, fragLen := todo)) + body[..todo];
      SliceOfDrop(it.m.body, offset, todo);
      len := SealedLength(|frag|, env.seal(call).value, aead.overhead);
      rec := Record(RT_HANDSHAKE, frag, msg.epoch);
      cut := Cut(At(), todo);
      if todo == |body| {
        offset := 0;
        return SealSuccess, len, rec, cut;
      }
      offset := offset + todo;
      result := SealPartial;
    }

    /** seal_next_packet; when it fails, `sealed` are the fragments the cursor has already passed. */
    method SealNextPacket(maxOut: nat, env: Env, call: nat)
      returns (ok: bool, len: nat, call': nat, records: seq<Record>, ghost sealed: seq<Cut>)
      requires Core() && written < |outgoing|
      modifies this`written, this`offset
      ensures Core() && Leads(items, old(At()), sealed, At())
      ensures Records(outgoing, items, sealed, records)
      ensures ok ==> len <= maxOut
      ensures var error := FirstError(outgoing, items, wEpoch, env, old(At()), maxOut, call);
        && (error.Some? ==> !ok && |sealed| == error.value)
        && (error.None? ==> (ok <==> sealed != []))
      ensures ok && written < |outgoing| ==> NoMore(outgoing, items, wEpoch, env, At(), maxOut - len)
      ensures Healthy(outgoing, wEpoch, env) && Room(maxOut, env) ==> ok
    {
      hide Leads, CutOk, IsRecord, Represents, AllQueued, WireOk, InQueue, Healthy, Room, Try, FirstError, Later, NoMore;
      hide Records, Sender.FlightOk;
      NothingSealed(outgoing, items);
      ok, len, call', records, sealed := true, 0, call, [], [];
      ghost var start := At();
      NoCuts(items, start);
      NotLater(FirstError(outgoing, items, wEpoch, env, start, maxOut, call));
      var full := false;
      while written < |outgoing| && !full
        invariant Core() && Leads(items, start, sealed, At())
        invariant Records(outgoing, items, sealed, records) && len <= maxOut
        invariant sealed == [] && (full || written == |outgoing|) ==> !(Healthy(outgoing, wEpoch, env) && Room(maxOut, env))
        invariant sealed == [] ==> len == 0
        invariant full ==> NoMore(outgoing, items, wEpoch, env, At(), maxOut - len)
        invariant FirstError(outgoing, items, wEpoch, env, start, maxOut, call)
               == if full then None
                  else Later(|sealed|, FirstError(outgoing, items, wEpoch, env, At(), maxOut - len, call'))
        decreases |outgoing| - written, !full
      {
        ghost var before := At();
        ErrorStep(outgoing, items, wEpoch, env, before, maxOut - len, call', |sealed|);
        NoMoreAfter(outgoing, items, wEpoch, env, before, maxOut - len, call');
        var result, n, rec, cut := SealNextMessage(maxOut - len, env, call');
        call' := call' + 1;
        match result
        case SealError =>
          ok := false;
          return;
        case SealNoProgress =>
          full := true;
        case SealPartial =>
          LeadsMore(items, start, sealed, cut);
          RecordsMore(outgoing, items, sealed, records, cut, rec);
          len, records, sealed, full := len + n, records + [rec], sealed + [cut], true;
        case SealSuccess =>
          LeadsMore(items, start, sealed, cut);
          RecordsMore(outgoing, items, sealed, records, cut, rec);
          len, records, sealed := len + n, records + [rec], sealed + [cut];
          written := written + 1;
      }
      SameCount(outgoing, items, sealed, records);
      if !full { NoEntryLeft(outgoing, items, wEpoch, env, At(), maxOut - len, call'); }
      assert Later(|sealed|, None) == None by { NeverLater(|sealed|); }
      ok := records != [];
    }

    /**
      One turn of send_flight's loop. A packet that was not written leaves the cursor where it
      was; when sealing fails, the cursor stays behind the fragments sealed before, which are
      lost: that happens exactly when the packet's first error comes after a sealed record.
     */
    method SendPacket(env: Env, call: nat, write: nat)
        returns (result: PacketResult, call': nat, ghost sealed: seq<Cut>)
      requires Valid() && written < |outgoing|
      modifies this`written, this`offset, this`cuts, this`lost, this`wire
      ensures Valid()
      ensures result.Written? ==>
        exists p: Packet :: wire == old(wire) + [p] && p.length <= p.mtu == mtu && p.records != []
                            && Records(outgoing, items, sealed, p.records)
      ensures result.Written? ==> cuts == old(cuts) + sealed && sealed != [] && Before(old(At()), At())
      ensures result.Written? || result.Failed? ==> Leads(items, old(At()), sealed, At())
      ensures !result.Written? ==> wire == old(wire) && cuts == old(cuts)
      ensures result.Blocked? ==> At() == old(At()) && result.bioRet <= 0
      ensures var error := FirstError(outgoing, items, wEpoch, env, old(At()), mtu, call);
        && (lost <==> old(lost) || (error.Some? && error.value > 0))
        && (error.Some? ==> result.Failed? && |sealed| == error.value)
        && (error.None? && result.Failed? ==> sealed == [])
      ensures Healthy(outgoing, wEpoch, env) && Room(mtu, env) ==>
        if env.write(write) > 0 then result.Written? else result == Blocked(env.write(write))
    {
      hide Leads, CutOk, IsRecord, Represents, AllQueued, InQueue, CursorOk, RecordOk, Records, Healthy, Room, FirstError;
      var oldWritten, oldOffset := written, offset;
      ghost var before := At();
      var ok, len, next, records;
      ok, len, next, records, sealed := SealNextPacket(mtu, env, call);
      call' := next;
      if !ok {
        lost := lost || sealed != [];
        if sealed == [] { NoMove(items, before, At()); }
        return Failed, call', sealed;
      }
      var bioRet := env.write(write);
      if bioRet <= 0 {
        written, offset := oldWritten, oldOffset;
        return Blocked(bioRet), call', sealed;
      }
      RecordsOk(outgoing, items, queued, sealed, records);
      SameCount(outgoing, items, sealed, records);
      wire := wire + [Packet(records, len, mtu)];
      if !lost { LeadsTrans(items, Cursor(0, 0), cuts, before, sealed, At()); }
      cuts := cuts + sealed;
      LeadsForward(items, before, sealed, At());
      result := Written;
    }

    /**
      send_flight. What goes out are the pieces `sent`, from the cursor on, one record each; the
      pieces `skipped` are passed by the cursor without being in any packet.
     */
    method SendFlight(env: Env)
        returns (ret: int, ghost sent: seq<Cut>, ghost reached: Cursor, ghost skipped: seq<Cut>)
      requires Valid()
      modifies this`mtu, this`written, this`offset, this`cuts, this`lost, this`wire
      ensures mtu == if writeShutdown then old(mtu) else NewMtu(old(mtu), env)
      ensures Valid() && old(wire) <= wire && cuts == old(cuts) + sent
      ensures Leads(items, old(At()), sent, reached) && Leads(items, reached, skipped, At())
      ensures Records(outgoing, items, sent, RecordsOf(wire[|old(wire)|..]))
      ensures lost <==> old(lost) || skipped != []
      ensures forall p :: |old(wire)| <= p < |wire| ==> wire[p].length <= mtu && wire[p].records != []
      ensures ret == 1 ==> At() == Cursor(|items|, 0) && skipped == []
      ensures ret == 1 && !lost ==> WholeFlight(items, cuts)
      ensures writeShutdown ==> ret == -1 && wire == old(wire) && At() == old(At())
      ensures !writeShutdown && old(written) < |outgoing| ==>
        var error := FirstError(outgoing, items, wEpoch, env, old(At()), mtu, 0);
        error.Some? ==> ret == -1 && wire == old(wire) && |skipped| == error.value
      ensures Healthy(outgoing, wEpoch, env) && Room(mtu, env) && AllWritten(env) && !writeShutdown ==> ret == 1
    {
      hide Leads, Represents, AllQueued, CursorOk, WireOk, Healthy, Records, FirstError, WholeFlight, Room;
      hide RecordsOf, NewMtu, LeftInEntry;
      ret, sent, reached, skipped := -1, [], At(), [];
      NoCuts(items, At());
      NoRecords(outgoing, items);
      if writeShutdown {
        assert wire[|old(wire)|..] == [];
        return;
      }
      UpdateMtu(env);
      var call, writes := 0, 0;
      while written < |outgoing|
        invariant Valid() && old(wire) <= wire && cuts == old(cuts) + sent && lost == old(lost)
        invariant mtu == NewMtu(old(mtu), env) && reached == At() && skipped == []
        invariant Leads(items, old(At()), sent, At()) && Leads(items, At(), skipped, At())
        invariant Records(outgoing, items, sent, RecordsOf(wire[|old(wire)|..]))
        invariant forall p :: |old(wire)| <= p < |wire| ==> wire[p].length <= mtu && wire[p].records != []
        invariant writes == 0 ==> call == 0 && At() == old(At()) && wire == old(wire)
        invariant writes > 0 ==> old(written) < |outgoing| ==>
          FirstError(outgoing, items, wEpoch, env, old(At()), mtu, 0).None?
        decreases |outgoing| - written, LeftInEntry(items, At())
      {
        ghost var before, wireBefore := At(), wire;
        var result;
        ghost var sealed;
        result, call, sealed := SendPacket(env, call, writes);
        writes := writes + 1;
        match result
        case Failed =>
          skipped := sealed;
          return;
        case Blocked(bioRet) => return bioRet, sent, reached, skipped;
        case Written =>
          LeftFalls(items, before, At());
          LeadsTrans(items, old(At()), sent, before, sealed, At());
          OnePacket(wireBefore, wire, |old(wire)|);
          RecordsJoin(outgoing, items, sent, RecordsOf(wireBefore[|old(wire)|..]), sealed, wire[|wireBefore|].records);
          sent, reached := sent + sealed, At();
          NoCuts(items, At());
      }
      CursorAtEnd(items, At());
      ret := if env.flushed then 1 else -1;
      if !lost { WholeIs(items, cuts); }
    }

    /** dtls1_flush_flight. */
    method FlushFlight(env: Env) returns (ret: int)
      requires Valid()
      modifies this`complete, this`mtu, this`written, this`offset, this`cuts, this`lost, this`wire
      ensures Valid() && complete && old(wire) <= wire && old(cuts) <= cuts
      ensures ret == 1 ==> At() == Cursor(|items|, 0) && lost == old(lost)
      ensures ret == 1 && !lost ==> WholeFlight(items, cuts)
      ensures Healthy(outgoing, wEpoch, env) && Room(mtu, env) && AllWritten(env) && !writeShutdown ==> ret == 1
    {
      hide Leads, Represents, AllQueued, CursorOk, WireOk, Healthy, Records, FirstError, WholeFlight;
      complete := true;
      ghost var sent, reached, skipped;
      ret, sent, reached, skipped := SendFlight(env);
    }

    /** dtls1_retransmit_outgoing_messages: the flight is written again from its start, lost fragments included. */
    method Retransmit(env: Env) returns (ret: int)
      requires Valid()
      modifies this`mtu, this`written, this`offset, this`cuts, this`lost, this`wire
      ensures Valid() && old(wire) <= wire
      ensures Records(outgoing, items, cuts, RecordsOf(wire[|old(wire)|..]))
      ensures ret == 1 ==> !lost && WholeFlight(items, cuts)
      ensures Healthy(outgoing, wEpoch, env) && Room(mtu, env) && AllWritten(env) && !writeShutdown ==> ret == 1
    {
      hide Represents, AllQueued, WireOk, Healthy, Records, FirstError, WholeFlight;
      written, offset := 0, 0;
      cuts, lost := [], false;
      StartOk();
      ghost var sent, reached, skipped;
      ret, sent, reached, skipped := SendFlight(env);
      assert [] + sent == sent;
    }

    lemma StartOk()
      ensures CursorOk(items, Cursor(0, 0))
    {
    }
  }

  /** The fragments carry the whole flight: from its first byte to its last. */
  predicate WholeFlight(items: seq<Item>, cuts: seq<Cut>) {
    && Leads(items, Cursor(0, 0), cuts, Cursor(|items|, 0))
    && forall i :: 0 <= i < |items| ==> Carried(items, cuts, i) == BodyOf(items[i]) && Pieces(cuts, i) >= 1
  }

  lemma WholeIs(items: seq<Item>, cuts: seq<Cut>)
    requires Leads(items, Cursor(0, 0), cuts, Cursor(|items|, 0))
    ensures WholeFlight(items, cuts)
  {
    hide Leads, Carried, Pieces;
    forall i | 0 <= i < |items| ensures Carried(items, cuts, i) == BodyOf(items[i]) && Pieces(cuts, i) >= 1 {
      FlightTiling(items, cuts, Cursor(|items|, 0), i);
    }
  }

  lemma NoMove(items: seq<Item>, a: Cursor, b: Cursor)
    requires Leads(items, a, [], b)
    ensures a == b
  {
  }

  lemma NoRecords(outgoing: seq<OutMsg>, items: seq<Item>)
    requires |outgoing| == |items|
    ensures Records(outgoing, items, [], RecordsOf([]))
  {
  }

  /** One more packet adds its records. */
  lemma OnePacket(before: seq<Packet>, after: seq<Packet>, from: nat)
    requires |after| == |before| + 1 && before <= after && from <= |before|
    ensures RecordsOf(after[from..]) == RecordsOf(before[from..]) + after[|before|].records
  {
    assert after[from..][..|after[from..]| - 1] == before[from..];
  }

  lemma NothingSealed(outgoing: seq<OutMsg>, items: seq<Item>)
    requires |outgoing| == |items|
    ensures Records(outgoing, items, [], [])
  {
  }

  lemma RecordsMore(outgoing: seq<OutMsg>, items: seq<Item>, cuts: seq<Cut>, records: seq<Record>, cut: Cut, rec: Record)
    requires Records(outgoing, items, cuts, records) && CutOk(items, cut) && IsRecord(outgoing, items, cut, rec)
    ensures Records(outgoing, items, cuts + [cut], records + [rec])
  {
    hide CutOk, IsRecord;
  }

  lemma RecordsJoin(outgoing: seq<OutMsg>, items: seq<Item>, a: seq<Cut>, r: seq<Record>, b: seq<Cut>, t: seq<Record>)
    requires Records(outgoing, items, a, r) && Records(outgoing, items, b, t)
    ensures Records(outgoing, items, a + b, r + t)
  {
    hide IsRecord, CutOk;
    forall k | 0 <= k < |a + b|
      ensures CutOk(items, (a + b)[k]) && IsRecord(outgoing, items, (a + b)[k], (r + t)[k])
    {
      if k >= |a| { assert (a + b)[k] == b[k - |a|] && (r + t)[k] == t[k - |a|]; }
    }
  }

  lemma CursorAtEnd(items: seq<Item>, c: Cursor)
    requires CursorOk(items, c) && c.written >= |items|
    ensures c == Cursor(|items|, 0)
  {
  }

  lemma LeadsMore(items: seq<Item>, start: Cursor, sealed: seq<Cut>, cut: Cut)
    requires CutOk(items, cut) && Leads(items, start, sealed, cut.at)
    ensures Leads(items, start, sealed + [cut], Advance(items, cut))
  {
    LeadsOnce(items, cut);
    LeadsTrans(items, start, sealed, cut.at, [cut], Advance(items, cut));
  }

  ghost function LeftInEntry(items: seq<Item>, c: Cursor): nat {
    if c.written < |items| && c.offset <= |BodyOf(items[c.written])| then |BodyOf(items[c.written])| - c.offset else 0
  }

  lemma LeftFalls(items: seq<Item>, a: Cursor, b: Cursor)
    requires CursorOk(items, a) && CursorOk(items, b) && Before(a, b)
    ensures a.written < b.written <= |items| || (a.written == b.written && LeftInEntry(items, b) < LeftInEntry(items, a))
  {
  }

  lemma NoCuts(items: seq<Item>, c: Cursor)
    ensures Leads(items, c, [], c)
  {
  }

  /** In good health no fragment is an error, and none is refused for want of room for one byte. */
  lemma HealthyTry(outgoing: seq<OutMsg>, items: seq<Item>, wEpoch: nat, env: Env, c: Cursor, room: nat, call: nat)
    requires |outgoing| == |items| && CursorOk(items, c) && c.written < |items|
    ensures Healthy(outgoing, wEpoch, env) ==> !Try(outgoing, items, wEpoch, env, c, room, call).Fails?
    ensures Healthy(outgoing, wEpoch, env) && Room(room, env) ==> !Try(outgoing, items, wEpoch, env, c, room, call).NoRoom?
  {
    if Healthy(outgoing, wEpoch, env) { assert EpochOk(outgoing[c.written], wEpoch); }
  }

  lemma SliceOfDrop(s: seq<byte>, a: nat, n: nat)
    requires a + n <= |s|
    ensures s[a..][..n] == s[a..a + n]
  {
  }

  lemma ParseRaw(m: Msg, seqNum: nat)
    requires |m.body| < TWO_24 && seqNum < TWO_16
    ensures ParseFragment(Raw(m, seqNum)) == Some((HmHeader(m.mtype, |m.body|, seqNum, 0, |m.body|), m.body, []))
  {
    hide PutHeader, ParseFragment;
    FragmentRoundTrip(HmHeader(m.mtype, |m.body|, seqNum, 0, |m.body|), m.body, []);
    assert Raw(m, seqNum) + [] == Raw(m, seqNum);
  }

  // A run that loses a message.

  function Plain(seal: nat -> Option<nat>): Env {
    Env(Aead(13, 29), Aead(13, 29), seal, (_: nat) => 1, true, false, 1500)
  }

  /** Only the second sealing fails. */
  function SecondFails(): Env {
    Plain((n: nat) => if n == 1 then None else Some(16))
  }

  function NoneFails(): Env {
    Plain((n: nat) => Some(16))
  }

  /** Every record in the packets is a handshake fragment with number `n`. */
  predicate OnlyNumber(packets: seq<Packet>, n: nat) {
    forall p, r :: 0 <= p < |packets| && 0 <= r < |packets[p].records| ==> HasNumber(packets[p].records[r], n)
  }

  predicate HasNumber(r: Record, n: nat) {
    r.rtype == RT_HANDSHAKE && ParseFragment(r.payload).Some? && ParseFragment(r.payload).value.0.seqNum == n
  }

  lemma {:induction false} CutsFrom(items: seq<Item>, from: Cursor, cuts: seq<Cut>, to: Cursor, k: nat)
    requires Leads(items, from, cuts, to) && k < |cuts|
    ensures from.written <= cuts[k].at.written < |items|
    decreases |cuts|
  {
    if k > 0 { CutsFrom(items, Advance(items, cuts[0]), cuts[1..], to, k - 1); }
  }

  lemma {:induction false} InPacket(packets: seq<Packet>, p: nat, r: nat) returns (k: nat)
    requires p < |packets| && r < |packets[p].records|
    ensures k < |RecordsOf(packets)| && RecordsOf(packets)[k] == packets[p].records[r]
  {
    var front := packets[..|packets| - 1];
    if p < |front| { k := InPacket(front, p, r); } else { k := |RecordsOf(front)| + r; }
  }

  /** Records of the pieces behind the first of two entries carry the number of the second. */
  lemma SecondOnly(outgoing: seq<OutMsg>, items: seq<Item>, sent: seq<Cut>, packets: seq<Packet>, to: Cursor)
    requires |items| == 2 && items[1] == Handshake(Msg(2, []), 1)
    requires Leads(items, Cursor(1, 0), sent, to) && Records(outgoing, items, sent, RecordsOf(packets))
    ensures OnlyNumber(packets, 1)
  {
    hide Leads, PutHeader, ParseFragment, RecordsOf;
    forall p, r | 0 <= p < |packets| && 0 <= r < |packets[p].records| ensures HasNumber(packets[p].records[r], 1) {
      var k := InPacket(packets, p, r);
      CutsFrom(items, Cursor(1, 0), sent, to, k);
      assert CutOk(items, sent[k]) && IsRecord(outgoing, items, sent[k], packets[p].records[r]);
      var h := HmHeader(2, 0, 1, 0, 0);
      FragmentRoundTrip(h, [], []);
      assert PutHeader(h) + [] + [] == FragmentBytes(Msg(2, []), 1, 0, 0);
    }
  }

  lemma FirstSealed(outgoing: seq<OutMsg>, items: seq<Item>)
    requires |outgoing| == |items| == 2 && outgoing[0].epoch == outgoing[1].epoch == 0
    requires items == [Handshake(Msg(1, []), 0), Handshake(Msg(2, []), 1)]
    ensures FirstError(outgoing, items, 0, SecondFails(), Cursor(0, 0), 1500, 0) == Some(1)
  {
    var env := SecondFails();
    assert env.seal(0) == Some(16) && env.seal(1) == None;
    assert Try(outgoing, items, 0, env, Cursor(0, 0), 1500, 0) == Seals(0, 28);
    assert Try(outgoing, items, 0, env, Cursor(1, 0), 1472, 1) == Fails;
  }

  lemma PassedOne(items: seq<Item>, skipped: seq<Cut>, to: Cursor)
    requires |items| == 2 && BodyOf(items[0]) == [] && |skipped| == 1 && Leads(items, Cursor(0, 0), skipped, to)
    ensures to == Cursor(1, 0)
  {
    assert skipped[1..] == [];
  }

  /** A flight of two empty messages. */
  method TwoQueued() returns (s: Sender)
    ensures fresh(s) && s.Valid() && s.queued == [Msg(1, []), Msg(2, [])] && s.wire == [] && s.At() == Cursor(0, 0)
    ensures |s.outgoing| == 2 && s.outgoing[0].epoch == s.outgoing[1].epoch == s.wEpoch == 0 && s.mtu == 0 && !s.writeShutdown
    ensures s.items == [Handshake(Msg(1, []), 0), Handshake(Msg(2, []), 1)] && s.cuts == [] && !s.lost
  {
    hide Represents, AllQueued, WireOk, CursorOk, Leads, PutHeader, Raw;
    s := new Sender();
    var ok := s.AddMessage(1, []);
    ok := s.AddMessage(2, []);
  }

  /** The second message cannot be sealed: the first is passed by, and nothing is sent. */
  method FirstLost(s: Sender) returns (ret: int)
    requires s.Valid() && s.wire == [] && s.At() == Cursor(0, 0) && s.mtu == 0 && !s.writeShutdown
    requires |s.outgoing| == 2 && s.outgoing[0].epoch == s.outgoing[1].epoch == s.wEpoch == 0
    requires s.items == [Handshake(Msg(1, []), 0), Handshake(Msg(2, []), 1)] && s.cuts == [] && !s.lost
    modifies s`mtu, s`written, s`offset, s`cuts, s`lost, s`wire
    ensures s.Valid() && ret == -1 && s.lost && s.wire == [] && s.At() == Cursor(1, 0) && s.cuts == [] && s.mtu == 1500
  {
    hide Represents, AllQueued, WireOk, Healthy, Records, FirstError, WholeFlight, CursorOk, Leads, RecordsOf;
    FirstSealed(s.outgoing, s.items);
    ghost var sent, reached, skipped;
    ret, sent, reached, skipped := s.SendFlight(SecondFails());
    assert sent == [] by { assert RecordsOf([]) == [] by { EmptyRecords(); } SameCount(s.outgoing, s.items, sent, RecordsOf([])); }
    NoMove(s.items, Cursor(0, 0), reached);
    PassedOne(s.items, skipped, s.At());
  }

  /**
    Two messages in one packet, the second of which cannot be sealed: send_flight fails. Called
    again when nothing fails any more it reports success, but no packet holds the first message.
   */
  method LosesMessage() returns (s: Sender, first: int, second: int)
    ensures s.Valid() && s.queued == [Msg(1, []), Msg(2, [])]
    ensures first == -1 && second == 1 && s.lost
    ensures s.wire != [] && OnlyNumber(s.wire, 1)
  {
    hide Represents, AllQueued, WireOk, Healthy, Records, FirstError, WholeFlight, CursorOk, Leads, OnlyNumber, PutHeader, Raw;
    hide RecordsOf;
    s := TwoQueued();
    first := FirstLost(s);
    HealthyRun(s.outgoing);
    ghost var sent, reached, skipped;
    second, sent, reached, skipped := s.SendFlight(NoneFails());
    assert s.wire[0..] == s.wire;
    NoMove(s.items, reached, s.At());
    if s.wire == [] {
      EmptyRecords();
      SameCount(s.outgoing, s.items, sent, []);
      NoMove(s.items, Cursor(1, 0), reached);
    }
    SecondOnly(s.outgoing, s.items, sent, s.wire, reached);
  }

  lemma EmptyRecords()
    ensures RecordsOf([]) == []
  {
  }

  lemma HealthyRun(outgoing: seq<OutMsg>)
    requires |outgoing| == 2 && outgoing[0].epoch == outgoing[1].epoch == 0
    ensures Healthy(outgoing, 0, NoneFails()) && AllWritten(NoneFails()) && Room(1500, NoneFails())
  {
  }
}
