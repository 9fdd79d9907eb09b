/** A flight of outgoing DTLS messages and the fragments that carry it, as values. */
module DtlsFlight {
  import opened Bits
  import opened HandshakeFragment

  const RT_CHANGE_CIPHER_SPEC: byte := 20
  const RT_HANDSHAKE: byte := 22
  const MAX_HANDSHAKE_FLIGHT: nat := 7

  /** A handshake message before fragmentation. */
  datatype Msg = Msg(mtype: byte, body: seq<byte>)

  /** One entry of the flight; handshake messages carry their number. */
  datatype Item = Ccs | Handshake(m: Msg, seqNum: nat)

  /** outgoing_written and outgoing_offset. */
  datatype Cursor = Cursor(written: nat, offset: nat)

  /** A fragment of `todo` bytes taken at a cursor. */
  datatype Cut = Cut(at: Cursor, todo: nat)

  predicate ItemOk(it: Item) {
    it.Handshake? ==> |it.m.body| < TWO_24 && it.seqNum < TWO_16
  }

  /** The bytes an entry has to deliver; a ChangeCipherSpec has none that are cut up. */
  function BodyOf(it: Item): seq<byte> {
    match it
    case Ccs => []
    case Handshake(m, _) => m.body
  }

  /** The message as one fragment: dtls1_init_message and dtls1_finish_message. */
  function Raw(m: Msg, seqNum: nat): (r: seq<byte>)
    ensures |r| == HM_HEADER_LENGTH + |m.body|
  {
    PutHeader(HmHeader(m.mtype, |m.body|, seqNum, 0, |m.body|)) + m.body
  }

  /** The fragment of bytes `off` to `off + todo`. */
  function FragmentBytes(m: Msg, seqNum: nat, off: nat, todo: nat): seq<byte>
    requires off + todo <= |m.body|
  {
    PutHeader(HmHeader(m.mtype, |m.body|, seqNum, off, todo)) + m.body[off..off + todo]
  }

  /** The cursor stands before a byte to send, or before an entry without any. */
  predicate CursorOk(items: seq<Item>, c: Cursor) {
    && c.written <= |items|
    && (c.written < |items| ==> c.offset < |BodyOf(items[c.written])| || c.offset == 0)
    && (c.written == |items| ==> c.offset == 0)
  }

  /** A cut makes progress: it takes a byte, or a whole empty entry. */
  predicate CutOk(items: seq<Item>, cut: Cut) {
    && CursorOk(items, cut.at)
    && cut.at.written < |items|
    && cut.at.offset + cut.todo <= |BodyOf(items[cut.at.written])|
    && (cut.todo > 0 || BodyOf(items[cut.at.written]) == [])
  }

  function Advance(items: seq<Item>, cut: Cut): (c: Cursor)
    requires CutOk(items, cut)
    ensures CursorOk(items, c)
    ensures Before(cut.at, c)
  {
    if cut.at.offset + cut.todo == |BodyOf(items[cut.at.written])| then Cursor(cut.at.written + 1, 0)
    else Cursor(cut.at.written, cut.at.offset + cut.todo)
  }

  /** The lexicographic order of cursors. */
  predicate Before(a: Cursor, b: Cursor) {
    a.written < b.written || (a.written == b.written && a.offset < b.offset)
  }

  /** The cuts lead from one cursor to another, each starting where the one before ended. */
  predicate Leads(items: seq<Item>, from: Cursor, cuts: seq<Cut>, to: Cursor)
    decreases |cuts|
  {
    if cuts == [] then from == to
    else cuts[0].at == from && CutOk(items, cuts[0]) && Leads(items, Advance(items, cuts[0]), cuts[1..], to)
  }

  lemma {:induction false} LeadsTrans(items: seq<Item>, a: Cursor, s: seq<Cut>, b: Cursor, t: seq<Cut>, c: Cursor)
    requires Leads(items, a, s, b) && Leads(items, b, t, c)
    ensures Leads(items, a, s + t, c)
    decreases |s|
  {
    if s == [] {
      assert s + t == t;
    } else {
      assert (s + t)[1..] == s[1..] + t;
      LeadsTrans(items, Advance(items, s[0]), s[1..], b, t, c);
    }
  }

  lemma LeadsOnce(items: seq<Item>, cut: Cut)
    requires CutOk(items, cut)
    ensures Leads(items, cut.at, [cut], Advance(items, cut))
  {
    assert [cut][1..] == [];
  }

  /** Every run of cuts moves the cursor forward. */
  lemma {:induction false} LeadsForward(items: seq<Item>, from: Cursor, cuts: seq<Cut>, to: Cursor)
    requires Leads(items, from, cuts, to) && cuts != []
    ensures Before(from, to)
    decreases |cuts|
  {
    if |cuts| > 1 { LeadsForward(items, Advance(items, cuts[0]), cuts[1..], to); }
  }

  /** The bytes of entry `i` that the cuts carry, in order. */
  function Carried(items: seq<Item>, cuts: seq<Cut>, i: nat): seq<byte>
    requires i < |items|
    decreases |cuts|
  {
    if cuts == [] then [] else CutBytes(items, cuts[0], i) + Carried(items, cuts[1..], i)
  }

  function CutBytes(items: seq<Item>, cut: Cut, i: nat): seq<byte>
    requires i < |items|
  {
    if CutOk(items, cut) && cut.at.written == i then BodyOf(items[i])[cut.at.offset..cut.at.offset + cut.todo] else []
  }

  /** How many cuts belong to entry `i`. */
  function Pieces(cuts: seq<Cut>, i: nat): nat
    decreases |cuts|
  {
    if cuts == [] then 0 else (if cuts[0].at.written == i then 1 else 0) + Pieces(cuts[1..], i)
  }

  /** What is left of entry `i` behind cursor `c`. */
  function Remaining(items: seq<Item>, c: Cursor, i: nat): seq<byte>
    requires i < |items| && CursorOk(items, c)
  {
    if i < c.written then [] else if i == c.written then BodyOf(items[i])[c.offset..] else BodyOf(items[i])
  }

  /** What one cut carries and what is left. */
  lemma CutTiles(items: seq<Item>, cut: Cut, i: nat)
    requires CutOk(items, cut) && i < |items|
    ensures Remaining(items, cut.at, i) == CutBytes(items, cut, i) + Remaining(items, Advance(items, cut), i)
  {
    var body, a, b := BodyOf(items[i]), cut.at.offset, cut.at.offset + cut.todo;
    if cut.at.written == i { assert body[a..] == body[a..b] + body[b..]; }
  }

  /** What the cuts carry and what is left make up what was left before. */
  lemma {:induction false} LeadsTile(items: seq<Item>, from: Cursor, cuts: seq<Cut>, to: Cursor, i: nat)
    requires Leads(items, from, cuts, to) && i < |items| && CursorOk(items, from) && CursorOk(items, to)
    ensures Remaining(items, from, i) == Carried(items, cuts, i) + Remaining(items, to, i)
    decreases |cuts|
  {
    hide CutOk, Remaining, CutBytes, CursorOk;
    if cuts != [] {
      var next := Advance(items, cuts[0]);
      LeadsTile(items, next, cuts[1..], to, i);
      CutTiles(items, cuts[0], i);
      var a, b, c := CutBytes(items, cuts[0], i), Carried(items, cuts[1..], i), Remaining(items, to, i);
      assert a + (b + c) == a + b + c;
    }
  }

  /** The number of cuts an entry takes until the cursor has passed it. */
  lemma {:induction false} LeadsPieces(items: seq<Item>, from: Cursor, cuts: seq<Cut>, to: Cursor, i: nat)
    requires Leads(items, from, cuts, to) && i < |items| && CursorOk(items, from)
    ensures i < from.written ==> Pieces(cuts, i) == 0
    ensures from.written <= i < to.written ==> Pieces(cuts, i) >= 1
    ensures from.written <= i < to.written && BodyOf(items[i]) == [] ==> Pieces(cuts, i) == 1
    decreases |cuts|
  {
    if cuts != [] { LeadsPieces(items, Advance(items, cuts[0]), cuts[1..], to, i); }
  }

  /**
    The fragments written since the start of the flight tile every message passed by the cursor
    exactly, and the current one up to the cursor; an empty message takes exactly one fragment.
   */
  lemma FlightTiling(items: seq<Item>, cuts: seq<Cut>, c: Cursor, i: nat)
    requires Leads(items, Cursor(0, 0), cuts, c) && i < |items| && CursorOk(items, c)
    ensures i < c.written ==> Carried(items, cuts, i) == BodyOf(items[i]) && Pieces(cuts, i) >= 1
    ensures i < c.written && BodyOf(items[i]) == [] ==> Pieces(cuts, i) == 1
    ensures i == c.written ==> Carried(items, cuts, i) == BodyOf(items[i])[..c.offset]
    ensures i > c.written ==> Carried(items, cuts, i) == []
  {
    hide Leads, Carried, Pieces;
    var start, body := Cursor(0, 0), BodyOf(items[i]);
    LeadsTile(items, start, cuts, c, i);
    LeadsPieces(items, start, cuts, c, i);
    assert Remaining(items, start, i) == body;
    if i == c.written {
      SuffixSame(Carried(items, cuts, i), body[..c.offset], body[c.offset..]);
    } else if i > c.written {
      SuffixSame(Carried(items, cuts, i), [], body);
    }
  }

  lemma SuffixSame(a: seq<byte>, b: seq<byte>, t: seq<byte>)
    requires a + t == b + t
    ensures a == b
  {
    assert |a| == |b|;
    assert a == (a + t)[..|a|];
  }
}
