/** The Protocol Buffers wire format by itself: what a reader sees that knows no field table. */
module WireFormat {
  import opened Bits

  /** A base 128 varint in front of `s`: groups of seven bits, least significant first, marked by the top bit but for the last. */
  function TakeVarint(s: seq<byte>): (r: Option<(nat, seq<byte>)>)
    ensures r.Some? ==> |r.value.1| < |s|
  {
    if s == [] then None
    else if s[0] < 128 then Some((s[0], s[1..]))
    else
      var (n, rest) :- TakeVarint(s[1..]);
      Some((s[0] - 128 + 128 * n, rest))
  }

  /** What a field carries, by wire type 0, 1, 2 or 5. */
  datatype Payload = Num(n: nat) | I64(bytes: seq<byte>) | Len(bytes: seq<byte>) | I32(bytes: seq<byte>)

  datatype WireField = WireField(number: nat, payload: Payload)

  function WireTypeOf(p: Payload): nat {
    match p
    case Num(_) => 0
    case I64(_) => 1
    case Len(_) => 2
    case I32(_) => 5
  }

  /** The first `n` bytes, and the rest. */
  function Take(s: seq<byte>, n: nat): Option<(seq<byte>, seq<byte>)> {
    if |s| < n then None else Some((s[..n], s[n..]))
  }

  function TakePayload(wireType: nat, s: seq<byte>): (r: Option<(Payload, seq<byte>)>)
    ensures r.Some? ==> |r.value.1| < |s| && WireTypeOf(r.value.0) == wireType
    ensures r.Some? && r.value.0.I32? ==> |r.value.0.bytes| == 4
    ensures r.Some? && r.value.0.I64? ==> |r.value.0.bytes| == 8
  {
    match wireType
    case 0 =>
      var (n, rest) :- TakeVarint(s);
      Some((Num(n), rest))
    case 1 =>
      var (b, rest) :- Take(s, 8);
      Some((I64(b), rest))
    case 2 =>
      var (n, rest) :- TakeVarint(s);
      var (b, rest') :- Take(rest, n);
      Some((Len(b), rest'))
    case 5 =>
      var (b, rest) :- Take(s, 4);
      Some((I32(b), rest))
    case _ => None
  }

  /** A tag word, the field number in front of three bits of wire type, and a payload. */
  function TakeField(s: seq<byte>): (r: Option<(WireField, seq<byte>)>)
    ensures r.Some? ==> |r.value.1| < |s|
  {
    var (word, rest) :- TakeVarint(s);
    var (payload, rest') :- TakePayload(word % 8, rest);
    Some((WireField(word / 8, payload), rest'))
  }

  /** All of `s`, field by field. */
  function TakeFields(s: seq<byte>): Option<seq<WireField>>
    decreases |s|
  {
    if s == [] then Some([])
    else
      var (field, rest) :- TakeField(s);
      var more :- TakeFields(rest);
      Some([field] + more)
  }

  /** All of `s` as payloads of one wire type. */
  function TakePayloads(wireType: nat, s: seq<byte>): Option<seq<Payload>>
    decreases |s|
  {
    if s == [] then Some([])
    else
      var (payload, rest) :- TakePayload(wireType, s);
      var more :- TakePayloads(wireType, rest);
      Some([payload] + more)
  }

  // What follows does not matter.

  lemma {:induction false} VarintThen(s: seq<byte>, t: seq<byte>)
    requires TakeVarint(s).Some?
    ensures var (n, rest) := TakeVarint(s).value; TakeVarint(s + t) == Some((n, rest + t))
  {
    assert (s + t)[1..] == s[1..] + t;
    if s[0] >= 128 { VarintThen(s[1..], t); }
  }

  lemma TakeThen(s: seq<byte>, n: nat, t: seq<byte>)
    requires n <= |s|
    ensures Take(s + t, n) == Some((s[..n], s[n..] + t))
  {
    assert (s + t)[..n] == s[..n] && (s + t)[n..] == s[n..] + t;
  }

  lemma PayloadThen(wireType: nat, s: seq<byte>, t: seq<byte>)
    requires TakePayload(wireType, s).Some?
    ensures var (p, rest) := TakePayload(wireType, s).value; TakePayload(wireType, s + t) == Some((p, rest + t))
  {
    hide TakeVarint;
    match wireType
    case 0 => VarintThen(s, t);
    case 1 => TakeThen(s, 8, t);
    case 2 =>
      var (n, rest) := TakeVarint(s).value;
      VarintThen(s, t);
      TakeThen(rest, n, t);
    case 5 => TakeThen(s, 4, t);
    case _ =>
  }

  lemma FieldThen(s: seq<byte>, t: seq<byte>)
    requires TakeField(s).Some?
    ensures var (f, rest) := TakeField(s).value; TakeField(s + t) == Some((f, rest + t))
  {
    hide TakeVarint, TakePayload;
    var (word, rest) := TakeVarint(s).value;
    VarintThen(s, t);
    PayloadThen(word % 8, rest, t);
  }

  /** Whole fields in front of others are read first. */
  lemma {:induction false} FieldsThen(a: seq<byte>, b: seq<byte>)
    requires TakeFields(a).Some?
    ensures TakeFields(a + b) == (if TakeFields(b).None? then None else Some(TakeFields(a).value + TakeFields(b).value))
    decreases |a|
  {
    hide TakeField;
    if a == [] {
      assert a + b == b;
      if TakeFields(b).Some? { assert [] + TakeFields(b).value == TakeFields(b).value; }
    } else {
      var (f, rest) := TakeField(a).value;
      FieldThen(a, b);
      FieldsThen(rest, b);
      if TakeFields(b).Some? {
        var x, y := TakeFields(rest).value, TakeFields(b).value;
        assert [f] + (x + y) == [f] + x + y;
      }
    }
  }
}
