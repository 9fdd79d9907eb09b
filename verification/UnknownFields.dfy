/** Fields a table does not know are skipped without a trace, wherever they stand. */
module UnknownFields {
  import opened Bits
  import opened Wire
  import opened Descriptors
  import opened DecodeSpec
  import opened WireFormat
  import opened WireReading

  // More input after what a decoder consumes does not change what it returns.

  lemma {:induction false} VarintMore(s: seq<byte>, t: seq<byte>, bitpos: nat, acc: nat)
    requires DecVarintFrom(s, bitpos, acc).Some?
    ensures var (v, rest) := DecVarintFrom(s, bitpos, acc).value;
      DecVarintFrom(s + t, bitpos, acc) == Some((v, rest + t))
    decreases s
  {
    hide Or, Pow2;
    assert (s + t)[1..] == s[1..] + t;
    if s[0] >= 0x80 {
      VarintMore(s[1..], t, bitpos + 7, Or(acc, s[0] % 0x80 * Pow2(bitpos) % TWO_64));
    }
  }

  lemma {:induction false} Varint32FromMore(s: seq<byte>, t: seq<byte>, bitpos: nat, acc: nat)
    requires DecVarint32From(s, bitpos, acc).Some?
    ensures var (v, rest) := DecVarint32From(s, bitpos, acc).value;
      DecVarint32From(s + t, bitpos, acc) == Some((v, rest + t))
    decreases s
  {
    hide Or, Pow2;
    assert (s + t)[1..] == s[1..] + t;
    if s[0] >= 0x80 {
      var acc' := if bitpos >= 32 then acc else Or(acc, s[0] % 0x80 * Pow2(bitpos) % TWO_32);
      Varint32FromMore(s[1..], t, (bitpos + 7) % 0x100, acc');
    }
  }

  lemma Varint32More(s: seq<byte>, t: seq<byte>)
    requires DecVarint32(s).Some?
    ensures var (v, rest) := DecVarint32(s).value;
      DecVarint32(s + t) == Some((v, rest + t))
  {
    hide DecVarint32From;
    assert (s + t)[1..] == s[1..] + t;
    if s[0] >= 0x80 { Varint32FromMore(s[1..], t, 7, s[0] % 0x80); }
  }

  lemma ReadMore(s: seq<byte>, t: seq<byte>, n: nat)
    requires n <= |s|
    ensures Read(s + t, n) == Some((s[..n], s[n..] + t))
  {
    assert (s + t)[..n] == s[..n] && (s + t)[n..] == s[n..] + t;
  }

  lemma StringMore(s: seq<byte>, t: seq<byte>)
    requires DecString(s).Some?
    ensures var (data, rest) := DecString(s).value;
      DecString(s + t) == Some((data, rest + t))
  {
    hide DecVarint32;
    var (size, rest) := DecVarint32(s).value;
    Varint32More(s, t);
    ReadMore(rest, t, size);
  }

  lemma TagMore(s: seq<byte>, t: seq<byte>)
    requires DecTag(s).Tag?
    ensures var Tag(tag, wireType, rest) := DecTag(s);
      DecTag(s + t) == Tag(tag, wireType, rest + t)
  {
    hide DecVarint32;
    Varint32More(s, t);
  }

  lemma {:induction false} SkipVarintMore(s: seq<byte>, t: seq<byte>)
    requires SkipVarint(s).Some?
    ensures SkipVarint(s + t) == Some(SkipVarint(s).value + t)
    decreases s
  {
    assert (s + t)[1..] == s[1..] + t;
    if s[0] >= 0x80 { SkipVarintMore(s[1..], t); }
  }

  lemma SkipMore(wireType: nat, s: seq<byte>, t: seq<byte>)
    requires SkipField(wireType, s).Some?
    ensures SkipField(wireType, s + t) == Some(SkipField(wireType, s).value + t)
  {
    hide SkipVarint, DecString;
    if wireType == WT_VARINT { SkipVarintMore(s, t); }
    else if wireType == WT_64BIT { ReadMore(s, t, 8); }
    else if wireType == WT_STRING { StringMore(s, t); }
    else { ReadMore(s, t, 4); }
  }

  lemma ScalarMore(f: Field, s: seq<byte>, t: seq<byte>)
    requires DecScalar(f, s).Some?
    ensures var (v, rest) := DecScalar(f, s).value;
      DecScalar(f, s + t) == Some((v, rest + t))
  {
    hide DecVarintFrom, NarrowSigned, UnZigZag, AsSigned, AsUnsigned, FromLittleEndian;
    match f.ltype
    case Fixed32 => ReadMore(s, t, 4);
    case Fixed64 => ReadMore(s, t, 8);
    case Varint | UVarint | SVarint => VarintMore(s, t, 0, 0);
    case _ =>
  }

  lemma ValueMore(f: Field, prev: Value, s: seq<byte>, t: seq<byte>)
    requires DecValue(f, prev, s).Some?
    ensures var (v, rest) := DecValue(f, prev, s).value;
      DecValue(f, prev, s + t) == Some((v, rest + t))
  {
    hide DecScalar, DecString, DecMessage, StoreString;
    if Packable(f.ltype) { ScalarMore(f, s, t); } else { StringMore(s, t); }
  }

  lemma RepeatedMore(f: Field, items: seq<Value>, count: nat, wireType: nat, s: seq<byte>, t: seq<byte>)
    requires DecRepeated(f, items, count, wireType, s).Some?
    ensures var (filled, rest) := DecRepeated(f, items, count, wireType, s).value;
      DecRepeated(f, items, count, wireType, s + t) == Some((filled, rest + t))
  {
    hide DecPacked, DecString, DecValue, StoreItem, FreshValue;
    if wireType == WT_STRING && Packable(f.ltype) { StringMore(s, t); } else { ValueMore(f, FreshValue(f), s, t); }
  }

  lemma StaticMore(fields: seq<Field>, i: nat, wireType: nat, st: DecState, s: seq<byte>, t: seq<byte>)
    requires i < |fields| == |st.msg| && DecStatic(fields, i, wireType, st, s).Some?
    ensures var (st', rest) := DecStatic(fields, i, wireType, st, s).value;
      DecStatic(fields, i, wireType, st, s + t) == Some((st', rest + t))
  {
    hide DecValue, DecRepeated, Leader, FreshValue;
    var f := fields[i];
    match st.msg[Leader(fields, i)]
    case Single(v) => ValueMore(f, v, s, t);
    case Maybe(_, v) => ValueMore(f, v, s, t);
    case Counted(items) => RepeatedMore(f, items, |items|, wireType, s, t);
    case FixedArray(items) => RepeatedMore(f, items, st.fixedCount, wireType, s, t);
    case Union(_, _) => ValueMore(f, FreshValue(f), s, t);
    case InUnion =>
  }

  lemma KnownMore(fields: seq<Field>, i: nat, wireType: nat, st: DecState, s: seq<byte>, t: seq<byte>)
    requires i < |fields| == |st.msg| && DecKnown(fields, i, wireType, st, s).Some?
    ensures var (st', rest) := DecKnown(fields, i, wireType, st, s).value;
      DecKnown(fields, i, wireType, st, s + t) == Some((st', rest + t))
  {
    hide DecStatic, EnterFixed, NoteRequired;
    var entered := EnterFixed(fields, i, st.(pos := i)).value;
    StaticMore(fields, i, wireType, entered.(seen := NoteRequired(fields, i, entered.seen)), s, t);
  }

  lemma StepMore(fields: seq<Field>, st: DecState, s: seq<byte>, t: seq<byte>)
    requires StateOk(fields, st) && StepMessage(fields, st, s).Next?
    ensures var Next(st', rest) := StepMessage(fields, st, s);
      StepMessage(fields, st, s + t) == Next(st', rest + t)
  {
    hide DecTag, DecKnown, SkipField, FindFrom;
    var Tag(tag, wireType, rest) := DecTag(s);
    TagMore(s, t);
    match (if fields == [] then None else Find(fields, st.pos, tag))
    case None => SkipMore(wireType, rest, t);
    case Some(i) => KnownMore(fields, i, wireType, st, rest, t);
  }

  // Runs of whole fields.

  /** `a` is a sequence of whole fields, with no zero terminator among them; the state after the last. */
  function RunFields(fields: seq<Field>, st: DecState, a: seq<byte>): Option<DecState>
    requires StateOk(fields, st)
    decreases |a|
  {
    if a == [] then Some(st)
    else
      match StepMessage(fields, st, a)
      case Next(st', rest) => RunFields(fields, st', rest)
      case _ => None
  }

  /** Decoding goes on after the last of them. */
  lemma {:induction false} RunThen(fields: seq<Field>, st: DecState, a: seq<byte>, t: seq<byte>)
    requires StateOk(fields, st) && RunFields(fields, st, a).Some?
    ensures StateOk(fields, RunFields(fields, st, a).value)
    ensures DecLoop(fields, st, a + t) == DecLoop(fields, RunFields(fields, st, a).value, t)
    decreases |a|
  {
    hide StepMessage;
    if a == [] {
      assert a + t == t;
    } else {
      StepMore(fields, st, a, t);
      var Next(st', rest) := StepMessage(fields, st, a);
      RunThen(fields, st', rest, t);
    }
  }

  /** `u` is a sequence of wire fields with numbers that are not in the table. */
  predicate OnlyUnknown(fields: seq<Field>, u: seq<byte>)
    decreases |u|
  {
    u == [] ||
      match TakeField(u)
      case None => false
      case Some((WireField(number, payload), rest)) =>
        && 1 <= number <= 0x1FFF_FFFF
        && (payload.Len? ==> |payload.bytes| < 0x1_0000_0000)
        && (forall i :: 0 <= i < |fields| ==> fields[i].tag != number)
        && OnlyUnknown(fields, rest)
  }

  /** The same by what pb_decode_tag and pb_skip_field make of `u`: some tag words past 64 bits pass as well. */
  predicate OnlySkipped(fields: seq<Field>, u: seq<byte>)
    decreases |u|
  {
    if u == [] then true
    else
      match DecTag(u)
      case Tag(tag, wireType, rest) =>
        && tag >= 1
        && (forall i :: 0 <= i < |fields| ==> fields[i].tag != tag)
        && (match SkipField(wireType, rest)
            case None => false
            case Some(rest') => OnlySkipped(fields, rest'))
      case _ => false
  }

  lemma {:induction false} UnknownSkipped(fields: seq<Field>, u: seq<byte>)
    requires OnlyUnknown(fields, u)
    ensures OnlySkipped(fields, u)
    decreases |u|
  {
    hide DecTag, SkipField, TakeVarint;
    if u != [] {
      var (WireField(number, payload), rest') := TakeField(u).value;
      var (word, rest) := TakeVarint(u).value;
      DecTagExactly(u);
      SkipExactly(word % 8, rest);
      UnknownSkipped(fields, rest');
    }
  }

  /** Skipping unknown fields leaves the whole state of the loop as it was. */
  lemma {:induction false} UnknownRun(fields: seq<Field>, st: DecState, u: seq<byte>)
    requires StateOk(fields, st) && OnlySkipped(fields, u)
    ensures RunFields(fields, st, u) == Some(st)
    decreases |u|
  {
    hide SkipField, DecTag, DecKnown, FindFrom;
    if u != [] {
      var Tag(tag, wireType, rest) := DecTag(u);
      if fields != [] { NotFound(fields, st.pos, tag, |fields|); }
      UnknownRun(fields, st, SkipField(wireType, rest).value);
    }
  }

  lemma {:induction false} NotFound(fields: seq<Field>, i: nat, tag: nat, left: nat)
    requires i < |fields| && forall k :: 0 <= k < |fields| ==> fields[k].tag != tag
    ensures FindFrom(fields, i, tag, left) == None
    decreases left
  {
    if left > 0 { NotFound(fields, if i + 1 < |fields| then i + 1 else 0, tag, left - 1); }
  }

  /**
    Inserting what is skipped at any field boundary changes neither whether pb_decode_noinit
    succeeds, nor the message, nor what it leaves unread.
   */
  lemma SkippedTransparent(fields: seq<Field>, m: seq<Slot>, a: seq<byte>, u: seq<byte>, t: seq<byte>)
    requires |m| == |fields| && RunFields(fields, StartState(m), a).Some? && OnlySkipped(fields, u)
    ensures DecMessage(fields, m, a + u + t) == DecMessage(fields, m, a + t)
  {
    hide RunFields, OnlySkipped, DecLoop;
    var st := RunFields(fields, StartState(m), a).value;
    RunThen(fields, StartState(m), a, t);
    RunThen(fields, StartState(m), a, u + t);
    UnknownRun(fields, st, u);
    RunThen(fields, st, u, t);
    assert a + u + t == a + (u + t);
  }

  /** So do wire fields that the table does not know. */
  lemma UnknownFieldsTransparent(fields: seq<Field>, m: seq<Slot>, a: seq<byte>, u: seq<byte>, t: seq<byte>)
    requires |m| == |fields| && RunFields(fields, StartState(m), a).Some? && OnlyUnknown(fields, u)
    ensures DecMessage(fields, m, a + u + t) == DecMessage(fields, m, a + t)
  {
    hide RunFields, OnlyUnknown, DecMessage;
    UnknownSkipped(fields, u);
    SkippedTransparent(fields, m, a, u, t);
  }
}
