/**
  What pb_decode makes of any input whose fields have the wire types of the table, not only of what
  the encoder writes: in any order, repeated, packed or not, with unknown fields between them and
  numbers in longer forms than they need.
 */
module WireDecoding {
  import opened Bits
  import opened Wire
  import opened Descriptors
  import opened DecodeSpec
  import opened MessageShape
  import opened ScalarRoundTrip
  import opened RoundTrip
  import opened WireFormat
  import opened WireReading

  // Values.

  /** The wire type of a field's single values. */
  function Kind(lt: LType): nat {
    match lt
    case Varint | UVarint | SVarint => 0
    case Fixed64 => 1
    case Fixed32 => 5
    case _ => 2
  }

  predicate FitsSigned(x: int, size: nat) {
    || size == 8
    || (size == 4 && -0x8000_0000 <= x < 0x8000_0000)
    || (size == 2 && -0x8000 <= x < 0x8000)
    || (size == 1 && -0x80 <= x < 0x80)
  }

  predicate FitsUnsigned(x: int, size: nat) {
    || (size == 8 && 0 <= x < 0x1_0000_0000_0000_0000)
    || (size == 4 && 0 <= x < 0x1_0000_0000)
    || (size == 2 && 0 <= x < 0x1_0000)
    || (size == 1 && 0 <= x < 0x100)
  }

  /** The low bits of a number, in two's complement. */
  function Signed64(n: nat): int {
    var low := n % 0x1_0000_0000_0000_0000;
    if low < 0x8000_0000_0000_0000 then low else low - 0x1_0000_0000_0000_0000
  }

  function Signed32(n: nat): int {
    var low := n % 0x1_0000_0000;
    if low < 0x8000_0000 then low else low - 0x1_0000_0000
  }

  function Unzigzag(n: nat): int {
    var low := n % 0x1_0000_0000_0000_0000;
    if low % 2 == 0 then low / 2 else -(low / 2) - 1
  }

  function Little(b: seq<byte>): nat
    requires |b| == 4
  {
    (b[0] as int) + 0x100 * (b[1] as int) + 0x1_0000 * (b[2] as int) + 0x100_0000 * (b[3] as int)
  }

  /**
    The number a payload stands for in a member; None where it does not fit. An int32 member takes
    the low 32 bits of whatever comes, which negative numbers need; smaller ones must then fit.
   */
  function NumberIn(f: Field, p: Payload): Option<int> {
    match p
    case Num(n) =>
      (match f.ltype
       case Varint =>
         var x := if f.dataSize == 8 then Signed64(n) else Signed32(n);
         if FitsSigned(x, f.dataSize) then Some(x) else None
       case UVarint =>
         var x := n % 0x1_0000_0000_0000_0000;
         if FitsUnsigned(x, f.dataSize) then Some(x) else None
       case SVarint => if FitsSigned(Unzigzag(n), f.dataSize) then Some(Unzigzag(n)) else None
       case _ => None)
    case I32(b) => if f.ltype.Fixed32? && |b| == 4 then Some(Little(b)) else None
    case I64(b) =>
      if f.ltype.Fixed64? && |b| == 8 then Some(Little(b[..4]) + 0x1_0000_0000 * Little(b[4..])) else None
    case Len(_) => None
  }

  /** The varint in front is not longer than ten bytes, if the wire type is 0. */
  predicate Short(wireType: nat, s: seq<byte>) {
    wireType == 0 && TakeVarint(s).Some? ==> |s| - |TakeVarint(s).value.1| <= 10
  }

  lemma NarrowIs(n: nat, size: nat)
    ensures NarrowSigned(n % TWO_64, size) ==
      var x := if size == 8 then Signed64(n) else Signed32(n);
      if FitsSigned(x, size) then Some(x) else None
  {
    hide Pow2;
    RangeValues();
    var w := n % TWO_64;
    assert w % TWO_32 == n % TWO_32 by { ModMod(n); }
    assert AsSigned(w, 8) == Signed64(n) && AsSigned(w, 4) == Signed32(n);
    if ValidIntSize(size) { SignedFits(if size == 8 then Signed64(n) else Signed32(n), size); }
  }

  lemma ModMod(n: nat)
    ensures n % TWO_64 % TWO_32 == n % TWO_32
  {
    var q, r := n / TWO_64, n % TWO_64;
    ModUnique(n, TWO_32, TWO_32 * q + r / TWO_32, r % TWO_32);
  }

  lemma SignedFits(x: int, size: nat)
    requires ValidIntSize(size) && -(TWO_63 as int) <= x < TWO_63
    ensures AsSigned(x, size) == x <==> FitsSigned(x, size)
  {
    hide Pow2;
    RangeValues();
  }

  lemma UnsignedFits(x: nat, size: nat)
    requires x < TWO_64
    ensures ValidIntSize(size) && AsUnsigned(x, size) == x <==> FitsUnsigned(x, size)
  {
    hide Pow2;
    RangeValues();
  }

  lemma UnzigzagIs(n: nat)
    ensures UnZigZag(n % TWO_64) == Unzigzag(n) && -(TWO_63 as int) <= Unzigzag(n) < TWO_63
  {
    hide AsSigned;
    var low := n % TWO_64;
    SignedOfSmall(low / 2);
    if low % 2 == 1 {
      SignedOfSmall(-(low / 2) - 1);
      assert TWO_64 - 1 - low / 2 == -(low / 2) - 1 + TWO_64;
    }
  }

  lemma LittleIs(b: seq<byte>)
    ensures |b| == 4 ==> FromLittleEndian(b) == Little(b)
    ensures |b| == 8 ==> FromLittleEndian(b) == Little(b[..4]) + 0x1_0000_0000 * Little(b[4..])
  {
    if |b| == 4 { LittleFour(b, []); assert b + [] == b; }
    if |b| == 8 {
      var lo, hi := b[..4], b[4..];
      assert b == lo + hi && hi + [] == hi;
      LittleFour(lo, hi);
      LittleFour(hi, []);
    }
  }

  lemma LittleFour(b: seq<byte>, t: seq<byte>)
    requires |b| == 4
    ensures FromLittleEndian(b + t) == Little(b) + 0x1_0000_0000 * FromLittleEndian(t)
  {
    var s := b + t;
    assert s[1..][1..] == s[2..] && s[2..][1..] == s[3..] && s[3..][1..] == s[4..] == t;
    assert FromLittleEndian(s) == b[0] + 0x100 * FromLittleEndian(s[1..]);
    assert FromLittleEndian(s[1..]) == b[1] + 0x100 * FromLittleEndian(s[2..]);
    assert FromLittleEndian(s[2..]) == b[2] + 0x100 * FromLittleEndian(s[3..]);
    assert FromLittleEndian(s[3..]) == b[3] + 0x100 * FromLittleEndian(t);
  }

  /** pb_dec_varint, pb_dec_uvarint, pb_dec_svarint, pb_dec_fixed32 and pb_dec_fixed64 on any payload of their wire type. */
  lemma NumberRead(f: Field, s: seq<byte>)
    requires Packable(f.ltype) && TakePayload(Kind(f.ltype), s).Some? && Short(Kind(f.ltype), s)
    ensures var (p, rest) := TakePayload(Kind(f.ltype), s).value;
      DecScalar(f, s) == if NumberIn(f, p).None? then None else Some((Int(NumberIn(f, p).value), rest))
  {
    hide TakeVarint, DecVarint, NarrowSigned, UnZigZag, Unzigzag, Signed32, Signed64, FromLittleEndian, Little;
    hide AsSigned, AsUnsigned, FitsSigned, FitsUnsigned, ValidIntSize;
    var (p, rest) := TakePayload(Kind(f.ltype), s).value;
    DecVarintExactly(s);
    match f.ltype
    case Varint => NarrowIs(p.n, f.dataSize);
    case UVarint => UnsignedFits(p.n % TWO_64, f.dataSize);
    case SVarint =>
      UnzigzagIs(p.n);
      ZigzagSized(Unzigzag(p.n), f.dataSize);
    case Fixed32 => LittleIs(p.bytes);
    case Fixed64 => LittleIs(p.bytes);
  }

  lemma ZigzagSized(x: int, size: nat)
    requires -(TWO_63 as int) <= x < TWO_63
    ensures ValidIntSize(size) && AsSigned(x, size) == x <==> FitsSigned(x, size)
  {
    hide AsSigned;
    if ValidIntSize(size) { SignedFits(x, size); }
  }

  /** What a payload makes of a member that held `prev`; a submessage is merged into what was there. */
  function ValueIn(f: Field, prev: Value, p: Payload): Option<Value> {
    if Packable(f.ltype) then
      var x :- NumberIn(f, p);
      Some(Int(x))
    else
      match p
      case Len(data) =>
        (match f.ltype
         case BytesType => if |data| + 4 <= f.dataSize then Some(Bytes(data)) else None
         case StringType => if |data| < f.dataSize then Some(Str(data + [0])) else None
         case FixedLengthBytes =>
           if data == [] then Some(Raw(seq(f.dataSize, _ => 0)))
           else if |data| == f.dataSize then Some(Raw(data))
           else None
         case Submessage =>
           if f.ptr.SubFields? && prev.Message? then
             var (m, _) :- DecMessage(f.ptr.fields, prev.slots, data);
             Some(Message(m))
           else None
         case _ => None)
      case _ => None
  }

  lemma StringRead(s: seq<byte>)
    requires TakePayload(2, s).Some? && LengthOk(2, s)
    ensures DecString(s) == Some((TakePayload(2, s).value.0.bytes, TakePayload(2, s).value.1))
  {
    hide TakeVarint, DecVarint32;
    DecVarint32Exactly(s);
  }

  lemma ValueRead(f: Field, prev: Value, s: seq<byte>)
    requires TakePayload(Kind(f.ltype), s).Some? && Short(Kind(f.ltype), s) && LengthOk(Kind(f.ltype), s)
    ensures var (p, rest) := TakePayload(Kind(f.ltype), s).value;
      DecValue(f, prev, s) == if ValueIn(f, prev, p).None? then None else Some((ValueIn(f, prev, p).value, rest))
  {
    hide TakeVarint, DecString, DecMessage, NumberIn, DecScalar, Short, LengthOk;
    if Packable(f.ltype) { NumberRead(f, s); } else { StringRead(s); }
  }

  // Arrays.

  /** More entries behind the `count` there are, if they fit and there is room. */
  function Append(f: Field, items: seq<Value>, count: nat, ps: seq<Payload>): Option<Filled>
    decreases |ps|
  {
    if ps == [] then Some(Filled(items, count))
    else if count >= f.arraySize then None
    else
      var v :- ValueIn(f, FreshValue(f), ps[0]);
      Append(f, if count < |items| then items[count := v] else items + [v], count + 1, ps[1..])
  }

  /** Packed varints are not longer than ten bytes. */
  predicate AllShort(wireType: nat, s: seq<byte>)
    decreases |s|
  {
    s == [] || (Short(wireType, s) && (TakePayload(wireType, s).Some? ==> AllShort(wireType, TakePayload(wireType, s).value.1)))
  }

  lemma {:induction false} PackedRead(f: Field, items: seq<Value>, count: nat, s: seq<byte>)
    requires Packable(f.ltype) && TakePayloads(Kind(f.ltype), s).Some? && AllShort(Kind(f.ltype), s)
    ensures DecPacked(f, items, count, s) == Append(f, items, count, TakePayloads(Kind(f.ltype), s).value)
    decreases |s|
  {
    hide DecScalar, NumberIn, TakePayload, Short;
    if s != [] {
      NumberRead(f, s);
      var (p, rest) := TakePayload(Kind(f.ltype), s).value;
      if count < f.arraySize && NumberIn(f, p).Some? {
        PackedRead(f, StoreItem(items, count, Int(NumberIn(f, p).value)), count + 1, rest);
      }
    }
  }

  /** The entries a payload brings to a repeated field. */
  function Entries(f: Field, p: Payload): Option<seq<Payload>> {
    if Packable(f.ltype) && p.Len? then TakePayloads(Kind(f.ltype), p.bytes) else Some([p])
  }

  /** A payload the field can have: its own wire type, or a packed run. */
  predicate Fits(f: Field, p: Payload) {
    || WireTypeOf(p) == Kind(f.ltype)
    || (f.htype.Repeated? && Packable(f.ltype) && p.Len? && TakePayloads(Kind(f.ltype), p.bytes).Some?
        && AllShort(Kind(f.ltype), p.bytes))
  }

  lemma RepeatedRead(f: Field, items: seq<Value>, count: nat, wireType: nat, s: seq<byte>)
    requires f.htype.Repeated? && TakePayload(wireType, s).Some? && Short(wireType, s) && LengthOk(wireType, s)
    requires Fits(f, TakePayload(wireType, s).value.0)
    ensures var (p, rest) := TakePayload(wireType, s).value;
      Entries(f, p).Some? &&
      DecRepeated(f, items, count, wireType, s) ==
        var filled := Append(f, items, count, Entries(f, p).value);
        if filled.None? then None else Some((filled.value, rest))
  {
    hide TakeVarint, DecString, DecValue, DecPacked, ValueIn, Short, LengthOk, FreshValue, TakePayloads, AllShort;
    var (p, rest) := TakePayload(wireType, s).value;
    if wireType == 2 && Packable(f.ltype) {
      StringRead(s);
      PackedRead(f, items, count, p.bytes);
    } else {
      ValueRead(f, FreshValue(f), s);
      AppendOne(f, items, count, p);
    }
  }

  lemma AppendOne(f: Field, items: seq<Value>, count: nat, p: Payload)
    ensures Append(f, items, count, [p]) ==
      if count >= f.arraySize || ValueIn(f, FreshValue(f), p).None? then None
      else Some(Filled(StoreItem(items, count, ValueIn(f, FreshValue(f), p).value), count + 1))
  {
    hide ValueIn, FreshValue;
  }

  // Fields.

  /** What a payload for entry `i` makes of the message: a later value takes the place of an earlier one, entries add up. */
  function Assign(fields: seq<Field>, i: nat, st: DecState, p: Payload): Option<DecState>
    requires i < |fields| == |st.msg|
  {
    var f, at := fields[i], Leader(fields, i);
    match (f.htype, st.msg[at])
    case (Required, Single(prev)) =>
      var v :- ValueIn(f, prev, p);
      Some(st.(msg := st.msg[at := Single(v)]))
    case (Optional, Single(prev)) =>
      var v :- ValueIn(f, prev, p);
      if f.sizeOffset == 0 then Some(st.(msg := st.msg[at := Single(v)])) else None
    case (Optional, Maybe(_, prev)) =>
      var v :- ValueIn(f, prev, p);
      if f.sizeOffset != 0 then Some(st.(msg := st.msg[at := Maybe(true, v)])) else None
    case (Repeated, Counted(items)) =>
      var ps :- Entries(f, p);
      var filled :- Append(f, items, |items|, ps);
      if f.sizeOffset != 0 then Some(st.(msg := st.msg[at := Counted(filled.items)])) else None
    case (Repeated, FixedArray(items)) =>
      var ps :- Entries(f, p);
      var filled :- Append(f, items, st.fixedCount, ps);
      if f.sizeOffset == 0 then Some(st.(msg := st.msg[at := FixedArray(filled.items)], fixedCount := filled.count)) else None
    case (Oneof, Union(_, _)) =>
      var v :- ValueIn(f, FreshValue(f), p);
      Some(st.(msg := st.msg[at := Union(f.tag, v)]))
    case _ => None
  }

  lemma StaticRead(fields: seq<Field>, i: nat, wireType: nat, st: DecState, s: seq<byte>)
    requires i < |fields| == |st.msg| && TakePayload(wireType, s).Some? && Short(wireType, s) && LengthOk(wireType, s)
    requires Fits(fields[i], TakePayload(wireType, s).value.0)
    ensures var (p, rest) := TakePayload(wireType, s).value;
      DecStatic(fields, i, wireType, st, s) ==
        if Assign(fields, i, st, p).None? then None else Some((Assign(fields, i, st, p).value, rest))
  {
    hide TakePayload, DecValue, DecRepeated, ValueIn, Short, LengthOk, FreshValue, TakePayloads, AllShort, Append, Entries, Leader;
    var f := fields[i];
    match st.msg[Leader(fields, i)]
    case Single(v) => if !f.htype.Repeated? { ValueRead(f, v, s); }
    case Maybe(_, v) => if !f.htype.Repeated? { ValueRead(f, v, s); }
    case Counted(items) => if f.htype.Repeated? { RepeatedRead(f, items, |items|, wireType, s); }
    case FixedArray(items) => if f.htype.Repeated? { RepeatedRead(f, items, st.fixedCount, wireType, s); }
    case Union(_, _) => if !f.htype.Repeated? { ValueRead(f, FreshValue(f), s); }
    case InUnion =>
  }

  /** The entry with a number, if the table has one. */
  function EntryOf(fields: seq<Field>, number: nat, i: nat): Option<nat>
    requires i <= |fields|
    decreases |fields| - i
  {
    if i == |fields| then None else if fields[i].tag == number then Some(i) else EntryOf(fields, number, i + 1)
  }

  lemma {:induction false} EntryFacts(fields: seq<Field>, number: nat, i: nat)
    requires i <= |fields|
    ensures var r := EntryOf(fields, number, i);
      if r.Some? then i <= r.value < |fields| && fields[r.value].tag == number
      else forall k :: i <= k < |fields| ==> fields[k].tag != number
    decreases |fields| - i
  {
    if i < |fields| { EntryFacts(fields, number, i + 1); }
  }

  /** One wire field, as the loop of pb_decode_noinit takes it: unknown numbers are passed over. */
  function Absorb(fields: seq<Field>, st: DecState, w: WireField): (r: Option<DecState>)
    requires StateOk(fields, st)
    ensures r.Some? ==> StateOk(fields, r.value)
  {
    var entry := EntryOf(fields, w.number, 0);
    EntryFacts(fields, w.number, 0);
    if entry.None? then Some(st)
    else
      var i: nat := entry.value;
      var entered :- EnterFixed(fields, i, st.(pos := i));
      Assign(fields, i, entered.(seen := NoteRequired(fields, i, entered.seen)), w.payload)
  }

  function AbsorbAll(fields: seq<Field>, st: DecState, ws: seq<WireField>): Option<DecState>
    requires StateOk(fields, st)
    decreases |ws|
  {
    if ws == [] then Some(st)
    else
      var st' :- Absorb(fields, st, ws[0]);
      AbsorbAll(fields, st', ws[1..])
  }

  /** Wire fields with numbers in range, and payloads that fit where the table knows the number. */
  predicate WellTyped(fields: seq<Field>, s: seq<byte>)
    decreases |s|
  {
    s == [] ||
      match TakeField(s)
      case None => false
      case Some((w, rest)) =>
        && 1 <= w.number <= 0x1FFF_FFFF
        && (w.payload.Len? ==> |w.payload.bytes| < 0x1_0000_0000)
        && (forall i :: 0 <= i < |fields| && fields[i].tag == w.number ==>
              Fits(fields[i], w.payload) && Short(WireTypeOf(w.payload), TakeVarint(s).value.1))
        && WellTyped(fields, rest)
  }

  lemma FieldRead(fields: seq<Field>, st: DecState, s: seq<byte>)
    requires TableOk(fields) && StateOk(fields, st) && s != [] && WellTyped(fields, s)
    ensures TakeField(s).Some?
    ensures var (w, rest) := TakeField(s).value;
      StepMessage(fields, st, s) == if Absorb(fields, st, w).None? then Failed else Next(Absorb(fields, st, w).value, rest)
  {
    hide TakePayload, DecTag, SkipField, Assign, DecStatic, FindFrom, EntryOf, Fits, Short, TableOk, EnterFixed, NoteRequired, FieldOk;
    var (w, rest') := TakeField(s).value;
    var (word, rest) := TakeVarint(s).value;
    assert word % 8 == WireTypeOf(w.payload);
    DecTagExactly(s);
    LengthIsOk(word % 8, rest);
    EntryFacts(fields, w.number, 0);
    match EntryOf(fields, w.number, 0)
    case None =>
      if fields != [] { NotKnown(fields, st.pos, w.number, |fields|); }
      SkipExactly(word % 8, rest);
    case Some(i) =>
      assert FieldOk(fields[i]) by { FieldAt(fields, i); }
      FieldFacts(fields[i]);
      Distinct(fields);
      FindFromDistinct(fields, st.pos, i, |fields|);
      var entered := EnterFixed(fields, i, st.(pos := i));
      if entered.Some? {
        EnterKeeps(fields, i, st.(pos := i));
        StaticRead(fields, i, word % 8, entered.value.(seen := NoteRequired(fields, i, entered.value.seen)), rest);
      }
  }

  lemma Distinct(fields: seq<Field>)
    requires TableOk(fields)
    ensures DistinctTags(fields)
  {
  }

  lemma LengthIsOk(wireType: nat, s: seq<byte>)
    requires TakePayload(wireType, s).Some?
    requires TakePayload(wireType, s).value.0.Len? ==> |TakePayload(wireType, s).value.0.bytes| < 0x1_0000_0000
    ensures LengthOk(wireType, s)
  {
    hide TakeVarint;
  }

  lemma EnterKeeps(fields: seq<Field>, i: nat, st: DecState)
    requires i < |fields| && EnterFixed(fields, i, st).Some?
    ensures EnterFixed(fields, i, st).value.msg == st.msg
  {
  }

  lemma {:induction false} NotKnown(fields: seq<Field>, i: nat, tag: nat, left: nat)
    requires i < |fields| && forall k :: 0 <= k < |fields| ==> fields[k].tag != tag
    ensures FindFrom(fields, i, tag, left) == None
    decreases left
  {
    if left > 0 { NotKnown(fields, if i + 1 < |fields| then i + 1 else 0, tag, left - 1); }
  }

  /** pb_decode_noinit takes in the fields one after the other. */
  lemma {:induction false} LoopAbsorbs(fields: seq<Field>, st: DecState, s: seq<byte>)
    requires TableOk(fields) && StateOk(fields, st) && WellTyped(fields, s)
    ensures TakeFields(s).Some?
    ensures DecLoop(fields, st, s) ==
      var r := AbsorbAll(fields, st, TakeFields(s).value);
      if r.None? then None else Some((r.value, []))
    decreases |s|
  {
    hide TakeField, StepMessage, Absorb, TableOk, Fits, Short;
    if s == [] {
      EndOfInput(fields, st);
    } else {
      FieldRead(fields, st, s);
      var (w, rest) := TakeField(s).value;
      if Absorb(fields, st, w).Some? { LoopAbsorbs(fields, Absorb(fields, st, w).value, rest); } else { TailTyped(fields, rest); }
    }
  }

  lemma EndOfInput(fields: seq<Field>, st: DecState)
    requires StateOk(fields, st)
    ensures StepMessage(fields, st, []) == Finished([])
  {
  }

  lemma {:induction false} TailTyped(fields: seq<Field>, s: seq<byte>)
    requires WellTyped(fields, s)
    ensures TakeFields(s).Some?
    decreases |s|
  {
    hide TakeField, Fits, Short;
    if s != [] { TailTyped(fields, TakeField(s).value.1); }
  }

  /**
    The message that pb_decode_noinit makes of such input, and whether it succeeds: all fields
    taken in, the last fixed-count array complete, and the required fields, up to the 64th, seen.
   */
  lemma DecodesFields(fields: seq<Field>, m: seq<Slot>, s: seq<byte>)
    requires TableOk(fields) && |m| == |fields| && WellTyped(fields, s)
    ensures TakeFields(s).Some?
    ensures DecMessage(fields, m, s) ==
      var r := AbsorbAll(fields, StartState(m), TakeFields(s).value);
      if r.None? || !FixedComplete(fields, r.value) || !RequiredSeen(fields, r.value.seen) then None else Some((r.value.msg, []))
  {
    hide TableOk, WellTyped, AbsorbAll, FixedComplete, RequiredSeen;
    LoopAbsorbs(fields, StartState(m), s);
  }
}
