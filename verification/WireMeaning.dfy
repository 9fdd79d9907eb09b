/** What an encoded message says to a reader of the wire format: which fields, in which order, carrying what. */
module WireMeaning {
  import opened Bits
  import opened Wire
  import opened Descriptors
  import opened EncodeSpec
  import opened MessageShape
  import opened ScalarRoundTrip
  import opened RoundTrip
  import opened WireFormat
  import opened WireReading

  // The fields of a message.

  /** A number: two's complement in 64 bits, or zigzag, or so many bytes with the least significant first. */
  function ScalarPayload(f: Field, v: Value): Payload {
    var n := if v.Int? then v.v else 0;
    match f.ltype
    case SVarint => Num(if n < 0 then -2 * n - 1 else 2 * n)
    case Fixed32 => I32([n % 0x100, n / 0x100 % 0x100, n / 0x1_0000 % 0x100, n / 0x100_0000 % 0x100])
    case Fixed64 =>
      var hi := n / 0x1_0000_0000;
      I64([n % 0x100, n / 0x100 % 0x100, n / 0x1_0000 % 0x100, n / 0x100_0000 % 0x100,
           hi % 0x100, hi / 0x100 % 0x100, hi / 0x1_0000 % 0x100, hi / 0x100_0000 % 0x100])
    case _ => Num(n % 0x1_0000_0000_0000_0000)
  }

  function BytesOf(o: Option<seq<byte>>): seq<byte> {
    if o.Some? then o.value else []
  }

  function PayloadOf(lay: Layout, f: Field, v: Value): Payload {
    match v
    case Int(_) => ScalarPayload(f, v)
    case Bytes(data) => Len(data)
    case Str(buf) => Len(buf[..StrLen(buf, f.dataSize)])
    case Raw(data) => Len(data)
    case Message(slots) => Len(if f.ptr.SubFields? then BytesOf(EncMessage(lay, f.ptr.fields, slots)) else [])
  }

  function ValueField(lay: Layout, f: Field, v: Value): WireField {
    WireField(f.tag, PayloadOf(lay, f, v))
  }

  /** Numbers are packed into one field, other entries have one each. */
  function ItemFields(lay: Layout, f: Field, items: seq<Value>): seq<WireField> {
    if items == [] then []
    else if Packable(f.ltype) then [WireField(f.tag, Len(BytesOf(EncPackedFrom(f, items, 0))))]
    else ItemFieldsFrom(lay, f, items, 0)
  }

  function ItemFieldsFrom(lay: Layout, f: Field, items: seq<Value>, k: nat): seq<WireField>
    requires k <= |items|
    decreases |items| - k
  {
    if k == |items| then [] else [ValueField(lay, f, items[k])] + ItemFieldsFrom(lay, f, items, k + 1)
  }

  function EntryFields(lay: Layout, fields: seq<Field>, m: seq<Slot>, i: nat): seq<WireField>
    requires i < |fields| == |m|
  {
    var f := fields[i];
    match (f.htype, m[Leader(fields, i)])
    case (Required, Single(v)) => [ValueField(lay, f, v)]
    case (Optional, Maybe(has, v)) => if has then [ValueField(lay, f, v)] else []
    case (Optional, Single(v)) => if IsZero(lay, f, v) then [] else [ValueField(lay, f, v)]
    case (Repeated, Counted(items)) => ItemFields(lay, f, items)
    case (Repeated, FixedArray(items)) => ItemFields(lay, f, items)
    case (Oneof, Union(which, v)) => if which == f.tag then [ValueField(lay, f, v)] else []
    case _ => []
  }

  function MessageFields(lay: Layout, fields: seq<Field>, m: seq<Slot>, i: nat): seq<WireField>
    requires i <= |fields| == |m|
    decreases |fields| - i
  {
    if i == |fields| then [] else EntryFields(lay, fields, m, i) + MessageFields(lay, fields, m, i + 1)
  }

  // Values.

  lemma LittleEndianFour(n: nat)
    ensures LittleEndian(n, 4) == [n % 0x100, n / 0x100 % 0x100, n / 0x1_0000 % 0x100, n / 0x100_0000 % 0x100]
  {
    var a, b, c := n / 0x100, n / 0x1_0000, n / 0x100_0000;
    assert a / 0x100 == b && b / 0x100 == c;
    assert LittleEndian(c, 1) == [c % 0x100] + LittleEndian(c / 0x100, 0);
    assert LittleEndian(b, 2) == [b % 0x100] + LittleEndian(c, 1);
    assert LittleEndian(a, 3) == [a % 0x100] + LittleEndian(b, 2);
  }

  lemma LittleEndianEight(n: nat)
    ensures var hi := n / 0x1_0000_0000;
      LittleEndian(n, 8) == [n % 0x100, n / 0x100 % 0x100, n / 0x1_0000 % 0x100, n / 0x100_0000 % 0x100,
                             hi % 0x100, hi / 0x100 % 0x100, hi / 0x1_0000 % 0x100, hi / 0x100_0000 % 0x100]
  {
    var hi := n / 0x1_0000_0000;
    var a, b, c := n / 0x100, n / 0x1_0000, n / 0x100_0000;
    LittleEndianFour(hi);
    assert a / 0x100 == b && b / 0x100 == c && c / 0x100 == hi;
    assert LittleEndian(c, 5) == [c % 0x100] + LittleEndian(hi, 4);
    assert LittleEndian(b, 6) == [b % 0x100] + LittleEndian(c, 5);
    assert LittleEndian(a, 7) == [a % 0x100] + LittleEndian(b, 6);
  }

  /** What `b` holds is read as one payload of its wire type. */
  ghost predicate Carries(b: seq<byte>, p: Payload) {
    forall t :: TakePayload(WireTypeOf(p), b + t) == Some((p, t))
  }

  lemma VarintCarries(n: nat)
    ensures Carries(EncVarint(n), Num(n))
  {
    hide EncVarint, TakeVarint;
    forall t ensures TakePayload(0, EncVarint(n) + t) == Some((Num(n), t)) { EncVarintTaken(n, t); }
  }

  lemma BytesCarry(b: seq<byte>)
    ensures |b| == 4 ==> Carries(b, I32(b))
    ensures |b| == 8 ==> Carries(b, I64(b))
  {
    hide TakeVarint;
    forall t ensures (b + t)[..|b|] == b && (b + t)[|b|..] == t {}
  }

  lemma StringCarries(data: seq<byte>)
    requires |data| < TWO_64
    ensures Carries(EncString(data), Len(data))
  {
    hide EncVarint, TakeVarint;
    forall t ensures TakePayload(2, EncString(data) + t) == Some((Len(data), t)) {
      assert EncString(data) + t == EncVarint(|data|) + (data + t);
      EncVarintTaken(|data|, data + t);
      assert (data + t)[..|data|] == data && (data + t)[|data|..] == t;
    }
  }

  /** The four numbers of the wire types, by the type of the field. */
  lemma ScalarCarries(lay: Layout, f: Field, v: Value)
    requires Packable(f.ltype) && ValueOk(lay, f, v)
    ensures EncScalar(f, v).Some? && Carries(EncScalar(f, v).value, ScalarPayload(f, v))
    ensures WireType(f.ltype) == Some(WireTypeOf(ScalarPayload(f, v)))
  {
    hide EncVarint, Pow2, LittleEndian, AsSigned, AsUnsigned, ZigZag, Carries;
    RangeValues();
    match f.ltype
    case Varint =>
      SignedBits(v.v, f.dataSize);
      VarintCarries(v.v % TWO_64);
    case UVarint =>
      UnsignedBits(v.v, f.dataSize);
      VarintCarries(v.v);
    case SVarint =>
      SignedBits(v.v, f.dataSize);
      ZigZagOrder(v.v);
      VarintCarries(ZigZag(v.v));
    case Fixed32 =>
      LittleEndianFour(v.v);
      BytesCarry(LittleEndian(v.v, 4));
    case Fixed64 =>
      LittleEndianEight(v.v);
      BytesCarry(LittleEndian(v.v, 8));
  }

  lemma ValueCarries(lay: Layout, f: Field, v: Value)
    requires FieldOk(f) && ValueOk(lay, f, v) && EncValue(lay, f, v).Some?
    ensures Carries(EncValue(lay, f, v).value, PayloadOf(lay, f, v))
    ensures WireType(f.ltype) == Some(WireTypeOf(PayloadOf(lay, f, v)))
  {
    hide EncScalar, EncString, Carries, EncMessage, MessageOk, TableOk, ScalarPayload, AsSigned, AsUnsigned;
    if Packable(f.ltype) {
      ScalarCarries(lay, f, v);
    } else {
      match v
      case Bytes(data) => StringCarries(data);
      case Str(buf) => StringCarries(buf[..StrLen(buf, f.dataSize)]);
      case Raw(data) => StringCarries(data);
      case Message(slots) => StringCarries(EncMessage(lay, f.ptr.fields, slots).value);
      case Int(_) =>
    }
  }

  /** A tag word holds the field number and, in three bits, the wire type. */
  lemma TagThen(number: nat, p: Payload, b: seq<byte>, t: seq<byte>)
    requires Carries(b, p)
    ensures TakeField(EncTag(WireTypeOf(p), number) + b + t) == Some((WireField(number, p), t))
  {
    hide EncVarint, TakeVarint, TakePayload;
    var word := number * 8 + WireTypeOf(p);
    assert EncTag(WireTypeOf(p), number) + b + t == EncVarint(word) + (b + t);
    EncVarintTaken(word, b + t);
    assert word / 8 == number && word % 8 == WireTypeOf(p);
    assert TakePayload(word % 8, b + t) == Some((p, t));
  }

  /** One value of a field: a tag word and a payload that the tag word announces. */
  lemma TaggedTaken(lay: Layout, f: Field, v: Value, t: seq<byte>)
    requires FieldOk(f) && ValueOk(lay, f, v) && EncTagged(lay, f, v).Some?
    ensures TakeField(EncTagged(lay, f, v).value + t) == Some((ValueField(lay, f, v), t))
  {
    hide EncValue, EncTag, PayloadOf, TakeField, Carries, FieldOk, ValueOk;
    ValueCarries(lay, f, v);
    TagThen(f.tag, PayloadOf(lay, f, v), EncValue(lay, f, v).value, t);
  }

  // Arrays.

  function ScalarPayloads(f: Field, items: seq<Value>, k: nat): seq<Payload>
    requires k <= |items|
    decreases |items| - k
  {
    if k == |items| then [] else [ScalarPayload(f, items[k])] + ScalarPayloads(f, items, k + 1)
  }

  /** A packed array holds its entries one after the other, as they would stand in fields of their own. */
  lemma {:induction false} PackedTaken(lay: Layout, f: Field, items: seq<Value>, k: nat)
    requires Packable(f.ltype) && k < |items| && forall j :: 0 <= j < |items| ==> ValueOk(lay, f, items[j])
    ensures EncPackedFrom(f, items, k).Some?
    ensures TakePayloads(WireTypeOf(ScalarPayload(f, items[0])), EncPackedFrom(f, items, k).value)
         == Some(ScalarPayloads(f, items, k))
    decreases |items| - k
  {
    hide EncScalar, ScalarPayload, ValueOk, TakePayload;
    ScalarCarries(lay, f, items[k]);
    ScalarCarries(lay, f, items[0]);
    var wt := WireTypeOf(ScalarPayload(f, items[0]));
    assert wt == WireTypeOf(ScalarPayload(f, items[k]));
    var b := EncScalar(f, items[k]).value;
    if k + 1 < |items| {
      PackedTaken(lay, f, items, k + 1);
    } else {
      assert EncPackedFrom(f, items, k + 1) == Some([]);
    }
    var more := EncPackedFrom(f, items, k + 1).value;
    assert TakePayload(wt, b + more) == Some((ScalarPayload(f, items[k]), more));
    PayloadsStep(wt, b + more);
  }

  lemma PayloadsStep(wireType: nat, s: seq<byte>)
    requires TakePayload(wireType, s).Some? && TakePayloads(wireType, TakePayload(wireType, s).value.1).Some?
    ensures var (p, rest) := TakePayload(wireType, s).value;
      TakePayloads(wireType, s) == Some([p] + TakePayloads(wireType, rest).value)
  {
  }

  lemma {:induction false} ItemsTaken(lay: Layout, f: Field, items: seq<Value>, k: nat)
    requires FieldOk(f) && k <= |items| && ItemsOk(lay, f, items) && EncUnpackedFrom(lay, f, items, k).Some?
    ensures TakeFields(EncUnpackedFrom(lay, f, items, k).value) == Some(ItemFieldsFrom(lay, f, items, k))
    decreases |items| - k
  {
    hide EncTagged, ValueField, FieldOk, ValueOk, TakeField, EncPackedFrom;
    if k < |items| {
      var more := EncUnpackedFrom(lay, f, items, k + 1).value;
      TaggedTaken(lay, f, items[k], more);
      TakenGrowsLess(EncTagged(lay, f, items[k]).value + more);
      ItemsTaken(lay, f, items, k + 1);
    }
  }

  lemma TakenGrowsLess(s: seq<byte>)
    ensures TakeField(s).Some? ==> s != [] && |TakeField(s).value.1| < |s|
  {
  }

  lemma ArrayTaken(lay: Layout, f: Field, items: seq<Value>)
    requires FieldOk(f) && ItemsOk(lay, f, items) && EncArray(lay, f, items).Some?
    ensures TakeFields(EncArray(lay, f, items).value) == Some(ItemFields(lay, f, items))
  {
    hide EncTag, EncString, FieldOk, ValueOk, TakeField, EncPackedFrom, EncUnpackedFrom, ItemFieldsFrom, Carries;
    if items != [] {
      if Packable(f.ltype) {
        var payload := EncPackedFrom(f, items, 0).value;
        StringCarries(payload);
        TagThen(f.tag, Len(payload), EncString(payload), []);
        OnlyField(EncTag(WT_STRING, f.tag) + EncString(payload), WireField(f.tag, Len(payload)));
      } else {
        ItemsTaken(lay, f, items, 0);
      }
    }
  }

  lemma OnlyField(b: seq<byte>, w: WireField)
    requires TakeField(b + []) == Some((w, []))
    ensures TakeFields(b) == Some([w])
  {
    hide TakeField;
    assert b + [] == b;
    assert TakeFields([]) == Some([]);
    TakenGrowsLess(b);
    assert [w] + [] == [w];
  }

  // Messages.

  lemma EntryTaken(lay: Layout, fields: seq<Field>, m: seq<Slot>, i: nat)
    requires TableOk(fields) && i < |fields| == |m| && SlotOk(lay, fields, m, i) && EncField(lay, fields, m, i).Some?
    ensures TakeFields(EncField(lay, fields, m, i).value) == Some(EntryFields(lay, fields, m, i))
  {
    hide FieldOk, ValueOk, EncTagged, EncArray, ItemFields, IsZero, ValueField, TakeField, Leader, WordIsZero, ItemsOk;
    var f, slot := fields[i], m[Leader(fields, i)];
    assert FieldOk(f);
    if f.htype.Repeated? {
      ArrayTaken(lay, f, slot.items);
    } else if EntryFields(lay, fields, m, i) != [] {
      TaggedTaken(lay, f, slot.value, []);
      OnlyField(EncTagged(lay, f, slot.value).value, ValueField(lay, f, slot.value));
    }
  }

  /** The fields of the entries from `i` on. */
  lemma {:induction false} EncodedFields(lay: Layout, fields: seq<Field>, m: seq<Slot>, i: nat)
    requires TableOk(fields) && MessageOk(lay, fields, m) && i <= |fields| && EncFrom(lay, fields, m, i).Some?
    ensures TakeFields(EncFrom(lay, fields, m, i).value) == Some(MessageFields(lay, fields, m, i))
    decreases |fields| - i
  {
    hide EncField, EntryFields, TableOk, SlotOk, TakeField, SelectionOk;
    if i < |fields| {
      EncodedFields(lay, fields, m, i + 1);
      EntryTaken(lay, fields, m, i);
      FieldsThen(EncField(lay, fields, m, i).value, EncFrom(lay, fields, m, i + 1).value);
    }
  }

  /**
    A reader that knows no field table steps over an encoded message exactly, field by field, and
    finds the fields of the message in the order of the table, with their numbers, wire types and
    values.
   */
  lemma MessageOnWire(lay: Layout, fields: seq<Field>, m: seq<Slot>)
    requires TableOk(fields) && MessageOk(lay, fields, m) && EncMessage(lay, fields, m).Some?
    ensures TakeFields(EncMessage(lay, fields, m).value) == Some(MessageFields(lay, fields, m, 0))
  {
    hide MessageOk, TableOk, EncFrom;
    EncodedFields(lay, fields, m, 0);
  }

  // What is left out.

  /** Nothing of entry `i` would be written; of a fixed-count array, its first word is all that counts. */
  ghost predicate Blank(lay: Layout, fields: seq<Field>, m: seq<Slot>, i: nat)
    requires i < |fields| == |m|
  {
    if HasFixedCount(fields[i]) then lay(fields, m, i) == 0 else EntryFields(lay, fields, m, i) == []
  }

  lemma BlankEntry(lay: Layout, fields: seq<Field>, m: seq<Slot>, i: nat)
    requires TableOk(fields) && i < |fields| == |m| && SlotOk(lay, fields, m, i)
    ensures FieldIsZero(lay, fields, m, i) ==> Blank(lay, fields, m, i)
    ensures Blank(lay, fields, m, i) && !fields[i].htype.Oneof? ==> FieldIsZero(lay, fields, m, i)
  {
    hide ValueOk, ItemsOk, IsZero, PayloadOf, WordIsZero, Leader;
    assert FieldOk(fields[i]);
    FieldFacts(fields[i]);
  }

  lemma SelectedIsWritten(lay: Layout, fields: seq<Field>, m: seq<Slot>, at: nat, k: nat)
    requires |fields| == |m| && Selects(fields, m, at, k) && fields[k].htype.Oneof?
    ensures !Blank(lay, fields, m, k)
  {
    hide Leader, PayloadOf;
  }

  /** A oneof none of whose members is written selects nothing. */
  lemma BlankUnion(lay: Layout, fields: seq<Field>, m: seq<Slot>, i: nat)
    requires MessageOk(lay, fields, m) && i < |fields| == |m| && fields[i].htype.Oneof?
    requires forall k :: 0 <= k < |fields| ==> Blank(lay, fields, m, k)
    ensures FieldIsZero(lay, fields, m, i)
  {
    hide ValueOk, ItemsOk, IsZero, PayloadOf, WordIsZero, Leader;
    var at := Leader(fields, i);
    assert SlotOk(lay, fields, m, i) && SelectionOk(fields, m, i);
    if m[at].which != 0 {
      var k: nat :| Selects(fields, m, at, k);
      if k != i { SharedSlot(fields, i, k); }
      SelectedIsWritten(lay, fields, m, at, k);
    }
  }

  ghost predicate EachZero(lay: Layout, fields: seq<Field>, m: seq<Slot>, i: nat) {
    forall k :: i <= k < |fields| ==> FieldIsZero(lay, fields, m, k)
  }

  lemma {:induction false} AllZeroIs(lay: Layout, fields: seq<Field>, m: seq<Slot>, i: nat)
    requires i <= |fields|
    ensures AllZeroFrom(lay, fields, m, i) <==> EachZero(lay, fields, m, i)
    decreases |fields| - i
  {
    hide FieldIsZero;
    if i < |fields| {
      AllZeroIs(lay, fields, m, i + 1);
      if AllZeroFrom(lay, fields, m, i) { AllZeroAt(lay, fields, m, i, i); }
      if EachZero(lay, fields, m, i) { assert FieldIsZero(lay, fields, m, i); }
    }
  }

  /**
    A proto3 singular field is left out exactly when its number is 0, its bytes or text are
    empty, or its message is one of which nothing would be written.
   */
  lemma LeftOutExactly(lay: Layout, f: Field, v: Value)
    requires FieldOk(f) && ValueOk(lay, f, v)
    ensures v.Int? ==> (IsZero(lay, f, v) <==> v.v == 0)
    ensures v.Bytes? || v.Raw? ==> (IsZero(lay, f, v) <==> v.data == [])
    ensures v.Str? ==> (IsZero(lay, f, v) <==> v.buf[0] == 0)
    ensures v.Message? ==> f.ptr.SubFields? && |v.slots| == |f.ptr.fields|
    ensures v.Message? ==>
      (IsZero(lay, f, v) <==> forall i :: 0 <= i < |v.slots| ==> Blank(lay, f.ptr.fields, v.slots, i))
  {
    hide Blank, FieldIsZero, SlotOk, SelectionOk, AllZeroFrom, AsSigned, AsUnsigned, EncMessage, TableOk;
    if v.Message? {
      var fields, m := f.ptr.fields, v.slots;
      AllZeroIs(lay, fields, m, 0);
      if forall i :: 0 <= i < |m| ==> Blank(lay, fields, m, i) {
        forall i | 0 <= i < |m| ensures FieldIsZero(lay, fields, m, i) {
          BlankEntry(lay, fields, m, i);
          if fields[i].htype.Oneof? { BlankUnion(lay, fields, m, i); }
        }
        assert EachZero(lay, fields, m, 0);
      }
      if EachZero(lay, fields, m, 0) {
        forall i | 0 <= i < |m| ensures Blank(lay, fields, m, i) { BlankEntry(lay, fields, m, i); }
      }
    }
  }

  // What is refused.

  /** A value is refused for its storage width, its length or its kind, and a submessage with anything inside it. */
  lemma ValueRefused(lay: Layout, f: Field, v: Value)
    ensures f.ltype.Varint? || f.ltype.UVarint? || f.ltype.SVarint? ==>
      (EncValue(lay, f, v).None? <==> f.dataSize != 1 && f.dataSize != 2 && f.dataSize != 4 && f.dataSize != 8)
    ensures f.ltype.Fixed32? || f.ltype.Fixed64? ==> EncValue(lay, f, v).Some?
    ensures f.ltype.BytesType? && v.Bytes? ==> (EncValue(lay, f, v).None? <==> |v.data| + 4 > f.dataSize)
    ensures f.ltype.StringType? && v.Str? ==> EncValue(lay, f, v).Some?
    ensures f.ltype.FixedLengthBytes? && v.Raw? ==> (EncValue(lay, f, v).None? <==> |v.data| != f.dataSize)
    ensures f.ltype.Submessage? && v.Message? && f.ptr.SubFields? ==>
      (EncValue(lay, f, v).None? <==> EncMessage(lay, f.ptr.fields, v.slots).None?)
    ensures f.ltype.Extension? ==> EncValue(lay, f, v).None?
  {
    hide EncVarint, EncMessage, LittleEndian, ZigZag;
  }

  ghost predicate AllEncode(lay: Layout, f: Field, items: seq<Value>, k: nat) {
    forall j :: k <= j < |items| ==> EncValue(lay, f, items[j]).Some?
  }

  lemma {:induction false} ItemsRefused(lay: Layout, f: Field, items: seq<Value>, k: nat)
    requires k <= |items|
    ensures Packable(f.ltype) ==>
      (EncPackedFrom(f, items, k).Some? <==> AllEncode(lay, f, items, k))
    ensures !f.ltype.Extension? ==>
      (EncUnpackedFrom(lay, f, items, k).Some? <==> AllEncode(lay, f, items, k))
    decreases |items| - k
  {
    hide EncScalar, EncTag;
    if k < |items| { ItemsRefused(lay, f, items, k + 1); }
  }

  ghost predicate EachEncodes(lay: Layout, fields: seq<Field>, m: seq<Slot>, i: nat)
    requires |fields| == |m|
  {
    forall k :: i <= k < |fields| ==> EncField(lay, fields, m, k).Some?
  }

  lemma {:induction false} FieldsRefused(lay: Layout, fields: seq<Field>, m: seq<Slot>, i: nat)
    requires i <= |fields| == |m|
    ensures EncFrom(lay, fields, m, i).Some? <==> EachEncodes(lay, fields, m, i)
    decreases |fields| - i
  {
    hide EncField;
    if i < |fields| {
      FieldsRefused(lay, fields, m, i + 1);
      assert EachEncodes(lay, fields, m, i) <==> EncField(lay, fields, m, i).Some? && EachEncodes(lay, fields, m, i + 1);
    }
  }

  /** The values of entry `i` that are written. */
  function Written(lay: Layout, fields: seq<Field>, m: seq<Slot>, i: nat): seq<Value>
    requires i < |fields| == |m|
  {
    match m[Leader(fields, i)]
    case Single(v) => if fields[i].htype.Optional? && IsZero(lay, fields[i], v) then [] else [v]
    case Maybe(has, v) => if has then [v] else []
    case Counted(items) => items
    case FixedArray(items) => items
    case Union(which, v) => if which == fields[i].tag then [v] else []
    case InUnion => []
  }

  /** Every value of entry `i` that is to be written can be. */
  ghost predicate ValuesEncode(lay: Layout, fields: seq<Field>, m: seq<Slot>, i: nat)
    requires i < |fields| == |m|
  {
    forall v :: v in Written(lay, fields, m, i) ==> EncValue(lay, fields[i], v).Some?
  }

  /** A message of the right layout is refused exactly for one of the values to be written. */
  lemma MessageRefused(lay: Layout, fields: seq<Field>, m: seq<Slot>)
    requires TableOk(fields) && |m| == |fields| && forall i :: 0 <= i < |fields| ==> SlotOk(lay, fields, m, i)
    ensures EncMessage(lay, fields, m).Some? <==> forall i :: 0 <= i < |fields| ==> ValuesEncode(lay, fields, m, i)
  {
    hide TableOk, SlotOk, EncField, EncFrom, ValuesEncode;
    FieldsRefused(lay, fields, m, 0);
    forall i | 0 <= i < |fields|
      ensures EncField(lay, fields, m, i).Some? <==> ValuesEncode(lay, fields, m, i)
    {
      FieldRefused(lay, fields, m, i);
    }
  }

  lemma FieldRefused(lay: Layout, fields: seq<Field>, m: seq<Slot>, i: nat)
    requires TableOk(fields) && i < |fields| == |m| && SlotOk(lay, fields, m, i)
    ensures EncField(lay, fields, m, i).Some? <==> ValuesEncode(lay, fields, m, i)
  {
    hide ValueOk, EncValue, EncPackedFrom, EncUnpackedFrom, IsZero, Leader, FieldOk, WordIsZero, EncTag, EncString;
    var f := fields[i];
    assert FieldOk(f);
    FieldFacts(f);
    if f.htype.Repeated? {
      ItemsRefused(lay, f, m[Leader(fields, i)].items, 0);
      MembersEncode(lay, fields, m, i);
    } else if Written(lay, fields, m, i) != [] {
      assert Written(lay, fields, m, i) == [m[Leader(fields, i)].value];
      assert m[Leader(fields, i)].value in Written(lay, fields, m, i);
    }
  }

  lemma MembersEncode(lay: Layout, fields: seq<Field>, m: seq<Slot>, i: nat)
    requires i < |fields| == |m| && (m[Leader(fields, i)].Counted? || m[Leader(fields, i)].FixedArray?)
    ensures ValuesEncode(lay, fields, m, i) <==> AllEncode(lay, fields[i], m[Leader(fields, i)].items, 0)
  {
    hide EncValue, Leader;
    var items := m[Leader(fields, i)].items;
    assert Written(lay, fields, m, i) == items;
    if ValuesEncode(lay, fields, m, i) {
      forall j | 0 <= j < |items| ensures EncValue(lay, fields[i], items[j]).Some? { assert items[j] in items; }
    }
  }
}
