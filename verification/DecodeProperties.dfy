/** What a successful decode says about the wire, and where encoder and decoder disagree. */
module DecodeProperties {
  import opened Bits
  import opened Wire
  import opened Descriptors
  import opened EncodeSpec
  import opened DecodeSpec
  import opened MessageShape
  import opened ScalarRoundTrip
  import opened RoundTrip
  import opened UnknownFields

  // Required fields.

  /** The tags pb_decode_noinit reads at field boundaries. */
  function TagsRead(fields: seq<Field>, st: DecState, s: seq<byte>): set<nat>
    requires StateOk(fields, st)
    decreases |s|
  {
    match StepMessage(fields, st, s)
    case Next(st', rest) => {DecTag(s).tag} + TagsRead(fields, st', rest)
    case _ => {}
  }

  /** Required field number `k` has tag `tag`. */
  ghost predicate RequiredTag(fields: seq<Field>, k: nat, tag: nat) {
    exists i: nat :: IsRequiredNumber(fields, i, k) && fields[i].tag == tag
  }

  ghost predicate IsRequiredNumber(fields: seq<Field>, i: nat, k: nat) {
    i < |fields| && fields[i].htype.Required? && RequiredBefore(fields, i) == k
  }

  lemma StaticKeepsSeen(fields: seq<Field>, i: nat, wireType: nat, st: DecState, s: seq<byte>)
    requires i < |fields| == |st.msg| && DecStatic(fields, i, wireType, st, s).Some?
    ensures DecStatic(fields, i, wireType, st, s).value.0.seen == st.seen
  {
    hide DecValue, DecRepeated, Leader, FreshValue;
  }

  /** One turn marks at most the required field whose tag it read. */
  lemma StepSees(fields: seq<Field>, st: DecState, s: seq<byte>, k: nat)
    requires StateOk(fields, st) && StepMessage(fields, st, s).Next?
    requires k in StepMessage(fields, st, s).st.seen && k !in st.seen
    ensures RequiredTag(fields, k, DecTag(s).tag)
  {
    hide DecTag, SkipField, FindFrom, RequiredBefore, DecStatic;
    var Tag(tag, wireType, rest) := DecTag(s);
    var i: nat := Find(fields, st.pos, tag).value;
    var entered := EnterFixed(fields, i, st.(pos := i)).value;
    StaticKeepsSeen(fields, i, wireType, entered.(seen := NoteRequired(fields, i, entered.seen)), rest);
    assert IsRequiredNumber(fields, i, k);
  }

  lemma NextReadTag(fields: seq<Field>, st: DecState, s: seq<byte>)
    requires StateOk(fields, st) && StepMessage(fields, st, s).Next?
    ensures DecTag(s).Tag?
  {
    hide DecTag, SkipField, FindFrom, DecKnown;
  }

  lemma {:induction false} SeenWasRead(fields: seq<Field>, st: DecState, s: seq<byte>, k: nat)
    requires StateOk(fields, st) && DecLoop(fields, st, s).Some?
    requires k in DecLoop(fields, st, s).value.0.seen && k !in st.seen
    ensures exists tag :: tag in TagsRead(fields, st, s) && RequiredTag(fields, k, tag)
    decreases |s|
  {
    hide StepMessage, RequiredTag;
    var Next(st', rest) := StepMessage(fields, st, s);
    assert DecTag(s).Tag? by { NextReadTag(fields, st, s); }
    if k in st'.seen {
      StepSees(fields, st, s, k);
      assert DecTag(s).tag in TagsRead(fields, st, s);
    } else {
      SeenWasRead(fields, st', rest, k);
    }
  }

  lemma {:induction false} NumbersGrow(fields: seq<Field>, i: nat, j: nat)
    requires i < j <= |fields| && fields[i].htype.Required?
    ensures RequiredBefore(fields, i) < RequiredBefore(fields, j)
  {
    if i + 1 < j { NumbersGrow(fields, i, j - 1); }
  }

  /** Decoding succeeds only if each of the first 64 required fields occurred on the wire. */
  lemma RequiredFieldsRead(fields: seq<Field>, m: seq<Slot>, s: seq<byte>, i: nat)
    requires DecMessage(fields, m, s).Some?
    requires i < |fields| && fields[i].htype.Required? && RequiredBefore(fields, i) < 64
    ensures |m| == |fields| && fields[i].tag in TagsRead(fields, StartState(m), s)
  {
    hide DecLoop, RequiredBefore, TagsRead;
    var k := RequiredBefore(fields, i);
    NumbersGrow(fields, i, |fields|);
    SeenWasRead(fields, StartState(m), s, k);
    var tag :| tag in TagsRead(fields, StartState(m), s) && RequiredTag(fields, k, tag);
    var j: nat :| IsRequiredNumber(fields, j, k) && fields[j].tag == tag;
    if i < j { NumbersGrow(fields, i, j); }
    if j < i { NumbersGrow(fields, j, i); }
  }

  // Strings without a terminator.

  /**
    The encoder writes any buffer, even one without a NUL; the decoder takes it back exactly
    when a NUL lies inside the buffer, and then the text is the same.
   */
  lemma StringAcceptedIff(lay: Layout, f: Field, buf: seq<byte>, prev: Value, t: seq<byte>)
    requires f.ltype.StringType? && |buf| == f.dataSize
    ensures EncValue(lay, f, Str(buf)).Some?
    ensures DecValue(f, prev, EncValue(lay, f, Str(buf)).value + t).Some? <==> 0 in buf
    ensures 0 in buf ==>
      var r := DecValue(f, prev, EncValue(lay, f, Str(buf)).value + t).value;
      r.1 == t && SameValue(f, Str(buf), r.0)
  {
    hide EncString, DecString;
    var data := Text(f, buf);
    StringRoundTrip(data, t);
    if 0 in buf {
      var k :| 0 <= k < |buf| && buf[k] == 0;
      assert |data| <= k;
      StrLenOf(data, f.dataSize);
      assert Text(f, data + [0]) == data;
    }
  }

  // Unknown fields inside an encoded message.

  /** An encoded message still reads the same after unknown fields are inserted at a field boundary. */
  lemma RoundTripWithUnknown(lay: Layout, fields: seq<Field>, m: seq<Slot>, a: seq<byte>, u: seq<byte>, t: seq<byte>)
    requires TableOk(fields) && MessageOk(lay, fields, m) && EncMessage(lay, fields, m) == Some(a + t)
    requires RunFields(fields, StartState(DefaultMessage(fields)), a).Some? && OnlyUnknown(fields, u)
    ensures var r := Decode(fields, a + u + t);
      r.Some? && r.value.1 == [] && SameMessage(fields, m, r.value.0)
  {
    hide EncMessage, DecMessage, RunFields, OnlyUnknown, DefaultMessage, FieldOk;
    MessageRoundTrip(lay, fields, m);
    UnknownFieldsTransparent(fields, DefaultMessage(fields), a, u, t);
  }

  // A fixed-count array inside a proto3 singular submessage.

  /** The raw read of line 228: the low 32 bits of the first item. */
  function FirstWord(fields: seq<Field>, m: seq<Slot>, i: nat): nat {
    if i < |m| && m[i].FixedArray? && m[i].items != [] && m[i].items[0].Int? then m[i].items[0].v % TWO_32 else 0
  }

  const CountedField: Field := Field(1, Fixed64, Repeated, Static, 0, 0, 8, 1, NullPtr)
  const OuterTable: seq<Field> := [Field(1, Submessage, Optional, Static, 0, 0, 8, 0, SubFields([CountedField]))]

  /** The item 2^32 reads as a zero count, so the submessage that holds it is not written at all. */
  lemma FixedCountArrayLost()
    ensures var m := [Single(Message([FixedArray([Int(TWO_32)])]))];
      && TableOk(OuterTable)
      && ValueOk(FirstWord, OuterTable[0], m[0].value)
      && EncMessage(FirstWord, OuterTable, m) == Some([])
      && Decode(OuterTable, []).Some?
      && !SameMessage(OuterTable, m, Decode(OuterTable, []).value.0)
  {
    hide EncVarint, LittleEndian, DecVarint32;
    var sub, slots := [CountedField], [FixedArray([Int(TWO_32)])];
    var f, v := OuterTable[0], Message(slots);
    assert TableOk(sub) by { assert FieldOk(CountedField); }
    assert FieldOk(f);
    InnerMessageOk();
    assert FieldIsZero(FirstWord, sub, slots, 0);
    assert IsZero(FirstWord, f, v) by { assert AllZeroFrom(FirstWord, sub, slots, 1); }
    var m := [Single(v)];
    assert EncField(FirstWord, OuterTable, m, 0) == Some([]);
    assert EncFrom(FirstWord, OuterTable, m, 1) == Some([]);
    PrependNothing(Some([]));
    var w := DefaultMessage(OuterTable);
    assert w[0] == Single(DefaultValueOf(f));
    assert DecLoop(OuterTable, StartState(w), []) == Some((StartState(w), []));
    assert RequiredBefore(OuterTable, 1) == 0;
    assert Decode(OuterTable, []) == Some((w, []));
    ZeroCheckExact(FirstWord, f, v);
    assert !FixedInWord(sub) by { ArrayInWord(sub[0]); }
    assert !SameField(OuterTable, m, w, 0);
  }

  lemma InnerMessageOk()
    ensures ValueOk(FirstWord, OuterTable[0], Message([FixedArray([Int(TWO_32)])]))
  {
    hide EncVarint, LittleEndian;
    var fields, m := [CountedField], [FixedArray([Int(TWO_32)])];
    var items := [Int(TWO_32)];
    assert EncPackedFrom(CountedField, items, 1) == Some([]);
    var b := LittleEndian(TWO_32, 8);
    assert EncScalar(CountedField, items[0]) == Some(b);
    assert EncPackedFrom(CountedField, items, 0) == Some(b + []);
    assert ItemsOk(FirstWord, CountedField, items);
    assert SlotOk(FirstWord, fields, m, 0);
    assert MessageOk(FirstWord, fields, m);
    EncVarintAtMostTen(10);
    EncVarintAtMostTen(8);
    assert EncFrom(FirstWord, fields, m, 1) == Some([]);
    assert EncField(FirstWord, fields, m, 0) == Some(EncTag(WT_STRING, 1) + EncString(b + []));
    assert EncMessage(FirstWord, fields, m) == Some(EncTag(WT_STRING, 1) + EncString(b + []) + []);
    assert LengthFits(EncMessage(FirstWord, fields, m));
    assert OuterTable[0].ptr.fields == fields;
  }
}
