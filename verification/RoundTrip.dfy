/** Decoding what was encoded gives the same message back. */
module RoundTrip {
  import opened Bits
  import opened Wire
  import opened Descriptors
  import opened EncodeSpec
  import opened DecodeSpec
  import opened MessageShape
  import opened ScalarRoundTrip

  // The table.

  lemma {:induction false} LeaderOneof(fields: seq<Field>, i: nat)
    requires i < |fields|
    ensures Leader(fields, i) != i ==> fields[i].htype.Oneof? && fields[Leader(fields, i)].htype.Oneof?
    ensures !ContinuesUnion(fields, Leader(fields, i))
  {
    if ContinuesUnion(fields, i) { LeaderOneof(fields, i - 1); }
  }

  /** Two entries stored in one slot are members of a oneof. */
  lemma SharedSlot(fields: seq<Field>, i: nat, k: nat)
    requires i < |fields| && k < |fields| && i != k
    requires Leader(fields, i) == Leader(fields, k)
    ensures fields[i].htype.Oneof? && fields[k].htype.Oneof?
  {
    LeaderOneof(fields, i);
    LeaderOneof(fields, k);
  }

  /** With distinct tags the search ends at the one entry that matches, wherever it starts. */
  lemma {:induction false} FindFromDistinct(fields: seq<Field>, p: nat, i: nat, left: nat)
    requires p < |fields| && i < |fields| && DistinctTags(fields) && !fields[i].ltype.Extension?
    requires (if p <= i then i - p else i + |fields| - p) < left
    ensures FindFrom(fields, p, fields[i].tag, left) == Some(i)
    decreases left
  {
    if p != i {
      FindFromDistinct(fields, if p + 1 < |fields| then p + 1 else 0, i, left - 1);
    }
  }

  /** A known field's tag word leads to its entry. */
  lemma KnownStep(fields: seq<Field>, st: DecState, i: nat, wireType: nat, tail: seq<byte>)
    requires TableOk(fields) && i < |fields| && StateOk(fields, st) && wireType < 8
    ensures StepMessage(fields, st, EncTag(wireType, fields[i].tag) + tail)
         == match DecKnown(fields, i, wireType, st, tail)
            case None => Failed
            case Some((st', rest)) => Next(st', rest)
  {
    hide DecKnown, DecTag, EncTag, FieldOk;
    assert FieldOk(fields[i]);
    assert 1 <= fields[i].tag <= MAX_TAG && !fields[i].ltype.Extension? by { FieldFacts(fields[i]); }
    TagRoundTrip(wireType, fields[i].tag, tail);
    FindFromDistinct(fields, st.pos, i, |fields|);
  }

  lemma FieldFacts(f: Field)
    requires FieldOk(f)
    ensures 1 <= f.tag <= MAX_TAG && f.atype.Static? && !f.ltype.Extension?
    ensures f.ltype.Submessage? ==> f.ptr.SubFields? && TableOk(f.ptr.fields)
    ensures WireType(f.ltype).Some? && WireType(f.ltype).value < 8
  {
  }

  // Zero values are the defaults.

  /** What the encoder leaves out of a proto3 message is what the decoder starts from. */
  lemma {:induction false} ZeroIsDefault(lay: Layout, f: Field, v: Value)
    requires FieldOk(f) && IsSingular(f) && ValueOk(lay, f, v) && IsZero(lay, f, v) && ZeroCheckSound(lay, f, v)
    ensures SameValue(f, v, DefaultValueOf(f))
    decreases f, 0
  {
    if f.ltype.Submessage? {
      AllZeroIsDefault(lay, f.ptr.fields, v.slots);
    } else if f.ltype.StringType? {
      assert DefaultValueOf(f) == Str([0]);
      assert Text(f, v.buf) == [] == Text(f, [0]);
    } else if f.ltype.FixedLengthBytes? {
      assert v.data == seq<byte>(f.dataSize, _ => 0);
    }
  }

  lemma {:induction false} AllZeroIsDefault(lay: Layout, fields: seq<Field>, m: seq<Slot>)
    requires TableOk(fields) && FixedInWord(fields) && MessageOk(lay, fields, m)
    requires AllZeroFrom(lay, fields, m, 0)
    ensures SameMessage(fields, m, DefaultMessage(fields))
    decreases fields, 1
  {
    hide DefaultSlot, DefaultMessage, SameField, FieldIsZero, SlotOk, FieldOk;
    var w := DefaultMessage(fields);
    forall i | 0 <= i < |fields|
      ensures SameField(fields, m, w, i)
    {
      AllZeroAt(lay, fields, m, 0, i);
      DefaultField(lay, fields, m, i);
    }
  }

  lemma {:induction false} AllZeroAt(lay: Layout, fields: seq<Field>, m: seq<Slot>, i: nat, k: nat)
    requires i <= k < |fields| && AllZeroFrom(lay, fields, m, i)
    ensures FieldIsZero(lay, fields, m, k)
    decreases k - i
  {
    hide FieldIsZero;
    if i < k { AllZeroAt(lay, fields, m, i + 1, k); }
  }

  lemma {:induction false} DefaultField(lay: Layout, fields: seq<Field>, m: seq<Slot>, i: nat)
    requires TableOk(fields) && FixedInWord(fields) && i < |fields| == |m|
    requires SlotOk(lay, fields, m, i) && FieldIsZero(lay, fields, m, i)
    ensures SameField(fields, m, DefaultMessage(fields), i)
    decreases fields, 0
  {
    hide DefaultMessage, ValueOk, SameValue, IsZero, FieldOk;
    var f, at := fields[i], Leader(fields, i);
    LeaderOneof(fields, i);
    assert FieldOk(f);
    FieldFacts(f);
    assert DefaultMessage(fields)[at] == DefaultSlot(fields, at);
    if IsSingular(f) { ZeroIsDefault(lay, f, m[at].value); }
    if HasFixedCount(f) { ClearedSame(fields, m, i); }
  }

  /** A fixed-count array that lies in its first word and reads as zero is the default. */
  lemma ClearedSame(fields: seq<Field>, m: seq<Slot>, i: nat)
    requires i < |fields| == |m| && HasFixedCount(fields[i]) && m[i].FixedArray? && |m[i].items| == fields[i].arraySize
    requires WordIsZero(fields[i], m[i].items) && ArrayCleared(fields[i])
    ensures SameField(fields, m, DefaultMessage(fields), i)
  {
    hide SameValue, Cleared, ClearValue, DefaultMessage;
    LeaderOneof(fields, i);
    assert DefaultMessage(fields)[i] == DefaultSlot(fields, i);
    assert ClearedFrom(fields[i], 0) == fields[i].arraySize;
  }

  /**
    A proto3 singular submessage that the zero check leaves out equals what the decoder starts
    from exactly when every fixed-count array of its table lies in its first word.
   */
  lemma ZeroCheckExact(lay: Layout, f: Field, v: Value)
    requires FieldOk(f) && IsSingular(f) && f.ltype.Submessage? && ValueOk(lay, f, v) && IsZero(lay, f, v)
    ensures SameValue(f, v, DefaultValueOf(f)) <==> FixedInWord(f.ptr.fields)
  {
    hide FieldOk, SlotOk, DefaultMessage, SelectionOk, AllZeroFrom, ArrayCleared;
    FieldFacts(f);
    var fields, m := f.ptr.fields, v.slots;
    if FixedInWord(fields) { ZeroIsDefault(lay, f, v); }
    if i :| 0 <= i < |fields| && HasFixedCount(fields[i]) && !ArrayCleared(fields[i]) {
      FixedArrayLost(lay, fields, m, i);
    }
  }

  /** The decoder leaves the entries of a longer array as the memory was. */
  lemma FixedArrayLost(lay: Layout, fields: seq<Field>, m: seq<Slot>, i: nat)
    requires i < |fields| == |m| && SlotOk(lay, fields, m, i)
    requires HasFixedCount(fields[i]) && !ArrayCleared(fields[i])
    ensures !SameField(fields, m, DefaultMessage(fields), i)
  {
    hide ValueOk, EncPackedFrom, DefaultMessage, Cleared, SameValue, ClearValue;
    LeaderOneof(fields, i);
    assert DefaultMessage(fields)[i] == DefaultSlot(fields, i);
    var k: nat :| k < fields[i].arraySize && !EntryCleared(fields[i], k);
    assert ClearedFrom(fields[i], 0) <= k;
  }

  /** For numbers and inline arrays: the array is at most as long as the word. */
  lemma ArrayInWord(f: Field)
    requires Packable(f.ltype) || f.ltype.FixedLengthBytes?
    ensures ArrayCleared(f) <==> f.dataSize * f.arraySize <= 4
  {
    var n, size := f.arraySize, f.dataSize;
    if n > 0 && size > 0 {
      assert EntryCleared(f, n - 1) <==> (n - 1) * size + size <= COUNT_SIZE;
      assert (n - 1) * size + size == size * n;
      if size * n <= COUNT_SIZE {
        forall k: nat | k < n ensures EntryCleared(f, k) {
          assert k * size + size <= (n - 1) * size + size by { assert (n - 1 - k) * size >= 0; }
        }
      }
    }
  }

  lemma TextEntry(f: Field, k: nat)
    requires (f.ltype.StringType? && f.dataSize > 0) || (f.ltype.BytesType? && f.dataSize >= BYTES_HEADER)
    ensures EntryCleared(f, k) <==> k * f.dataSize < if f.ltype.StringType? then COUNT_SIZE else 1
  {
  }

  lemma NotMore(j: nat, k: nat, size: nat)
    requires j <= k
    ensures j * size <= k * size
  {
    assert (k - j) * size >= 0;
  }

  /** For strings only the first byte of each entry counts, for byte arrays the size of the only one. */
  lemma TextInWord(f: Field)
    requires (f.ltype.StringType? && f.dataSize > 0) || (f.ltype.BytesType? && f.dataSize >= BYTES_HEADER)
    ensures ArrayCleared(f) <==> f.arraySize == 0 || (f.arraySize - 1) * f.dataSize < (if f.ltype.StringType? then 4 else 1)
  {
    hide EntryCleared;
    var n := f.arraySize;
    if n > 0 {
      TextEntry(f, n - 1);
      if EntryCleared(f, n - 1) {
        forall k: nat | k < n ensures EntryCleared(f, k) {
          TextEntry(f, k);
          NotMore(k, n - 1, f.dataSize);
        }
      }
    }
  }

  // The loop invariant of decoding an encoded message.

  /** The value of field `k` has arrived in `w`. */
  ghost predicate Received(fields: seq<Field>, m: seq<Slot>, w: seq<Slot>, k: nat)
    requires k < |fields| == |m| == |w|
  {
    var at := Leader(fields, k);
    if fields[k].htype.Oneof? then
      m[at].Union?
      && (m[at].which == fields[k].tag ==>
            w[at].Union? && w[at].which == fields[k].tag && SameValue(fields[k], m[at].value, w[at].value))
    else SameField(fields, m, w, k)
  }

  /** None of the fields before `i` is stored in slot `at`. */
  ghost predicate Pending(fields: seq<Field>, m: seq<Slot>, at: nat, i: nat)
    requires i <= |fields| == |m|
  {
    forall k :: 0 <= k < i && Leader(fields, k) == at ==> fields[k].htype.Oneof? && !Selects(fields, m, at, k)
  }

  ghost predicate AllReceived(fields: seq<Field>, m: seq<Slot>, w: seq<Slot>, i: nat)
    requires i <= |fields| == |m| == |w|
  {
    && (forall k :: 0 <= k < i ==> Received(fields, m, w, k))
    && (forall at :: 0 <= at < |fields| && Pending(fields, m, at, i) ==> w[at] == DefaultSlot(fields, at))
  }

  ghost predicate SeenUpTo(fields: seq<Field>, seen: set<nat>, i: nat)
    requires i <= |fields|
  {
    forall k: nat :: k < RequiredBefore(fields, i) && k < PB_MAX_REQUIRED_FIELDS ==> k in seen
  }

  ghost predicate FixedDone(fields: seq<Field>, st: DecState, i: nat) {
    FixedComplete(fields, st) && (st.fixedField.Some? ==> st.fixedField.value < i)
  }

  ghost predicate Decoded(fields: seq<Field>, m: seq<Slot>, st: DecState, i: nat)
    requires i <= |fields| == |m|
  {
    && StateOk(fields, st)
    && AllReceived(fields, m, st.msg, i)
    && SeenUpTo(fields, st.seen, i)
    && FixedDone(fields, st, i)
  }

  /** Nothing was written for field `i`: its slot still has the default, which reads the same. */
  lemma AbsentField(lay: Layout, fields: seq<Field>, m: seq<Slot>, i: nat, st: DecState)
    requires TableOk(fields) && i < |fields| == |m| && SlotOk(lay, fields, m, i)
    requires Decoded(fields, m, st, i) && !Present(lay, fields, m, i)
    ensures Decoded(fields, m, st, i + 1)
  {
    hide ValueOk, SameValue, IsZero, FieldOk, DefaultSlot, SameField, Leader, SlotOk;
    assert Received(fields, m, st.msg, i) by { AbsentReceived(lay, fields, m, i, st); }
    forall at | 0 <= at < |fields| && Pending(fields, m, at, i + 1)
      ensures Pending(fields, m, at, i)
    {
    }
    assert RequiredBefore(fields, i + 1) == RequiredBefore(fields, i);
  }

  lemma AbsentReceived(lay: Layout, fields: seq<Field>, m: seq<Slot>, i: nat, st: DecState)
    requires TableOk(fields) && i < |fields| == |m| && SlotOk(lay, fields, m, i)
    requires Decoded(fields, m, st, i) && !Present(lay, fields, m, i)
    ensures Received(fields, m, st.msg, i)
  {
    hide ValueOk, SameValue, IsZero, FieldOk, DefaultValueOf, Leader, Pending;
    var f := fields[i];
    assert FieldOk(f);
    if !f.htype.Oneof? {
      OwnSlotPending(fields, m, i);
      assert st.msg[i] == DefaultSlot(fields, i);
      if f.htype.Optional? && m[i].Single? {
        ZeroIsDefault(lay, f, m[i].value);
        assert SameField(fields, m, st.msg, i);
      } else {
        assert SameField(fields, m, st.msg, i);
      }
    }
  }

  lemma OwnSlotPending(fields: seq<Field>, m: seq<Slot>, i: nat)
    requires i < |fields| == |m| && !fields[i].htype.Oneof?
    ensures Leader(fields, i) == i && Pending(fields, m, i, i)
  {
    LeaderOneof(fields, i);
    forall k | 0 <= k < i && Leader(fields, k) == i
      ensures false
    {
      SharedSlot(fields, i, k);
    }
  }

  /** Whether the encoder writes field `i`. */
  ghost predicate Present(lay: Layout, fields: seq<Field>, m: seq<Slot>, i: nat)
    requires i < |fields| == |m|
  {
    match (fields[i].htype, m[Leader(fields, i)])
    case (Required, _) => true
    case (Optional, Maybe(has, _)) => has
    case (Optional, Single(v)) => !IsZero(lay, fields[i], v)
    case (Repeated, Counted(items)) => items != []
    case (Repeated, FixedArray(items)) => items != []
    case (Oneof, Union(which, _)) => which == fields[i].tag
    case _ => true
  }

  /** Storing field `i` in its slot keeps what arrived before. */
  lemma StoredField(fields: seq<Field>, m: seq<Slot>, i: nat, st: DecState, st': DecState, slot: Slot)
    requires TableOk(fields) && i < |fields| == |m|
    requires Decoded(fields, m, st, i) && StateOk(fields, st')
    requires st'.msg == st.msg[Leader(fields, i) := slot]
    requires fields[i].htype.Oneof? ==> Selects(fields, m, Leader(fields, i), i)
    requires Received(fields, m, st'.msg, i)
    requires st'.seen == NoteRequired(fields, i, st.seen)
    requires FixedDone(fields, st', i + 1)
    ensures Decoded(fields, m, st', i + 1)
  {
    hide Received, DefaultSlot, FixedDone, Pending, Leader, TableOk;
    StoredSlots(fields, m, i, st.msg, slot);
  }

  lemma StoredSlots(fields: seq<Field>, m: seq<Slot>, i: nat, w: seq<Slot>, slot: Slot)
    requires TableOk(fields) && i < |fields| == |m| == |w|
    requires AllReceived(fields, m, w, i)
    requires fields[i].htype.Oneof? ==> Selects(fields, m, Leader(fields, i), i)
    requires Received(fields, m, w[Leader(fields, i) := slot], i)
    ensures AllReceived(fields, m, w[Leader(fields, i) := slot], i + 1)
  {
    hide Received, DefaultSlot, Leader, TableOk, Selects;
    var at := Leader(fields, i);
    var w' := w[at := slot];
    forall k | 0 <= k < i + 1
      ensures Received(fields, m, w', k)
    {
      if k < i { KeptField(fields, m, i, w, slot, k); }
    }
    forall at' | 0 <= at' < |fields| && Pending(fields, m, at', i + 1)
      ensures w'[at'] == DefaultSlot(fields, at')
    {
      assert Pending(fields, m, at', i);
      assert at' != at;
    }
  }

  lemma KeptField(fields: seq<Field>, m: seq<Slot>, i: nat, w: seq<Slot>, slot: Slot, k: nat)
    requires TableOk(fields) && k < i < |fields| == |m| == |w|
    requires fields[i].htype.Oneof? ==> Selects(fields, m, Leader(fields, i), i)
    requires Received(fields, m, w, k)
    ensures Received(fields, m, w[Leader(fields, i) := slot], k)
  {
    hide SameValue, FieldOk, Leader;
    if Leader(fields, k) == Leader(fields, i) {
      SharedSlot(fields, i, k);
      assert fields[k].tag != fields[i].tag;
    } else if !fields[k].htype.Oneof? {
      var w' := w[Leader(fields, i) := slot];
      assert w'[Leader(fields, k)] == w[Leader(fields, k)];
      assert SameField(fields, m, w', k);
    }
  }

  // Single values.

  /** The slot a single value of field `i` is stored in. */
  function SlotOf(f: Field, v: Value): Slot {
    match f.htype
    case Required => Single(v)
    case Optional => if f.sizeOffset == 0 then Single(v) else Maybe(true, v)
    case Repeated => Counted([v])
    case Oneof => Union(f.tag, v)
  }

  /** The value the next occurrence of field `f`, stored in `slot`, is decoded into. */
  function PrevValue(f: Field, slot: Slot): Value {
    match slot
    case Single(v) => if f.htype.Oneof? then FreshValue(f) else v
    case Maybe(_, v) => if f.htype.Oneof? then FreshValue(f) else v
    case _ => FreshValue(f)
  }

  /** Before the first occurrence of field `i` its storage is in the default state. */
  lemma PrevIsFresh(lay: Layout, fields: seq<Field>, m: seq<Slot>, i: nat, st: DecState, w: Value)
    requires TableOk(fields) && i < |fields| == |m| && SlotOk(lay, fields, m, i)
    requires Decoded(fields, m, st, i) && Present(lay, fields, m, i) && !fields[i].htype.Repeated?
    ensures FreshFor(fields[i], PrevValue(fields[i], st.msg[Leader(fields, i)]))
    ensures SameConstructor(st.msg[Leader(fields, i)], SlotOf(fields[i], w))
    ensures fields[i].htype.Oneof? ==> Selects(fields, m, Leader(fields, i), i)
  {
    hide FieldOk, SameValue, ValueOk, IsZero, TableOk, RequiredBefore, Received;
    var f, at := fields[i], Leader(fields, i);
    FieldAt(fields, i);
    DefaultIsFresh(f);
    LeaderOneof(fields, i);
    assert Pending(fields, m, at, i) by {
      if f.htype.Oneof? { OnlyMember(fields, m, i); } else { OwnSlotPending(fields, m, i); }
    }
    assert st.msg[at] == DefaultSlot(fields, at);
  }

  lemma OnlyMember(fields: seq<Field>, m: seq<Slot>, i: nat)
    requires TableOk(fields) && i < |fields| == |m| && fields[i].htype.Oneof?
    requires Selects(fields, m, Leader(fields, i), i)
    ensures Pending(fields, m, Leader(fields, i), i)
  {
    hide FieldOk, Leader;
    forall k | 0 <= k < i && Leader(fields, k) == Leader(fields, i)
      ensures fields[k].htype.Oneof? && !Selects(fields, m, Leader(fields, i), k)
    {
      SharedSlot(fields, i, k);
      assert fields[k].tag != fields[i].tag;
    }
  }

  /** The value a field is decoded into is already in its default state. */
  ghost predicate FreshFor(f: Field, prev: Value) {
    f.ltype.Submessage? ==> f.ptr.SubFields? && prev == Message(DefaultMessage(f.ptr.fields))
  }

  lemma DefaultIsFresh(f: Field)
    requires FieldOk(f)
    ensures FreshFor(f, DefaultValueOf(f)) && FreshFor(f, FreshValue(f))
  {
  }

  /** Reading one tagged value of a field that is not repeated. */
  lemma SingleStep(fields: seq<Field>, st: DecState, i: nat, prev: Value, w: Value, b: seq<byte>, t: seq<byte>)
    requires TableOk(fields) && i < |fields| && StateOk(fields, st)
    requires !fields[i].htype.Repeated?
    requires prev == PrevValue(fields[i], st.msg[Leader(fields, i)])
    requires SameConstructor(st.msg[Leader(fields, i)], SlotOf(fields[i], w))
    requires DecValue(fields[i], prev, b + t) == Some((w, t))
    ensures var st' := st.(pos := i, seen := NoteRequired(fields, i, st.seen),
                           msg := st.msg[Leader(fields, i) := SlotOf(fields[i], w)]);
      StateOk(fields, st')
      && DecLoop(fields, st, EncTag(WireType(fields[i].ltype).Extract(), fields[i].tag) + (b + t)) == DecLoop(fields, st', t)
  {
    hide DecTag, EncTag, FieldOk, DecValue, FindFrom, Leader, FreshValue, NoteRequired, FieldOk, TableOk;
    var f := fields[i];
    assert FieldOk(f) by { FieldAt(fields, i); }
    FieldFacts(f);
    KnownStep(fields, st, i, WireType(f.ltype).value, b + t);
  }

  lemma FieldAt(fields: seq<Field>, i: nat)
    requires TableOk(fields) && i < |fields|
    ensures FieldOk(fields[i]) && fields[i].atype.Static?
    ensures WireType(fields[i].ltype).Some?
  {
    FieldFacts(fields[i]);
  }

  predicate SameConstructor(a: Slot, b: Slot) {
    (a.Single? && b.Single?) || (a.Maybe? && b.Maybe?) || (a.Union? && b.Union?)
  }

  // Repeated fields.

  /** What is known of a repeated field before its first entry arrives. */
  function Held(f: Field): seq<Value> {
    if f.sizeOffset == 0 then ClearedItems(f) else []
  }

  /** The slot of a repeated field after `items` have arrived. */
  function ArraySlot(f: Field, items: seq<Value>): Slot {
    if f.sizeOffset == 0 then FixedArray(Over(Held(f), items)) else Counted(items)
  }

  /** The first `k` entries of repeated field `i` have arrived in `st`. */
  ghost predicate ArrayAt(fields: seq<Field>, st: DecState, i: nat, got: seq<Value>)
    requires i < |fields|
  {
    && StateOk(fields, st)
    && fields[i].htype.Repeated?
    && st.msg[i] == ArraySlot(fields[i], got)
    && (if !HasFixedCount(fields[i]) then true
        else if got == [] then FixedComplete(fields, st) && st.fixedField != Some(i)
        else st.fixedField == Some(i) && st.fixedCount == |got|)
  }

  /** `st` after `items` have arrived in field `i`. */
  function WithItems(fields: seq<Field>, st: DecState, i: nat, items: seq<Value>): DecState
    requires i < |fields| == |st.msg|
  {
    var st' := st.(pos := i, msg := st.msg[i := ArraySlot(fields[i], items)]);
    if HasFixedCount(fields[i]) then st'.(fixedField := Some(i), fixedCount := |items|) else st'
  }

  /** Reading one tagged run of entries. */
  lemma ArrayStep(fields: seq<Field>, st: DecState, i: nat, wireType: nat, got: seq<Value>, got': seq<Value>,
                  b: seq<byte>, t: seq<byte>)
    requires TableOk(fields) && i < |fields| && ArrayAt(fields, st, i, got) && wireType < 8 && got' != []
    requires DecRepeated(fields[i], Over(Held(fields[i]), got), |got|, wireType, b + t)
          == Some((Filled(Over(Held(fields[i]), got'), |got'|), t))
    ensures var st' := WithItems(fields, st, i, got');
      ArrayAt(fields, st', i, got')
      && DecLoop(fields, st, EncTag(wireType, fields[i].tag) + (b + t)) == DecLoop(fields, st', t)
  {
    hide DecTag, EncTag, FieldOk, DecRepeated, FindFrom, TableOk, Over, ClearedItems;
    FieldAt(fields, i);
    FieldFacts(fields[i]);
    LeaderOneof(fields, i);
    OverAll(Held(fields[i]), got);
    OverAll(Held(fields[i]), got');
    KnownStep(fields, st, i, wireType, b + t);
  }

  // Induction over the table.

  /** pb_dec_* on what pb_enc_* wrote. */
  lemma {:induction false} ValueRoundTrip(lay: Layout, f: Field, v: Value, prev: Value, t: seq<byte>)
    requires FieldOk(f) && ValueOk(lay, f, v) && EncValue(lay, f, v).Some? && FreshFor(f, prev)
    ensures var r := DecValue(f, prev, EncValue(lay, f, v).value + t);
      r.Some? && r.value.1 == t && SameValue(f, v, r.value.0)
    decreases f, 0, 0
  {
    hide DecString, EncString, ValueOk, EncScalar, DecScalar, StoreString, DefaultMessage;
    if Packable(f.ltype) {
      ScalarInverse(lay, f, v, t);
    } else if f.ltype.Submessage? {
      SubmessageShape(lay, f, v);
      var b := EncMessage(lay, f.ptr.fields, v.slots).value;
      MessageRoundTrip(lay, f.ptr.fields, v.slots);
      StringRoundTrip(b, t);
    } else {
      StoreInverse(lay, f, v);
      var data :| |data| < TWO_32 && EncValue(lay, f, v) == Some(EncString(data))
                  && StoreString(f, data).Some? && SameValue(f, v, StoreString(f, data).value);
      StringRoundTrip(data, t);
    }
  }

  lemma SubmessageShape(lay: Layout, f: Field, v: Value)
    requires FieldOk(f) && ValueOk(lay, f, v) && EncValue(lay, f, v).Some? && f.ltype.Submessage?
    ensures v.Message? && f.ptr.SubFields? && TableOk(f.ptr.fields) && MessageOk(lay, f.ptr.fields, v.slots)
    ensures var b := EncMessage(lay, f.ptr.fields, v.slots);
      b.Some? && |b.value| < TWO_32 && EncValue(lay, f, v) == Some(EncString(b.value))
  {
  }

  /** An unpacked array, entry by entry. */
  lemma {:induction false} UnpackedRoundTrip(lay: Layout, fields: seq<Field>, i: nat, st: DecState,
                                             items: seq<Value>, got: seq<Value>, t: seq<byte>)
      returns (got': seq<Value>)
    requires TableOk(fields) && i < |fields| && ArrayAt(fields, st, i, got)
    requires |got| <= |items| <= fields[i].arraySize && !Packable(fields[i].ltype)
    requires ItemsOk(lay, fields[i], items) && SameItems(fields[i], items[..|got|], got)
    requires EncUnpackedFrom(lay, fields[i], items, |got|).Some? && items != []
    ensures |got'| == |items| && SameItems(fields[i], items, got')
    ensures |got| == |items| ==> got' == got
    ensures var st' := WithItems(fields, st, i, got');
      ArrayAt(fields, st', i, got')
      && (|got| < |items| ==>
            DecLoop(fields, st, EncUnpackedFrom(lay, fields[i], items, |got|).value + t) == DecLoop(fields, st', t))
    decreases fields, 0, |items| - |got|
  {
    hide DecLoop, EncTag, FieldOk, SameValue, ValueOk, EncValue, DecValue, TableOk, FreshValue, Over, StoreItem, Held;
    var f, k := fields[i], |got|;
    if k == |items| {
      got' := got;
      assert items[..k] == items;
    } else {
      FieldAt(fields, i);
      ItemEncoded(lay, f, items, k);
      var v := EncValue(lay, f, items[k]).value;
      var tail := EncUnpackedFrom(lay, f, items, k + 1).value;
      DefaultIsFresh(f);
      ValueRoundTrip(lay, f, items[k], FreshValue(f), tail + t);
      var w := DecValue(f, FreshValue(f), v + (tail + t)).value.0;
      StoreOver(Held(f), got, w);
      ArrayStep(fields, st, i, WireType(f.ltype).value, got, got + [w], v, tail + t);
      var st1 := WithItems(fields, st, i, got + [w]);
      assert SameItems(f, items[..k + 1], got + [w]);
      got' := UnpackedRoundTrip(lay, fields, i, st1, items, got + [w], t);
      assert WithItems(fields, st1, i, got') == WithItems(fields, st, i, got');
      assert EncUnpackedFrom(lay, f, items, k).value + t
          == EncTag(WireType(f.ltype).value, f.tag) + (v + (tail + t));
      if k + 1 == |items| {
        assert tail == [] && tail + t == t;
        assert st1 == WithItems(fields, st, i, got');
      }
    }
  }

  lemma ItemEncoded(lay: Layout, f: Field, items: seq<Value>, k: nat)
    requires k < |items| && EncUnpackedFrom(lay, f, items, k).Some? && ItemsOk(lay, f, items)
    ensures ValueOk(lay, f, items[k]) && EncValue(lay, f, items[k]).Some? && WireType(f.ltype).Some?
    ensures EncUnpackedFrom(lay, f, items, k + 1).Some?
    ensures EncUnpackedFrom(lay, f, items, k).value
         == EncTag(WireType(f.ltype).value, f.tag) + EncValue(lay, f, items[k]).value
            + EncUnpackedFrom(lay, f, items, k + 1).value
  {
    hide ValueOk, EncValue, EncTag;
  }

  /** All entries of a repeated field. */
  lemma {:induction false} RepeatedRoundTrip(lay: Layout, fields: seq<Field>, i: nat, st: DecState,
                                             items: seq<Value>, t: seq<byte>)
      returns (got: seq<Value>)
    requires TableOk(fields) && i < |fields| && ArrayAt(fields, st, i, [])
    requires 0 < |items| <= fields[i].arraySize
    requires ItemsOk(lay, fields[i], items) && EncArray(lay, fields[i], items).Some?
    ensures |got| == |items| && SameItems(fields[i], items, got)
    ensures var st' := WithItems(fields, st, i, got);
      ArrayAt(fields, st', i, got)
      && DecLoop(fields, st, EncArray(lay, fields[i], items).value + t) == DecLoop(fields, st', t)
    decreases fields, 1, 0
  {
    hide DecLoop, EncTag, FieldOk, SameValue, ValueOk, EncString, TableOk, EncUnpackedFrom, EncPackedFrom, DecString, DecPacked;
    hide Over, Held;
    var f := fields[i];
    if Packable(f.ltype) {
      var payload := EncPackedFrom(f, items, 0).value;
      got := items;
      PackedInverse(lay, f, Held(f), items, 0);
      assert items[..0] == [];
      StringRoundTrip(payload, t);
      ArrayStep(fields, st, i, WT_STRING, [], items, EncString(payload), t);
      assert EncArray(lay, f, items).value + t == EncTag(WT_STRING, f.tag) + (EncString(payload) + t);
      ScalarsSame(lay, f, items);
    } else {
      assert SameItems(f, items[..0], []);
      got := UnpackedRoundTrip(lay, fields, i, st, items, [], t);
    }
  }

  lemma ScalarsSame(lay: Layout, f: Field, items: seq<Value>)
    requires Packable(f.ltype)
    ensures SameItems(f, items, items)
  {
  }

  /** One field of the table, present or not. */
  lemma {:induction false} FieldRoundTrip(lay: Layout, fields: seq<Field>, m: seq<Slot>, i: nat, st: DecState, t: seq<byte>)
      returns (st': DecState)
    requires TableOk(fields) && i < |fields| == |m| && SlotOk(lay, fields, m, i)
    requires Decoded(fields, m, st, i) && EncField(lay, fields, m, i).Some?
    ensures Decoded(fields, m, st', i + 1)
    ensures DecLoop(fields, st, EncField(lay, fields, m, i).value + t) == DecLoop(fields, st', t)
    decreases fields, 2, 0
  {
    hide DecLoop, FieldOk, SameValue, ValueOk, Leader, Decoded, EncTagged, IsZero, Received, EncPackedFrom, EncUnpackedFrom;
    FieldAt(fields, i);
    if !Present(lay, fields, m, i) {
      AbsentField(lay, fields, m, i, st);
      st' := st;
      assert EncField(lay, fields, m, i) == Some([]);
      assert [] + t == t;
    } else if fields[i].htype.Repeated? {
      st' := PresentArray(lay, fields, m, i, st, t);
    } else {
      st' := PresentSingle(lay, fields, m, i, st, t);
    }
  }

  lemma {:induction false} PresentArray(lay: Layout, fields: seq<Field>, m: seq<Slot>, i: nat, st: DecState, t: seq<byte>)
      returns (st': DecState)
    requires TableOk(fields) && i < |fields| == |m| && SlotOk(lay, fields, m, i)
    requires Decoded(fields, m, st, i) && EncField(lay, fields, m, i).Some?
    requires Present(lay, fields, m, i) && fields[i].htype.Repeated?
    ensures Decoded(fields, m, st', i + 1)
    ensures DecLoop(fields, st, EncField(lay, fields, m, i).value + t) == DecLoop(fields, st', t)
    decreases fields, 1, 1
  {
    hide DecLoop, FieldOk, SameValue, ItemsOk, EncArray, TableOk, RequiredBefore, Pending, Over, WordIsZero, ClearValue;
    OwnSlotPending(fields, m, i);
    OverAll(Held(fields[i]), []);
    assert st.msg[i] == DefaultSlot(fields, i) == ArraySlot(fields[i], []);
    var items := m[i].items;
    var got := RepeatedRoundTrip(lay, fields, i, st, items, t);
    OverAll(Held(fields[i]), got);
    st' := WithItems(fields, st, i, got);
    assert Received(fields, m, st'.msg, i);
    StoredField(fields, m, i, st, st', ArraySlot(fields[i], got));
  }

  lemma {:induction false} PresentSingle(lay: Layout, fields: seq<Field>, m: seq<Slot>, i: nat, st: DecState, t: seq<byte>)
      returns (st': DecState)
    requires TableOk(fields) && i < |fields| == |m| && SlotOk(lay, fields, m, i)
    requires Decoded(fields, m, st, i) && EncField(lay, fields, m, i).Some?
    requires Present(lay, fields, m, i) && !fields[i].htype.Repeated?
    ensures Decoded(fields, m, st', i + 1)
    ensures DecLoop(fields, st, EncField(lay, fields, m, i).value + t) == DecLoop(fields, st', t)
    decreases fields, 1, 1
  {
    hide DecLoop, FieldOk, SameValue, ValueOk, EncValue, TableOk, RequiredBefore, EncTag, DecValue;
    var f, at := fields[i], Leader(fields, i);
    FieldAt(fields, i);
    var v := m[at].value;
    var prev := PrevValue(f, st.msg[at]);
    PrevIsFresh(lay, fields, m, i, st, v);
    assert EncField(lay, fields, m, i) == EncTagged(lay, f, v);
    var b := EncValue(lay, f, v).value;
    ValueRoundTrip(lay, f, v, prev, t);
    var w := DecValue(f, prev, b + t).value.0;
    PrevIsFresh(lay, fields, m, i, st, w);
    SingleStep(fields, st, i, prev, w, b, t);
    st' := st.(pos := i, seen := NoteRequired(fields, i, st.seen), msg := st.msg[at := SlotOf(f, w)]);
    assert EncTagged(lay, f, v).value + t == EncTag(WireType(f.ltype).Extract(), f.tag) + (b + t);
    assert Received(fields, m, st'.msg, i);
    StoredField(fields, m, i, st, st', SlotOf(f, w));
  }

  /** The fields from entry `i` on. */
  lemma {:induction false} FieldsRoundTrip(lay: Layout, fields: seq<Field>, m: seq<Slot>, i: nat, st: DecState)
      returns (st': DecState)
    requires TableOk(fields) && MessageOk(lay, fields, m) && i <= |fields|
    requires Decoded(fields, m, st, i) && EncFrom(lay, fields, m, i).Some?
    ensures Decoded(fields, m, st', |fields|)
    ensures DecLoop(fields, st, EncFrom(lay, fields, m, i).value) == Some((st', []))
    decreases fields, 3, |fields| - i
  {
    hide FieldOk, TableOk, Decoded, EncField, DecKnown, SlotOk;
    if i == |fields| {
      st' := st;
    } else {
      var tail := EncFrom(lay, fields, m, i + 1).value;
      var st1 := FieldRoundTrip(lay, fields, m, i, st, tail);
      st' := FieldsRoundTrip(lay, fields, m, i + 1, st1);
    }
  }

  lemma StartDecoded(fields: seq<Field>, m: seq<Slot>)
    requires |m| == |fields|
    ensures Decoded(fields, m, StartState(DefaultMessage(fields)), 0)
  {
  }

  lemma AllSame(lay: Layout, fields: seq<Field>, m: seq<Slot>, st: DecState)
    requires TableOk(fields) && MessageOk(lay, fields, m) && Decoded(fields, m, st, |fields|)
    ensures SameMessage(fields, m, st.msg)
  {
    hide SameValue, ValueOk, FixedDone, SeenUpTo;
    forall i | 0 <= i < |fields|
      ensures SameField(fields, m, st.msg, i)
    {
      assert Received(fields, m, st.msg, i);
      assert SlotOk(lay, fields, m, i);
      if fields[i].htype.Oneof? { UnionSame(lay, fields, m, st, i); }
    }
  }

  lemma UnionSame(lay: Layout, fields: seq<Field>, m: seq<Slot>, st: DecState, i: nat)
    requires TableOk(fields) && MessageOk(lay, fields, m) && Decoded(fields, m, st, |fields|)
    requires i < |fields| && fields[i].htype.Oneof?
    ensures SameField(fields, m, st.msg, i)
  {
    hide SameValue, ValueOk, FixedDone, SeenUpTo;
    var at := Leader(fields, i);
    assert SelectionOk(fields, m, i) && SlotOk(lay, fields, m, i) && Received(fields, m, st.msg, i);
    LeaderOneof(fields, i);
    if m[at].which != 0 {
      var k :| Selects(fields, m, at, k);
      if k != i { SharedSlot(fields, i, k); }
      assert Received(fields, m, st.msg, k);
    } else {
      assert Pending(fields, m, at, |fields|) by { NoneSelected(fields, m, i); }
      assert st.msg[at] == DefaultSlot(fields, at);
      FieldAt(fields, i);
      FieldFacts(fields[i]);
    }
  }

  lemma NoneSelected(fields: seq<Field>, m: seq<Slot>, i: nat)
    requires TableOk(fields) && i < |fields| == |m| && fields[i].htype.Oneof?
    requires m[Leader(fields, i)].Union? && m[Leader(fields, i)].which == 0
    ensures Pending(fields, m, Leader(fields, i), |fields|)
  {
    hide Leader;
    forall k | 0 <= k < |fields| && Leader(fields, k) == Leader(fields, i)
      ensures fields[k].htype.Oneof? && !Selects(fields, m, Leader(fields, i), k)
    {
      if k != i { SharedSlot(fields, i, k); }
      FieldAt(fields, k);
      FieldFacts(fields[k]);
    }
  }

  /**
    pb_decode of the bytes pb_encode writes succeeds, consumes all of them, and yields a message
    that reads the same.
   */
  lemma {:induction false} MessageRoundTrip(lay: Layout, fields: seq<Field>, m: seq<Slot>)
    requires TableOk(fields) && MessageOk(lay, fields, m) && EncMessage(lay, fields, m).Some?
    ensures var r := Decode(fields, EncMessage(lay, fields, m).value);
      r.Some? && r.value.1 == [] && SameMessage(fields, m, r.value.0)
    decreases fields, 4, 0
  {
    hide FieldOk, TableOk, DecLoop, EncFrom, SlotOk, AllReceived, SameField;
    StartDecoded(fields, m);
    var st := FieldsRoundTrip(lay, fields, m, 0, StartState(DefaultMessage(fields)));
    AllSame(lay, fields, m, st);
  }
}
