/** What a successful decode of wire fields says: what is absent, what is complete, what was required. */
module WireResults {
  import opened Bits
  import opened Wire
  import opened Descriptors
  import opened DecodeSpec
  import opened MessageShape
  import opened RoundTrip
  import opened WireFormat
  import opened WireDecoding
  import opened DecodeProperties

  predicate Occurs(ws: seq<WireField>, number: nat) {
    exists k :: 0 <= k < |ws| && ws[k].number == number
  }

  lemma OccursStep(ws: seq<WireField>, number: nat)
    requires ws != []
    ensures Occurs(ws, number) <==> ws[0].number == number || Occurs(ws[1..], number)
  {
    if Occurs(ws, number) {
      var k :| 0 <= k < |ws| && ws[k].number == number;
      if k > 0 { assert ws[1..][k - 1].number == number; }
    }
    if Occurs(ws[1..], number) {
      var k :| 0 <= k < |ws[1..]| && ws[1..][k].number == number;
      assert ws[k + 1].number == number;
    }
  }

  // What is absent.

  /** One wire field changes no slot but that of its entry. */
  lemma OtherSlotStays(fields: seq<Field>, st: DecState, w: WireField, at: nat)
    requires StateOk(fields, st) && at < |fields| && Absorb(fields, st, w).Some?
    requires forall i :: 0 <= i < |fields| && fields[i].tag == w.number ==> Leader(fields, i) != at
    ensures Absorb(fields, st, w).value.msg[at] == st.msg[at]
  {
    hide Assign, Leader, NoteRequired;
    EntryFacts(fields, w.number, 0);
    if EntryOf(fields, w.number, 0).Some? {
      var i := EntryOf(fields, w.number, 0).value;
      EnterKeeps(fields, i, st.(pos := i));
      var entered := EnterFixed(fields, i, st.(pos := i)).value;
      OnlyItsSlot(fields, i, entered.(seen := NoteRequired(fields, i, entered.seen)), w.payload, at);
    }
  }

  lemma OnlyItsSlot(fields: seq<Field>, i: nat, st: DecState, p: Payload, at: nat)
    requires i < |fields| == |st.msg| && at < |fields| && Leader(fields, i) != at && Assign(fields, i, st, p).Some?
    ensures Assign(fields, i, st, p).value.msg[at] == st.msg[at]
  {
    hide ValueIn, Append, Entries, FreshValue, Leader;
  }

  lemma {:induction false} Untouched(fields: seq<Field>, st: DecState, ws: seq<WireField>, at: nat)
    requires StateOk(fields, st) && at < |fields| && AbsorbAll(fields, st, ws).Some?
    requires forall i :: 0 <= i < |fields| && Leader(fields, i) == at ==> !Occurs(ws, fields[i].tag)
    ensures StateOk(fields, AbsorbAll(fields, st, ws).value)
    ensures AbsorbAll(fields, st, ws).value.msg[at] == st.msg[at]
    decreases |ws|
  {
    hide Absorb, Leader, Occurs;
    if ws != [] {
      forall number: nat ensures Occurs(ws, number) <==> ws[0].number == number || Occurs(ws[1..], number) {
        OccursStep(ws, number);
      }
      OtherSlotStays(fields, st, ws[0], at);
      Untouched(fields, Absorb(fields, st, ws[0]).value, ws[1..], at);
    }
  }

  /** The default the table gives a field, or zero. */
  predicate IsDefault(f: Field, v: Value) {
    if f.ltype.Submessage? then v.Message?
    else if f.ptr.DefaultValue? then v == f.ptr.value
    else if f.ltype.BytesType? then v == Bytes([])
    else if f.ltype.StringType? then v.Str? && (f.dataSize > 0 ==> v.buf == [0])
    else if f.ltype.FixedLengthBytes? then v.Raw? && |v.data| == f.dataSize && forall k :: 0 <= k < |v.data| ==> v.data[k] == 0
    else v == Int(0)
  }

  /**
    A field that does not occur reads as its default: not present, without entries, or with the
    value its table gives it, and zero if it gives none.
   */
  lemma AbsentReadsDefault(fields: seq<Field>, s: seq<byte>, i: nat)
    requires TableOk(fields) && WellTyped(fields, s) && i < |fields| && Decode(fields, s).Some?
    requires TakeFields(s).Some? && !Occurs(TakeFields(s).value, fields[i].tag) && !fields[i].htype.Oneof?
    ensures var f, slot := fields[i], Decode(fields, s).value.0[i];
      && (f.htype.Required? ==> slot.Single? && IsDefault(f, slot.value))
      && (f.htype.Optional? && f.sizeOffset == 0 ==> slot.Single? && IsDefault(f, slot.value))
      && (f.htype.Optional? && f.sizeOffset != 0 ==> slot.Maybe? && !slot.has && IsDefault(f, slot.value))
      && (f.htype.Repeated? && f.sizeOffset != 0 ==> slot == Counted([]))
  {
    hide WellTyped, AbsorbAll, TableOk, FixedComplete, RequiredSeen, TakeFields, Occurs, DecMessage, DefaultMessage;
    var m := DefaultMessage(fields);
    DecodesFields(fields, m, s);
    forall k | 0 <= k < |fields| && Leader(fields, k) == i ensures k == i {
      if k != i { LeaderSelf(fields, i); SharedSlot(fields, k, i); }
    }
    LeaderSelf(fields, i);
    Untouched(fields, StartState(m), TakeFields(s).value, i);
    DefaultIs(fields, i);
  }

  lemma LeaderSelf(fields: seq<Field>, i: nat)
    requires i < |fields| && !fields[i].htype.Oneof?
    ensures Leader(fields, i) == i
  {
    LeaderOneof(fields, i);
  }

  lemma DefaultIs(fields: seq<Field>, i: nat)
    requires TableOk(fields) && i < |fields| && !fields[i].htype.Oneof?
    ensures var f, slot := fields[i], DefaultMessage(fields)[i];
      && (f.htype.Required? ==> slot.Single? && IsDefault(f, slot.value))
      && (f.htype.Optional? && f.sizeOffset == 0 ==> slot.Single? && IsDefault(f, slot.value))
      && (f.htype.Optional? && f.sizeOffset != 0 ==> slot.Maybe? && !slot.has && IsDefault(f, slot.value))
      && (f.htype.Repeated? && f.sizeOffset != 0 ==> slot == Counted([]))
  {
    hide FieldOk, DefaultMessage, IsDefault, DefaultValueOf, ClearedItems;
    assert DefaultMessage(fields)[i] == DefaultSlot(fields, i);
    FieldAt(fields, i);
    ValueDefault(fields[i]);
  }

  lemma ValueDefault(f: Field)
    requires FieldOk(f)
    ensures IsDefault(f, DefaultValueOf(f))
  {
    hide DefaultMessage, FieldOk;
    FieldFacts(f);
    if f.ltype.Submessage? {
      assert DefaultValueOf(f) == Message(DefaultMessage(f.ptr.fields));
    } else if !f.ptr.DefaultValue? {
      assert DefaultValueOf(f) == ZeroValue(f);
    }
  }

  // What is required.

  /** One wire field marks at most the required entry it belongs to, and that one if it is among the first 64. */
  lemma AbsorbSees(fields: seq<Field>, st: DecState, w: WireField)
    requires StateOk(fields, st) && Absorb(fields, st, w).Some?
    ensures var entry := EntryOf(fields, w.number, 0);
      entry.Some? ==> entry.value < |fields| && fields[entry.value].tag == w.number
    ensures var entry := EntryOf(fields, w.number, 0);
      Absorb(fields, st, w).value.seen == if entry.None? then st.seen else NoteRequired(fields, entry.value, st.seen)
  {
    hide ValueIn, Append, Entries, FreshValue, Leader, NoteRequired;
    EntryFacts(fields, w.number, 0);
  }

  lemma {:induction false} SeenExactly(fields: seq<Field>, st: DecState, ws: seq<WireField>, i: nat)
    requires DistinctTags(fields) && StateOk(fields, st) && AbsorbAll(fields, st, ws).Some?
    requires i < |fields| && fields[i].htype.Required? && RequiredBefore(fields, i) < 64
    ensures RequiredBefore(fields, i) in AbsorbAll(fields, st, ws).value.seen
       <==> RequiredBefore(fields, i) in st.seen || Occurs(ws, fields[i].tag)
    decreases |ws|
  {
    hide Absorb, Occurs, RequiredBefore, EntryOf;
    if ws == [] {
      NothingOccurs(fields[i].tag);
    } else {
      OccursStep(ws, fields[i].tag);
      AbsorbSees(fields, st, ws[0]);
      EntryFacts(fields, ws[0].number, 0);
      SeenExactly(fields, Absorb(fields, st, ws[0]).value, ws[1..], i);
      var entry := EntryOf(fields, ws[0].number, 0);
      if entry.Some? {
        if entry.value < i && fields[entry.value].htype.Required? { NumbersGrow(fields, entry.value, i); }
        if entry.value > i { NumbersGrow(fields, i, entry.value); }
      }
    }
  }

  lemma NothingOccurs(number: nat)
    ensures !Occurs([], number)
  {
  }

  /** Each of the first 64 required fields occurs. */
  ghost predicate RequiredOccur(fields: seq<Field>, ws: seq<WireField>) {
    forall i :: 0 <= i < |fields| && fields[i].htype.Required? && RequiredBefore(fields, i) < 64 ==> Occurs(ws, fields[i].tag)
  }

  lemma {:induction false} RequiredNumber(fields: seq<Field>, n: nat, k: nat) returns (i: nat)
    requires n <= |fields| && k < RequiredBefore(fields, n)
    ensures i < n && fields[i].htype.Required? && RequiredBefore(fields, i) == k
  {
    if k < RequiredBefore(fields, n - 1) { i := RequiredNumber(fields, n - 1, k); } else { i := n - 1; }
  }

  lemma RequiredExactly(fields: seq<Field>, m: seq<Slot>, ws: seq<WireField>)
    requires DistinctTags(fields) && |m| == |fields| && AbsorbAll(fields, StartState(m), ws).Some?
    ensures RequiredSeen(fields, AbsorbAll(fields, StartState(m), ws).value.seen) <==> RequiredOccur(fields, ws)
  {
    hide AbsorbAll, Occurs, RequiredBefore, DistinctTags;
    var seen := AbsorbAll(fields, StartState(m), ws).value.seen;
    forall i | 0 <= i < |fields| && fields[i].htype.Required? && RequiredBefore(fields, i) < 64
      ensures RequiredBefore(fields, i) in seen <==> Occurs(ws, fields[i].tag)
      ensures RequiredBefore(fields, i) < RequiredBefore(fields, |fields|)
    {
      SeenExactly(fields, StartState(m), ws, i);
      NumbersGrow(fields, i, |fields|);
    }
    if RequiredOccur(fields, ws) {
      forall k: nat | k < RequiredBefore(fields, |fields|) && k < PB_MAX_REQUIRED_FIELDS ensures k in seen {
        var i := RequiredNumber(fields, |fields|, k);
      }
    }
  }

  // What is complete.

  lemma {:induction false} AppendLength(f: Field, items: seq<Value>, count: nat, ps: seq<Payload>)
    requires Append(f, items, count, ps).Some? && count <= |items| <= f.arraySize
    ensures var r := Append(f, items, count, ps).value; r.count <= |r.items| <= f.arraySize
    decreases |ps|
  {
    hide ValueIn, FreshValue;
    if ps != [] {
      var v := ValueIn(f, FreshValue(f), ps[0]).value;
      AppendLength(f, if count < |items| then items[count := v] else items + [v], count + 1, ps[1..]);
    }
  }

  /** Fixed-count arrays hold at most what they have room for. */
  ghost predicate Roomy(fields: seq<Field>, m: seq<Slot>)
    requires |m| == |fields|
  {
    forall i :: 0 <= i < |fields| && HasFixedCount(fields[i]) ==> RoomAt(fields, m, i)
  }

  predicate RoomAt(fields: seq<Field>, m: seq<Slot>, i: nat)
    requires i < |fields| == |m|
  {
    m[i].FixedArray? && |m[i].items| <= fields[i].arraySize
  }

  predicate FullAt(fields: seq<Field>, m: seq<Slot>, i: nat)
    requires i < |fields| == |m|
  {
    m[i].FixedArray? && |m[i].items| == fields[i].arraySize
  }

  /** The array being filled holds as many entries as were counted. */
  predicate Filling(fields: seq<Field>, st: DecState)
    requires |st.msg| == |fields|
  {
    st.fixedField.Some? ==>
      var k := st.fixedField.value;
      k < |fields| && HasFixedCount(fields[k]) && st.msg[k].FixedArray? && st.fixedCount <= |st.msg[k].items|
  }

  lemma FixedLeader(fields: seq<Field>, i: nat, k: nat)
    requires i < |fields| && k < |fields| && HasFixedCount(fields[i])
    ensures Leader(fields, k) == i <==> k == i
  {
    LeaderOneof(fields, i);
    if k != i && Leader(fields, k) == i { SharedSlot(fields, k, i); }
  }

  /** One wire field keeps this, and leaves every array full that it leaves. */
  lemma AbsorbFills(fields: seq<Field>, st: DecState, w: WireField, i: nat)
    requires DistinctTags(fields) && StateOk(fields, st) && Roomy(fields, st.msg) && Filling(fields, st)
    requires Absorb(fields, st, w).Some? && i < |fields| && HasFixedCount(fields[i])
    ensures var st' := Absorb(fields, st, w).value;
      && RoomAt(fields, st'.msg, i) && Filling(fields, st')
      && (FullAt(fields, st.msg, i) ==> FullAt(fields, st'.msg, i))
      && (st.fixedField == Some(i) || w.number == fields[i].tag ==> FullAt(fields, st'.msg, i) || st'.fixedField == Some(i))
  {
    hide ValueIn, Append, Entries, FreshValue, Leader, NoteRequired;
    EntryFacts(fields, w.number, 0);
    var entry := EntryOf(fields, w.number, 0);
    if entry.Some? {
      var k: nat := entry.value;
      FixedLeader(fields, i, k);
      if st.fixedField.Some? { FixedLeader(fields, st.fixedField.value, k); }
      if HasFixedCount(fields[k]) {
        FixedLeader(fields, k, k);
        var entered := EnterFixed(fields, k, st.(pos := k)).value;
        var f, items := fields[k], st.msg[k].items;
        assert RoomAt(fields, st.msg, k);
        var ps := Entries(f, w.payload).value;
        AppendLength(f, items, entered.fixedCount, ps);
        AppendKeeps(f, items, entered.fixedCount, ps);
      }
    }
  }

  lemma {:induction false} AppendKeeps(f: Field, items: seq<Value>, count: nat, ps: seq<Payload>)
    requires Append(f, items, count, ps).Some?
    ensures |Append(f, items, count, ps).value.items| >= |items|
    decreases |ps|
  {
    hide ValueIn, FreshValue;
    if ps != [] {
      var v := ValueIn(f, FreshValue(f), ps[0]).value;
      AppendKeeps(f, if count < |items| then items[count := v] else items + [v], count + 1, ps[1..]);
    }
  }

  lemma {:induction false} RunFills(fields: seq<Field>, st: DecState, ws: seq<WireField>, i: nat)
    requires DistinctTags(fields) && StateOk(fields, st) && Roomy(fields, st.msg) && Filling(fields, st)
    requires AbsorbAll(fields, st, ws).Some? && i < |fields| && HasFixedCount(fields[i])
    ensures var st' := AbsorbAll(fields, st, ws).value;
      && StateOk(fields, st') && RoomAt(fields, st'.msg, i) && Filling(fields, st')
      && (FullAt(fields, st.msg, i) || st.fixedField == Some(i) || Occurs(ws, fields[i].tag) ==>
            FullAt(fields, st'.msg, i) || st'.fixedField == Some(i))
    decreases |ws|
  {
    hide Absorb, Occurs, DistinctTags, FullAt, RoomAt, Filling;
    if ws == [] {
      NothingOccurs(fields[i].tag);
    } else {
      OccursStep(ws, fields[i].tag);
      var st1 := Absorb(fields, st, ws[0]).value;
      forall k | 0 <= k < |fields| && HasFixedCount(fields[k]) ensures RoomAt(fields, st1.msg, k) {
        AbsorbFills(fields, st, ws[0], k);
      }
      AbsorbFills(fields, st, ws[0], i);
      RunFills(fields, st1, ws[1..], i);
    }
  }

  /** After a success every fixed-count array that occurs has all its entries. */
  lemma FixedArraysFull(fields: seq<Field>, s: seq<byte>, i: nat)
    requires TableOk(fields) && WellTyped(fields, s) && i < |fields| && HasFixedCount(fields[i]) && Decode(fields, s).Some?
    requires TakeFields(s).Some? && Occurs(TakeFields(s).value, fields[i].tag)
    ensures FullAt(fields, Decode(fields, s).value.0, i)
  {
    hide WellTyped, AbsorbAll, RequiredSeen, TakeFields, Occurs, DecMessage, DefaultMessage, FieldOk;
    var m := DefaultMessage(fields);
    DecodesFields(fields, m, s);
    forall k | 0 <= k < |fields| && HasFixedCount(fields[k]) ensures RoomAt(fields, m, k) {
      assert m[k] == DefaultSlot(fields, k);
    }
    RunFills(fields, StartState(m), TakeFields(s).value, i);
  }

  /** And every required field up to the 64th occurs; with those, and complete arrays, decoding fails only for a value. */
  lemma SucceedsExactly(fields: seq<Field>, m: seq<Slot>, s: seq<byte>)
    requires TableOk(fields) && |m| == |fields| && WellTyped(fields, s)
    ensures TakeFields(s).Some?
    ensures DecMessage(fields, m, s).Some? <==>
      var r := AbsorbAll(fields, StartState(m), TakeFields(s).value);
      r.Some? && FixedComplete(fields, r.value) && RequiredOccur(fields, TakeFields(s).value)
  {
    hide WellTyped, AbsorbAll, RequiredSeen, TakeFields, DecMessage, RequiredOccur, FixedComplete, FieldOk;
    DecodesFields(fields, m, s);
    var ws := TakeFields(s).value;
    if AbsorbAll(fields, StartState(m), ws).Some? { RequiredExactly(fields, m, ws); }
  }
}
