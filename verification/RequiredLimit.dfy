/** Required fields past the 64th: a decode that succeeds need not have read them. */
module RequiredLimit {
  import opened Bits
  import opened Wire
  import opened Descriptors
  import opened EncodeSpec
  import opened DecodeSpec
  import opened MessageShape
  import opened RoundTrip
  import opened UnknownFields
  import opened DecodeProperties
  import PbCommon

  // What a decoder consumes decodes by itself.

  lemma {:induction false} VarintCut(s: seq<byte>, bitpos: nat, acc: nat) returns (c: seq<byte>)
    requires DecVarintFrom(s, bitpos, acc).Some?
    ensures var (v, rest) := DecVarintFrom(s, bitpos, acc).value;
      s == c + rest && DecVarintFrom(c, bitpos, acc) == Some((v, []))
    decreases |s|
  {
    hide Or, Pow2;
    if s[0] >= 0x80 {
      var c' := VarintCut(s[1..], bitpos + 7, Or(acc, s[0] % 0x80 * Pow2(bitpos) % TWO_64));
      c := [s[0]] + c';
      assert c[1..] == c';
    } else {
      c := [s[0]];
    }
  }

  lemma {:induction false} Varint32FromCut(s: seq<byte>, bitpos: nat, acc: nat) returns (c: seq<byte>)
    requires DecVarint32From(s, bitpos, acc).Some?
    ensures var (v, rest) := DecVarint32From(s, bitpos, acc).value;
      s == c + rest && DecVarint32From(c, bitpos, acc) == Some((v, []))
    decreases |s|
  {
    hide Or, Pow2;
    if s[0] >= 0x80 {
      var acc' := if bitpos >= 32 then acc else Or(acc, s[0] % 0x80 * Pow2(bitpos) % TWO_32);
      var c' := Varint32FromCut(s[1..], (bitpos + 7) % 0x100, acc');
      c := [s[0]] + c';
      assert c[1..] == c';
    } else {
      c := [s[0]];
    }
  }

  lemma Varint32Cut(s: seq<byte>) returns (c: seq<byte>)
    requires DecVarint32(s).Some?
    ensures var (v, rest) := DecVarint32(s).value;
      s == c + rest && DecVarint32(c) == Some((v, []))
  {
    hide DecVarint32From;
    if s[0] >= 0x80 {
      var c' := Varint32FromCut(s[1..], 7, s[0] % 0x80);
      c := [s[0]] + c';
      assert c[1..] == c';
    } else {
      c := [s[0]];
    }
  }

  lemma ReadCut(s: seq<byte>, n: nat)
    requires n <= |s|
    ensures s == s[..n] + s[n..] && Read(s[..n], n) == Some((s[..n], []))
  {
    assert s[..n][..n] == s[..n] && s[..n][n..] == [];
  }

  lemma StringCut(s: seq<byte>) returns (c: seq<byte>)
    requires DecString(s).Some?
    ensures var (data, rest) := DecString(s).value;
      s == c + rest && DecString(c) == Some((data, []))
  {
    hide DecVarint32;
    var (size, rest) := DecVarint32(s).value;
    var c1 := Varint32Cut(s);
    ReadCut(rest, size);
    Varint32More(c1, rest[..size]);
    c := c1 + rest[..size];
    assert [] + rest[..size] == rest[..size];
  }

  lemma TagCut(s: seq<byte>) returns (c: seq<byte>)
    requires DecTag(s).Tag?
    ensures var Tag(tag, wireType, rest) := DecTag(s);
      s == c + rest && DecTag(c) == Tag(tag, wireType, [])
  {
    hide DecVarint32;
    c := Varint32Cut(s);
  }

  lemma {:induction false} SkipVarintCut(s: seq<byte>) returns (c: seq<byte>)
    requires SkipVarint(s).Some?
    ensures s == c + SkipVarint(s).value && SkipVarint(c) == Some([])
    decreases |s|
  {
    if s[0] >= 0x80 {
      var c' := SkipVarintCut(s[1..]);
      c := [s[0]] + c';
      assert c[1..] == c';
    } else {
      c := [s[0]];
    }
  }

  lemma SkipCut(wireType: nat, s: seq<byte>) returns (c: seq<byte>)
    requires SkipField(wireType, s).Some?
    ensures s == c + SkipField(wireType, s).value && SkipField(wireType, c) == Some([])
  {
    hide SkipVarint, DecString;
    if wireType == WT_VARINT {
      c := SkipVarintCut(s);
    } else if wireType == WT_STRING {
      c := StringCut(s);
    } else {
      var n: nat := if wireType == WT_64BIT then 8 else 4;
      ReadCut(s, n);
      c := s[..n];
    }
  }

  lemma ScalarCut(f: Field, s: seq<byte>) returns (c: seq<byte>)
    requires DecScalar(f, s).Some?
    ensures var (v, rest) := DecScalar(f, s).value;
      s == c + rest && DecScalar(f, c) == Some((v, []))
  {
    hide DecVarintFrom, FromLittleEndian, NarrowSigned;
    if f.ltype.Fixed32? || f.ltype.Fixed64? {
      var n: nat := if f.ltype.Fixed32? then 4 else 8;
      ReadCut(s, n);
      c := s[..n];
    } else {
      c := VarintCut(s, 0, 0);
    }
  }

  lemma ValueCut(f: Field, prev: Value, s: seq<byte>) returns (c: seq<byte>)
    requires DecValue(f, prev, s).Some?
    ensures var (v, rest) := DecValue(f, prev, s).value;
      s == c + rest && DecValue(f, prev, c) == Some((v, []))
  {
    hide DecScalar, DecString, DecMessage, StoreString;
    if Packable(f.ltype) { c := ScalarCut(f, s); } else { c := StringCut(s); }
  }

  lemma RepeatedCut(f: Field, items: seq<Value>, count: nat, wireType: nat, s: seq<byte>) returns (c: seq<byte>)
    requires DecRepeated(f, items, count, wireType, s).Some?
    ensures var (filled, rest) := DecRepeated(f, items, count, wireType, s).value;
      s == c + rest && DecRepeated(f, items, count, wireType, c) == Some((filled, []))
  {
    hide DecPacked, DecString, DecValue, StoreItem, FreshValue;
    if wireType == WT_STRING && Packable(f.ltype) { c := StringCut(s); } else { c := ValueCut(f, FreshValue(f), s); }
  }

  lemma StaticCut(fields: seq<Field>, i: nat, wireType: nat, st: DecState, s: seq<byte>) returns (c: seq<byte>)
    requires i < |fields| == |st.msg| && DecStatic(fields, i, wireType, st, s).Some?
    ensures var (st', rest) := DecStatic(fields, i, wireType, st, s).value;
      s == c + rest && DecStatic(fields, i, wireType, st, c) == Some((st', []))
  {
    hide DecValue, DecRepeated, Leader, FreshValue;
    var f := fields[i];
    match st.msg[Leader(fields, i)]
    case Single(v) => c := ValueCut(f, v, s);
    case Maybe(_, v) => c := ValueCut(f, v, s);
    case Counted(items) => c := RepeatedCut(f, items, |items|, wireType, s);
    case FixedArray(items) => c := RepeatedCut(f, items, st.fixedCount, wireType, s);
    case Union(_, _) => c := ValueCut(f, FreshValue(f), s);
    case InUnion => c := [];
  }

  lemma KnownCut(fields: seq<Field>, i: nat, wireType: nat, st: DecState, s: seq<byte>) returns (c: seq<byte>)
    requires i < |fields| == |st.msg| && DecKnown(fields, i, wireType, st, s).Some?
    ensures var (st', rest) := DecKnown(fields, i, wireType, st, s).value;
      s == c + rest && DecKnown(fields, i, wireType, st, c) == Some((st', []))
  {
    hide DecStatic, EnterFixed, NoteRequired;
    var entered := EnterFixed(fields, i, st.(pos := i)).value;
    c := StaticCut(fields, i, wireType, entered.(seen := NoteRequired(fields, i, entered.seen)), s);
  }

  /** One field, cut off from what follows it: the turn of the loop is the same before any bytes. */
  lemma StepCut(fields: seq<Field>, st: DecState, s: seq<byte>) returns (c: seq<byte>)
    requires StateOk(fields, st) && StepMessage(fields, st, s).Next?
    ensures var Next(st', rest) := StepMessage(fields, st, s);
      s == c + rest && DecTag(c).Tag? && DecTag(c).tag == DecTag(s).tag && StepMessage(fields, st, c) == Next(st', [])
  {
    hide DecTag, DecKnown, SkipField, FindFrom;
    var Tag(tag, wireType, rest) := DecTag(s);
    var c1 := TagCut(s);
    var c2;
    match (if fields == [] then None else Find(fields, st.pos, tag)) {
      case None => c2 := SkipCut(wireType, rest);
      case Some(i) => c2 := KnownCut(fields, i, wireType, st, rest);
    }
    c := c1 + c2;
    TagMore(c1, c2);
    assert [] + c2 == c2;
  }

  // Leaving out a required field that is not checked.

  /** The states of two runs that differ in what they know of field `i`. */
  ghost predicate Similar(fields: seq<Field>, i: nat, st: DecState, su: DecState) {
    && StateOk(fields, st) && StateOk(fields, su) && i < |fields|
    && su.msg == st.msg[i := su.msg[i]]
    && su.seen == st.seen && su.fixedField == st.fixedField && su.fixedCount == st.fixedCount
  }

  /** Required field `i` is one of those whose bit is not kept. */
  ghost predicate Unchecked(fields: seq<Field>, i: nat) {
    DistinctTags(fields) && i < |fields| && fields[i].htype.Required? && RequiredBefore(fields, i) >= 64
  }

  lemma FindAnywhere(fields: seq<Field>, p: nat, q: nat, tag: nat)
    requires DistinctTags(fields) && p < |fields| && q < |fields|
    ensures Find(fields, p, tag) == Find(fields, q, tag)
  {
    hide FindFrom;
    PbCommon.FindComplete(fields, p, tag);
    PbCommon.FindComplete(fields, q, tag);
    if i :| 0 <= i < |fields| && fields[i].tag == tag && !fields[i].ltype.Extension? {
      FindFromDistinct(fields, p, i, |fields|);
      FindFromDistinct(fields, q, i, |fields|);
    }
  }

  lemma OtherSlot(fields: seq<Field>, i: nat, j: nat)
    requires i < |fields| && j < |fields| && i != j && fields[i].htype.Required?
    ensures Leader(fields, i) == i && Leader(fields, j) != i
  {
    hide Leader;
    LeaderOneof(fields, i);
    if Leader(fields, j) == i { SharedSlot(fields, i, j); }
  }

  lemma KnownSimilar(fields: seq<Field>, i: nat, j: nat, wireType: nat, st: DecState, su: DecState, s: seq<byte>)
    requires Unchecked(fields, i) && Similar(fields, i, st, su) && j < |fields| && j != i
    requires DecKnown(fields, j, wireType, st, s).Some?
    ensures var (st', rest) := DecKnown(fields, j, wireType, st, s).value;
      var r := DecKnown(fields, j, wireType, su, s);
      r.Some? && r.value.1 == rest && Similar(fields, i, st', r.value.0)
  {
    hide DecValue, DecRepeated, Leader, FreshValue, RequiredBefore;
    OtherSlot(fields, i, j);
  }

  /** A turn that reads another tag, or none of the table, keeps the states similar. */
  lemma OtherStep(fields: seq<Field>, i: nat, st: DecState, su: DecState, s: seq<byte>)
    requires Unchecked(fields, i) && Similar(fields, i, st, su)
    requires StepMessage(fields, st, s).Next? && DecTag(s).Tag? && DecTag(s).tag != fields[i].tag
    ensures var Next(st', rest) := StepMessage(fields, st, s);
      var r := StepMessage(fields, su, s);
      r.Next? && r.rest == rest && Similar(fields, i, st', r.st)
  {
    hide DecTag, DecKnown, SkipField, FindFrom;
    var Tag(tag, wireType, rest) := DecTag(s);
    FindAnywhere(fields, st.pos, su.pos, tag);
    if Find(fields, st.pos, tag).Some? {
      KnownSimilar(fields, i, Find(fields, st.pos, tag).value, wireType, st, su, rest);
    }
  }

  lemma OwnKnown(fields: seq<Field>, i: nat, wireType: nat, st: DecState, s: seq<byte>)
    requires Unchecked(fields, i) && StateOk(fields, st) && DecKnown(fields, i, wireType, st, s).Some?
    ensures var st' := DecKnown(fields, i, wireType, st, s).value.0;
      && |st'.msg| == |st.msg| && st'.msg == st.msg[i := st'.msg[i]]
      && st'.seen == st.seen && st'.fixedField == st.fixedField && st'.fixedCount == st.fixedCount
  {
    hide DecValue, DecRepeated, FreshValue, RequiredBefore, Leader;
    LeaderOneof(fields, i);
  }

  /** A turn that reads field `i` leaves the state similar to what it was. */
  lemma OwnStep(fields: seq<Field>, i: nat, st: DecState, su: DecState, s: seq<byte>)
    requires Unchecked(fields, i) && Similar(fields, i, st, su)
    requires StepMessage(fields, st, s).Next? && DecTag(s).Tag? && DecTag(s).tag == fields[i].tag
    ensures Similar(fields, i, StepMessage(fields, st, s).st, su)
  {
    hide DecTag, DecKnown, SkipField, FindFrom, RequiredBefore;
    var Tag(tag, wireType, rest) := DecTag(s);
    if Find(fields, st.pos, tag).Some? {
      assert Find(fields, st.pos, tag).value == i;
      OwnKnown(fields, i, wireType, st, rest);
    }
  }

  /** The input without the occurrences of field `i`. */
  lemma {:induction false} Without(fields: seq<Field>, i: nat, st: DecState, su: DecState, s: seq<byte>)
      returns (u: seq<byte>)
    requires Unchecked(fields, i) && Similar(fields, i, st, su) && DecLoop(fields, st, s).Some?
    ensures DecLoop(fields, su, u).Some? && DecLoop(fields, su, u).value.1 == DecLoop(fields, st, s).value.1
    ensures Similar(fields, i, DecLoop(fields, st, s).value.0, DecLoop(fields, su, u).value.0)
    ensures fields[i].tag !in TagsRead(fields, su, u)
    decreases |s|
  {
    hide StepMessage, Similar, Unchecked;
    SimilarOk(fields, i, st, su);
    match StepMessage(fields, st, s) {
      case Finished(rest) =>
        FinishAnywhere(fields, i, st, su, s);
        u := s;
      case Next(st', rest) =>
        NextReadTag(fields, st, s);
        if DecTag(s).tag == fields[i].tag {
          OwnStep(fields, i, st, su, s);
          u := Without(fields, i, st', su, rest);
        } else {
          var c := StepCut(fields, st, s);
          OtherStep(fields, i, st, su, c);
          var su' := StepMessage(fields, su, c).st;
          var u' := Without(fields, i, st', su', rest);
          u := c + u';
          StepMore(fields, su, c, u');
          TagMore(c, u');
          assert [] + u' == u';
        }
    }
  }

  lemma SimilarOk(fields: seq<Field>, i: nat, st: DecState, su: DecState)
    requires Similar(fields, i, st, su)
    ensures StateOk(fields, st) && StateOk(fields, su) && i < |fields|
  {
  }

  lemma FinishAnywhere(fields: seq<Field>, i: nat, st: DecState, su: DecState, s: seq<byte>)
    requires Similar(fields, i, st, su) && StepMessage(fields, st, s).Finished?
    ensures StateOk(fields, su) && i < |fields|
    ensures StepMessage(fields, su, s) == StepMessage(fields, st, s)
  {
    hide DecTag, DecKnown, SkipField, FindFrom;
  }

  // The limit.

  /** Every required field occurred among the fields read. */
  ghost predicate AllRequiredRead(fields: seq<Field>, m: seq<Slot>, s: seq<byte>)
    requires |m| == |fields|
  {
    forall i :: 0 <= i < |fields| && fields[i].htype.Required? ==> fields[i].tag in TagsRead(fields, StartState(m), s)
  }

  /** An input that decodes, without the unchecked field, decodes. */
  lemma UncheckedMissing(fields: seq<Field>, m: seq<Slot>, s: seq<byte>, i: nat) returns (u: seq<byte>)
    requires |m| == |fields| && Unchecked(fields, i) && DecMessage(fields, m, s).Some?
    ensures DecMessage(fields, m, u).Some? && fields[i].tag !in TagsRead(fields, StartState(m), u)
  {
    hide DecLoop, TagsRead, RequiredBefore, RequiredSeen, FixedComplete;
    assert m == m[i := m[i]];
    u := Without(fields, i, StartState(m), StartState(m), s);
    EndsAlike(fields, i, DecLoop(fields, StartState(m), s).value.0, DecLoop(fields, StartState(m), u).value.0);
  }

  lemma EndsAlike(fields: seq<Field>, i: nat, st: DecState, su: DecState)
    requires Similar(fields, i, st, su)
    ensures FixedComplete(fields, st) == FixedComplete(fields, su) && st.seen == su.seen
  {
  }

  lemma {:induction false} SixtyFifth(fields: seq<Field>, n: nat) returns (i: nat)
    requires n <= |fields| && RequiredBefore(fields, n) > 64
    ensures i < n && fields[i].htype.Required? && RequiredBefore(fields, i) == 64
  {
    if RequiredBefore(fields, n - 1) > 64 { i := SixtyFifth(fields, n - 1); } else { i := n - 1; }
  }

  /**
    Success implies that every required field was read exactly when the table has at most 64 of
    them; for a table that nothing decodes there is no success to speak of.
   */
  lemma RequiredReadIff(fields: seq<Field>, m: seq<Slot>, example: seq<byte>)
    requires DistinctTags(fields) && |m| == |fields| && DecMessage(fields, m, example).Some?
    ensures (forall s :: DecMessage(fields, m, s).Some? ==> AllRequiredRead(fields, m, s))
       <==> RequiredBefore(fields, |fields|) <= 64
  {
    hide DecMessage, TagsRead, RequiredBefore, DistinctTags;
    if RequiredBefore(fields, |fields|) <= 64 {
      forall s, i | DecMessage(fields, m, s).Some? && 0 <= i < |fields| && fields[i].htype.Required?
        ensures fields[i].tag in TagsRead(fields, StartState(m), s)
      {
        NumbersGrow(fields, i, |fields|);
        RequiredFieldsRead(fields, m, s, i);
      }
    } else {
      var i := SixtyFifth(fields, |fields|);
      var u := UncheckedMissing(fields, m, example, i);
      assert !AllRequiredRead(fields, m, u);
    }
  }

  // A table with 65 required fields.

  function Counter(k: nat): Field
    requires k < 65
  {
    Field(k + 1, Varint, Required, Static, 0, 0, 4, 0, NullPtr)
  }

  const SIXTY_FIVE: seq<Field> := seq(65, k requires 0 <= k < 65 => Counter(k))

  lemma {:induction false} AllRequired(n: nat)
    requires n <= 65
    ensures RequiredBefore(SIXTY_FIVE, n) == n
  {
    if n > 0 { AllRequired(n - 1); }
  }

  lemma CounterEncodes(lay: Layout, m: seq<Slot>, i: nat)
    requires m == seq(65, _ => Single(Int(0))) && i < 65
    ensures EncField(lay, SIXTY_FIVE, m, i).Some?
  {
    hide EncVarint;
    assert SIXTY_FIVE[i] == Counter(i) && m[Leader(SIXTY_FIVE, i)] == Single(Int(0));
    assert EncTagged(lay, Counter(i), Int(0)).Some?;
  }

  lemma {:induction false} ZerosEncode(lay: Layout, m: seq<Slot>, i: nat)
    requires m == seq(65, _ => Single(Int(0))) && i <= 65
    ensures EncFrom(lay, SIXTY_FIVE, m, i).Some?
    decreases 65 - i
  {
    hide EncField;
    if i < 65 {
      ZerosEncode(lay, m, i + 1);
      CounterEncodes(lay, m, i);
    }
  }

  /** Input without the 65th required field that decodes all the same. */
  lemma SixtyFifthMissing() returns (s: seq<byte>)
    ensures Decode(SIXTY_FIVE, s).Some?
    ensures SIXTY_FIVE[64].htype.Required? && 65 !in TagsRead(SIXTY_FIVE, StartState(DefaultMessage(SIXTY_FIVE)), s)
  {
    hide DecMessage, EncFrom, TagsRead, RequiredBefore, DefaultMessage;
    var lay: Layout := (_, _, _) => 0;
    var m: seq<Slot> := seq(65, _ => Single(Int(0)));
    ZerosEncode(lay, m, 0);
    forall i | 0 <= i < 65 ensures FieldOk(SIXTY_FIVE[i]) {
      assert SIXTY_FIVE[i] == Counter(i);
    }
    forall i, j | 0 <= i < j < 65 ensures SIXTY_FIVE[i].tag != SIXTY_FIVE[j].tag {
      assert SIXTY_FIVE[i] == Counter(i) && SIXTY_FIVE[j] == Counter(j);
    }
    assert TableOk(SIXTY_FIVE);
    forall i | 0 <= i < 65 ensures SlotOk(lay, SIXTY_FIVE, m, i) && SelectionOk(SIXTY_FIVE, m, i) {
      assert SIXTY_FIVE[i] == Counter(i) && m[i] == Single(Int(0));
      assert Leader(SIXTY_FIVE, i) == i;
    }
    assert MessageOk(lay, SIXTY_FIVE, m);
    MessageRoundTrip(lay, SIXTY_FIVE, m);
    AllRequired(64);
    s := UncheckedMissing(SIXTY_FIVE, DefaultMessage(SIXTY_FIVE), EncMessage(lay, SIXTY_FIVE, m).value, 64);
  }
}
