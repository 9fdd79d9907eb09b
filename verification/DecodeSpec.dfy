/**
  What pb_decode.c does with the bytes left in a stream: each decoder returns its result with
  the bytes it leaves, or None where it reports an error.
 */
module DecodeSpec {
  import opened Bits
  import opened Wire
  import opened Descriptors

  // Defaults: pb_message_set_to_defaults.

  /** A zero-filled member. */
  function ZeroValue(f: Field): Value {
    match f.ltype
    case BytesType => Bytes([])
    case StringType => Str(if f.dataSize == 0 then [] else [0])
    case FixedLengthBytes => Raw(seq(f.dataSize, _ => 0))
    case Submessage => Message([])
    case _ => Int(0)
  }

  function DefaultValueOf(f: Field): Value
    decreases f, 0
  {
    match f.ptr
    case DefaultValue(v) => if f.ltype.Submessage? then ZeroValue(f) else v
    case SubFields(sub) => if f.ltype.Submessage? then Message(DefaultMessage(sub)) else ZeroValue(f)
    case NullPtr => ZeroValue(f)
  }

  // The write of line 843 goes to the count, which a fixed-count array does not have: there it
  // clears the first word of the array itself, and leaves the rest as the memory was.

  const COUNT_SIZE: nat := 4  // sizeof(pb_size_t)

  /** `n` bytes from offset `off` on lie inside the cleared word. */
  predicate InWord(off: int, n: nat) {
    0 <= off && off + n <= COUNT_SIZE
  }

  /** A value of type `f`, stored `off` bytes behind the start of the cleared word, is known to be zero. */
  predicate Cleared(f: Field, off: int)
    decreases f, 0
  {
    match f.ltype
    case BytesType => InWord(off, COUNT_SIZE)
    case StringType => InWord(off, 1)
    case Submessage => f.ptr.SubFields? && forall i :: 0 <= i < |f.ptr.fields| ==> SlotCleared(f.ptr.fields, i, off)
    case _ => f.dataSize == 0 || InWord(off, f.dataSize)
  }

  /** The same of entry `i` in a structure that starts at `off`. */
  predicate SlotCleared(fields: seq<Field>, i: nat, off: int)
    requires i < |fields|
    decreases fields, 0
  {
    var f := fields[i];
    match f.htype
    case Required => Cleared(f, DataAt(fields, off, i))
    case Optional => if f.sizeOffset != 0 then InWord(SizeAt(fields, off, i), 1) else Cleared(f, DataAt(fields, off, i))
    case Repeated =>
      if f.sizeOffset != 0 then InWord(SizeAt(fields, off, i), COUNT_SIZE)
      else forall k :: 0 <= k < f.arraySize ==> Cleared(f, DataAt(fields, off, i) + k * f.dataSize)
    case Oneof => InWord(SizeAt(fields, off, i), COUNT_SIZE)
  }

  /** The value all of whose bytes are zero. */
  function ClearValue(f: Field): Value
    decreases f, 0
  {
    if f.ltype.Submessage? && f.ptr.SubFields? then Message(ClearMessage(f.ptr.fields, 0)) else ZeroValue(f)
  }

  function ClearSlot(fields: seq<Field>, i: nat): Slot
    requires i < |fields|
    decreases fields, 0, 0
  {
    var f := fields[i];
    match f.htype
    case Required => Single(ClearValue(f))
    case Optional => if f.sizeOffset != 0 then Maybe(false, ClearValue(f)) else Single(ClearValue(f))
    case Repeated =>
      if f.sizeOffset != 0 then Counted([])
      else
        var v := ClearValue(f);
        FixedArray(seq(f.arraySize, _ => v))
    case Oneof => if ContinuesUnion(fields, i) then InUnion else Union(0, Int(0))
  }

  function ClearMessage(fields: seq<Field>, i: nat): seq<Slot>
    requires i <= |fields|
    decreases fields, 1, |fields| - i
  {
    if i == |fields| then [] else [ClearSlot(fields, i)] + ClearMessage(fields, i + 1)
  }

  /** Entry `k` of a fixed-count array is known to be cleared. */
  predicate EntryCleared(f: Field, k: nat) {
    Cleared(f, k * f.dataSize)
  }

  /** How many entries of a fixed-count array, from entry `k` on, are known to be cleared. */
  function ClearedFrom(f: Field, k: nat): (n: nat)
    requires k <= f.arraySize
    ensures k <= n <= f.arraySize
    ensures forall j: nat :: k <= j < n ==> EntryCleared(f, j)
    ensures n < f.arraySize ==> !EntryCleared(f, n)
    decreases f.arraySize - k
  {
    if k < f.arraySize && EntryCleared(f, k) then ClearedFrom(f, k + 1) else k
  }

  /** The entries of a fixed-count array that are known after that write. */
  function ClearedItems(f: Field): (r: seq<Value>)
    ensures |r| == ClearedFrom(f, 0)
  {
    var v := ClearValue(f);
    seq(ClearedFrom(f, 0), _ => v)
  }

  /** pb_field_set_to_default on entry `i`; the contents of other arrays and of unions stay unspecified. */
  function DefaultSlot(fields: seq<Field>, i: nat): Slot
    requires i < |fields|
    decreases fields, 0, 0
  {
    var f := fields[i];
    match f.htype
    case Required => Single(DefaultValueOf(f))
    case Optional => if f.sizeOffset != 0 then Maybe(false, DefaultValueOf(f)) else Single(DefaultValueOf(f))
    case Repeated => if f.sizeOffset != 0 then Counted([]) else FixedArray(ClearedItems(f))
    case Oneof => if ContinuesUnion(fields, i) then InUnion else Union(0, Int(0))
  }

  function DefaultFrom(fields: seq<Field>, i: nat): (m: seq<Slot>)
    requires i <= |fields|
    ensures |m| == |fields| - i
    ensures forall k :: 0 <= k < |m| ==> m[k] == DefaultSlot(fields, i + k)
    decreases fields, 1, |fields| - i
  {
    if i == |fields| then [] else [DefaultSlot(fields, i)] + DefaultFrom(fields, i + 1)
  }

  function DefaultMessage(fields: seq<Field>): (m: seq<Slot>)
    ensures |m| == |fields|
    ensures forall k :: 0 <= k < |m| ==> m[k] == DefaultSlot(fields, k)
    decreases fields, 2, 0
  {
    DefaultFrom(fields, 0)
  }

  // Reading from a stream.

  /** pb_read. */
  function Read(s: seq<byte>, n: nat): Option<(seq<byte>, seq<byte>)> {
    if |s| < n then None else Some((s[..n], s[n..]))
  }

  /** A length and that many bytes: pb_make_string_substream, or pb_decode_varint32 and pb_read. */
  function DecString(s: seq<byte>): (r: Option<(seq<byte>, seq<byte>)>)
    ensures r.Some? ==> |r.value.0| + |r.value.1| < |s|
  {
    var (size, rest) :- DecVarint32(s);
    Read(rest, size)
  }

  datatype TagResult = EndOfMessage(rest: seq<byte>) | BadTag | Tag(tag: nat, wireType: nat, rest: seq<byte>)

  /** pb_decode_tag; a zero tag word ends the message. */
  function DecTag(s: seq<byte>): (r: TagResult)
    ensures r.Tag? ==> |r.rest| < |s|
  {
    if s == [] then EndOfMessage([])
    else
      match DecVarint32(s)
      case None => BadTag
      case Some((word, rest)) => if word == 0 then EndOfMessage(rest) else Tag(word / 8, word % 8, rest)
  }

  /** pb_skip_varint. */
  function SkipVarint(s: seq<byte>): (r: Option<seq<byte>>)
    ensures r.Some? ==> |r.value| < |s|
  {
    if s == [] then None else if s[0] >= 0x80 then SkipVarint(s[1..]) else Some(s[1..])
  }

  /** pb_skip_field. */
  function SkipField(wireType: nat, s: seq<byte>): (r: Option<seq<byte>>)
    ensures r.Some? ==> |r.value| < |s|
  {
    if wireType == WT_VARINT then SkipVarint(s)
    else if wireType == WT_64BIT then (var (_, rest) :- Read(s, 8); Some(rest))
    else if wireType == WT_STRING then (var (_, rest) :- DecString(s); Some(rest))
    else if wireType == WT_32BIT then (var (_, rest) :- Read(s, 4); Some(rest))
    else None
  }

  // Single values.

  /** pb_dec_varint's casts of a decoded 64-bit value. */
  function NarrowSigned(value: nat, dataSize: nat): Option<int> {
    if !ValidIntSize(dataSize) then None
    else
      var svalue := if dataSize == 8 then AsSigned(value, 8) else AsSigned(value, 4);
      if AsSigned(svalue, dataSize) == svalue then Some(svalue) else None
  }

  /** pb_dec_varint, pb_dec_uvarint, pb_dec_svarint, pb_dec_fixed32, pb_dec_fixed64. */
  function DecScalar(f: Field, s: seq<byte>): (r: Option<(Value, seq<byte>)>)
    ensures r.Some? ==> |r.value.1| < |s|
  {
    match f.ltype
    case Varint =>
      var (value, rest) :- DecVarint(s);
      var v :- NarrowSigned(value, f.dataSize);
      Some((Int(v), rest))
    case UVarint =>
      var (value, rest) :- DecVarint(s);
      if ValidIntSize(f.dataSize) && AsUnsigned(value, f.dataSize) == value then Some((Int(value), rest)) else None
    case SVarint =>
      var (value, rest) :- DecVarint(s);
      var v := UnZigZag(value % TWO_64);
      if ValidIntSize(f.dataSize) && AsSigned(v, f.dataSize) == v then Some((Int(v), rest)) else None
    case Fixed32 =>
      var (b, rest) :- Read(s, 4);
      Some((Int(FromLittleEndian(b)), rest))
    case Fixed64 =>
      var (b, rest) :- Read(s, 8);
      Some((Int(FromLittleEndian(b)), rest))
    case _ => None
  }

  /** pb_dec_bytes, pb_dec_string and pb_dec_fixed_length_bytes, given the length-prefixed bytes. */
  function StoreString(f: Field, data: seq<byte>): Option<Value> {
    match f.ltype
    case BytesType => if |data| + BYTES_HEADER > f.dataSize then None else Some(Bytes(data))
    case StringType => if |data| + 1 > f.dataSize then None else Some(Str(data + [0]))
    case FixedLengthBytes =>
      if data == [] then Some(Raw(seq(f.dataSize, _ => 0)))
      else if |data| != f.dataSize then None
      else Some(Raw(data))
    case _ => None
  }

  /** Dispatch over PB_DECODERS; a submessage is merged into `prev`. */
  function DecValue(f: Field, prev: Value, s: seq<byte>): (r: Option<(Value, seq<byte>)>)
    ensures r.Some? ==> |r.value.1| < |s|
    decreases f, 0, 0
  {
    if Packable(f.ltype) then DecScalar(f, s)
    else
      var (data, rest) :- DecString(s);
      if f.ltype.Submessage? then
        match (f.ptr, prev)
        case (SubFields(sub), Message(slots)) =>
          var (m, _) :- DecMessage(sub, slots, data);
          Some((Message(m), rest))
        case _ => None
      else
        var v :- StoreString(f, data);
        Some((v, rest))
  }

  /** The value a new array entry or a newly selected oneof member is decoded into. */
  function FreshValue(f: Field): Value {
    if f.ltype.Submessage? then DefaultValueOf(f) else ZeroValue(f)
  }

  // Arrays.

  /** The entries of an array and the number received. */
  datatype Filled = Filled(items: seq<Value>, count: nat)

  /** Writing entry `count` of an array. */
  function StoreItem(items: seq<Value>, count: nat, v: Value): seq<Value> {
    if count < |items| then items[count := v] else items + [v]
  }

  /** The packed loop of decode_static_field over a substream. */
  function DecPacked(f: Field, items: seq<Value>, count: nat, s: seq<byte>): Option<Filled>
    decreases |s|
  {
    if s == [] then Some(Filled(items, count))
    else if count >= f.arraySize then None
    else
      var (v, rest) :- DecScalar(f, s);
      DecPacked(f, StoreItem(items, count, v), count + 1, rest)
  }

  /** A repeated field: a packed run, or one more entry. */
  function DecRepeated(f: Field, items: seq<Value>, count: nat, wireType: nat, s: seq<byte>)
      : (r: Option<(Filled, seq<byte>)>)
    ensures r.Some? ==> |r.value.1| < |s|
    decreases f, 1, 0
  {
    if wireType == WT_STRING && Packable(f.ltype) then
      var (payload, rest) :- DecString(s);
      var filled :- DecPacked(f, items, count, payload);
      Some((filled, rest))
    else if count >= f.arraySize then None
    else
      var (v, rest) :- DecValue(f, FreshValue(f), s);
      Some((Filled(StoreItem(items, count, v), count + 1), rest))
  }

  // Whole messages.

  /** The local state of pb_decode_noinit: destination, cursor, required fields seen, fixed-count progress. */
  datatype DecState = DecState(msg: seq<Slot>, pos: nat, seen: set<nat>, fixedField: Option<nat>, fixedCount: nat)

  /** The fixed-count bookkeeping before entry `i` is decoded. */
  function EnterFixed(fields: seq<Field>, i: nat, st: DecState): Option<DecState>
    requires i < |fields|
  {
    if !HasFixedCount(fields[i]) || st.fixedField == Some(i) then Some(st)
    else if !FixedComplete(fields, st) then None
    else Some(st.(fixedField := Some(i), fixedCount := 0))
  }

  predicate FixedComplete(fields: seq<Field>, st: DecState) {
    match st.fixedField
    case None => true
    case Some(k) => k < |fields| && st.fixedCount == fields[k].arraySize
  }

  /** The fields_seen bookkeeping for entry `i`. */
  function NoteRequired(fields: seq<Field>, i: nat, seen: set<nat>): set<nat>
    requires i < |fields|
  {
    if fields[i].htype.Required? && RequiredBefore(fields, i) < PB_MAX_REQUIRED_FIELDS
    then seen + {RequiredBefore(fields, i)} else seen
  }

  /** decode_static_field on entry `i`. */
  function DecStatic(fields: seq<Field>, i: nat, wireType: nat, st: DecState, s: seq<byte>)
      : (r: Option<(DecState, seq<byte>)>)
    requires i < |fields| == |st.msg|
    ensures r.Some? ==> |r.value.0.msg| == |st.msg| && r.value.0.pos == st.pos && |r.value.1| < |s|
    decreases fields, 0, 0
  {
    var f, at := fields[i], Leader(fields, i);
    match (f.htype, st.msg[at])
    case (Required, Single(prev)) =>
      var (v, rest) :- DecValue(f, prev, s);
      Some((st.(msg := st.msg[at := Single(v)]), rest))
    case (Optional, Single(prev)) =>
      if f.sizeOffset != 0 then None
      else
        var (v, rest) :- DecValue(f, prev, s);
        Some((st.(msg := st.msg[at := Single(v)]), rest))
    case (Optional, Maybe(_, prev)) =>
      if f.sizeOffset == 0 then None
      else
        var (v, rest) :- DecValue(f, prev, s);
        Some((st.(msg := st.msg[at := Maybe(true, v)]), rest))
    case (Repeated, Counted(items)) =>
      if f.sizeOffset == 0 then None
      else
        var (filled, rest) :- DecRepeated(f, items, |items|, wireType, s);
        Some((st.(msg := st.msg[at := Counted(filled.items)]), rest))
    case (Repeated, FixedArray(items)) =>
      if f.sizeOffset != 0 then None
      else
        var (filled, rest) :- DecRepeated(f, items, st.fixedCount, wireType, s);
        Some((st.(msg := st.msg[at := FixedArray(filled.items)], fixedCount := filled.count), rest))
    case (Oneof, Union(_, _)) =>
      var (v, rest) :- DecValue(f, FreshValue(f), s);
      Some((st.(msg := st.msg[at := Union(f.tag, v)]), rest))
    case _ => None
  }

  /** One known field of pb_decode_noinit's loop: lines 964 to 996. */
  function DecKnown(fields: seq<Field>, i: nat, wireType: nat, st: DecState, s: seq<byte>)
      : (r: Option<(DecState, seq<byte>)>)
    requires i < |fields| == |st.msg|
    ensures r.Some? ==> |r.value.0.msg| == |st.msg| && r.value.0.pos == i && |r.value.1| < |s|
    decreases fields, 1, 0
  {
    var entered :- EnterFixed(fields, i, st.(pos := i));
    var noted := entered.(seen := NoteRequired(fields, i, entered.seen));
    if !fields[i].atype.Static? then None else DecStatic(fields, i, wireType, noted, s)
  }

  /** The search of pb_field_iter_find: `left` entries from `i` on, wrapping at the end of the table. */
  function FindFrom(fields: seq<Field>, i: nat, tag: nat, left: nat): (r: Option<nat>)
    requires i < |fields|
    ensures r.Some? ==> r.value < |fields| && fields[r.value].tag == tag && !fields[r.value].ltype.Extension?
    decreases left
  {
    if left == 0 then None
    else if fields[i].tag == tag && !fields[i].ltype.Extension? then Some(i)
    else FindFrom(fields, if i + 1 < |fields| then i + 1 else 0, tag, left - 1)
  }

  function Find(fields: seq<Field>, pos: nat, tag: nat): (r: Option<nat>)
    requires pos < |fields|
    ensures r.Some? ==> r.value < |fields| && fields[r.value].tag == tag && !fields[r.value].ltype.Extension?
  {
    FindFrom(fields, pos, tag, |fields|)
  }

  datatype Step = Finished(rest: seq<byte>) | Failed | Next(st: DecState, rest: seq<byte>)

  predicate StateOk(fields: seq<Field>, st: DecState) {
    |st.msg| == |fields| && (fields == [] || st.pos < |fields|)
  }

  /** One turn of pb_decode_noinit's loop. In an empty table a zero tag finds the terminator entry. */
  function StepMessage(fields: seq<Field>, st: DecState, s: seq<byte>): (r: Step)
    requires StateOk(fields, st)
    ensures r.Next? ==> StateOk(fields, r.st) && |r.rest| < |s|
    decreases fields, 2, 0
  {
    match DecTag(s)
    case EndOfMessage(rest) => Finished(rest)
    case BadTag => Failed
    case Tag(tag, wireType, rest) =>
      if fields == [] && tag == 0 then Failed
      else
        match (if fields == [] then None else Find(fields, st.pos, tag))
        case None =>
          (match SkipField(wireType, rest)
           case None => Failed
           case Some(rest') => Next(st, rest'))
        case Some(i) =>
          match DecKnown(fields, i, wireType, st, rest)
          case None => Failed
          case Some((st', rest')) => Next(st', rest')
  }

  /** The loop of pb_decode_noinit. */
  function DecLoop(fields: seq<Field>, st: DecState, s: seq<byte>): (r: Option<(DecState, seq<byte>)>)
    requires StateOk(fields, st)
    ensures r.Some? ==> StateOk(fields, r.value.0)
    decreases fields, 3, |s|
  {
    match StepMessage(fields, st, s)
    case Finished(rest) => Some((st, rest))
    case Failed => None
    case Next(st', rest) => DecLoop(fields, st', rest)
  }

  predicate RequiredSeen(fields: seq<Field>, seen: set<nat>) {
    forall k: nat :: k < RequiredBefore(fields, |fields|) && k < PB_MAX_REQUIRED_FIELDS ==> k in seen
  }

  function StartState(m: seq<Slot>): DecState {
    DecState(m, 0, {}, None, 0)
  }

  /** pb_decode_noinit into a message that is already initialised. */
  function DecMessage(fields: seq<Field>, m: seq<Slot>, s: seq<byte>): (r: Option<(seq<Slot>, seq<byte>)>)
    ensures r.Some? ==> |r.value.0| == |fields|
    decreases fields, 4, 0
  {
    if |m| != |fields| then None
    else
      var (st, rest) :- DecLoop(fields, StartState(m), s);
      if FixedComplete(fields, st) && RequiredSeen(fields, st.seen) then Some((st.msg, rest)) else None
  }

  /** pb_decode. */
  function Decode(fields: seq<Field>, s: seq<byte>): Option<(seq<Slot>, seq<byte>)> {
    DecMessage(fields, DefaultMessage(fields), s)
  }
}
