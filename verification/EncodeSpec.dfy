/**
  What pb_encode.c writes: for each encoder the bytes it appends to a stream without limit,
  or None where it reports an error. A value whose shape does not fit its descriptor, which
  generated structures cannot hold, also gives None.

  `lay` stands for the one place where the encoder looks at raw storage: reading the first word of
  the fixed-count array of an entry as a count, pb_encode.c line 228.
 */
module EncodeSpec {
  import opened Bits
  import opened Wire
  import opened Descriptors

  type Layout = (seq<Field>, seq<Slot>, nat) -> nat

  /** `o` with `s` written in front. */
  function Prepend(s: seq<byte>, o: Option<seq<byte>>): Option<seq<byte>> {
    match o
    case None => None
    case Some(r) => Some(s + r)
  }

  lemma PrependNothing(o: Option<seq<byte>>)
    ensures Prepend([], o) == o
  {
    if o.Some? { assert [] + o.value == o.value; }
  }

  lemma PrependPrepend(a: seq<byte>, b: seq<byte>, o: Option<seq<byte>>)
    ensures Prepend(a, Prepend(b, o)) == Prepend(a + b, o)
  {
    if o.Some? { assert a + (b + o.value) == a + b + o.value; }
  }

  function EncTag(wireType: nat, tag: nat): seq<byte> {
    EncVarint(tag * 8 + wireType)
  }

  function WireType(lt: LType): Option<nat> {
    match lt
    case Varint | UVarint | SVarint => Some(WT_VARINT)
    case Fixed32 => Some(WT_32BIT)
    case Fixed64 => Some(WT_64BIT)
    case BytesType | StringType | Submessage | FixedLengthBytes => Some(WT_STRING)
    case Extension => None
  }

  /** pb_encode_string. */
  function EncString(s: seq<byte>): seq<byte> {
    EncVarint(|s| % TWO_64) + s
  }

  /** The length pb_enc_string finds: up to the first NUL, at most the buffer's size. */
  function StrLen(buf: seq<byte>, max: nat): (n: nat)
    ensures n <= |buf| && n <= max
    ensures forall k :: 0 <= k < n ==> buf[k] != 0
    ensures n < |buf| && n < max ==> buf[n] == 0
  {
    if buf == [] || max == 0 || buf[0] == 0 then 0 else 1 + StrLen(buf[1..], max - 1)
  }

  /** An integer member as it is read from the structure. */
  function IntOf(v: Value): int {
    if v.Int? then v.v else 0
  }

  /** The packable types: pb_enc_varint, pb_enc_uvarint, pb_enc_svarint, pb_enc_fixed32, pb_enc_fixed64. */
  function EncScalar(f: Field, v: Value): Option<seq<byte>> {
    var n := IntOf(v);
    match f.ltype
    case Varint => if ValidIntSize(f.dataSize) then Some(EncVarint(n % TWO_64)) else None
    case UVarint => if ValidIntSize(f.dataSize) then Some(EncVarint(n % TWO_64)) else None
    case SVarint => if ValidIntSize(f.dataSize) then Some(EncVarint(ZigZag(n))) else None
    case Fixed32 => Some(LittleEndian(n % TWO_32, 4))
    case Fixed64 => Some(LittleEndian(n % TWO_64, 8))
    case _ => None
  }

  /** Dispatch over PB_ENCODERS. */
  function EncValue(lay: Layout, f: Field, v: Value): Option<seq<byte>>
    decreases f, 0, 0
  {
    if Packable(f.ltype) then EncScalar(f, v)
    else
      match (f.ltype, v)
      case (BytesType, Bytes(data)) => if |data| + BYTES_HEADER > f.dataSize then None else Some(EncString(data))
      case (StringType, Str(buf)) => Some(EncString(buf[..StrLen(buf, f.dataSize)]))
      case (FixedLengthBytes, Raw(data)) => if |data| == f.dataSize then Some(EncString(data)) else None
      case (Submessage, Message(slots)) =>
        (match f.ptr
         case SubFields(sub) => var b :- EncMessage(lay, sub, slots); Some(EncString(b))
         case _ => None)
      case _ => None
  }

  /** pb_encode_tag_for_field, then the value. */
  function EncTagged(lay: Layout, f: Field, v: Value): Option<seq<byte>>
    decreases f, 1, 0
  {
    var wt :- WireType(f.ltype);
    var b :- EncValue(lay, f, v);
    Some(EncTag(wt, f.tag) + b)
  }

  /** The items of a packed array from item `i` on. */
  function EncPackedFrom(f: Field, items: seq<Value>, i: nat): Option<seq<byte>>
    requires i <= |items|
    decreases |items| - i
  {
    if i == |items| then Some([])
    else
      var b :- EncScalar(f, items[i]);
      Prepend(b, EncPackedFrom(f, items, i + 1))
  }

  /** The items of an unpacked array from item `i` on, each with its tag. */
  function EncUnpackedFrom(lay: Layout, f: Field, items: seq<Value>, i: nat): Option<seq<byte>>
    requires i <= |items|
    decreases f, 2, |items| - i
  {
    if i == |items| then Some([])
    else
      var b :- EncTagged(lay, f, items[i]);
      Prepend(b, EncUnpackedFrom(lay, f, items, i + 1))
  }

  /** encode_array. */
  function EncArray(lay: Layout, f: Field, items: seq<Value>): Option<seq<byte>>
    decreases f, 3, 0
  {
    if items == [] then Some([])
    else if |items| > f.arraySize then None
    else if Packable(f.ltype) then
      var payload :- EncPackedFrom(f, items, 0);
      Some(EncTag(WT_STRING, f.tag) + EncString(payload))
    else EncUnpackedFrom(lay, f, items, 0)
  }

  /** encode_basic_field, for entry `i` of the table. */
  function EncField(lay: Layout, fields: seq<Field>, m: seq<Slot>, i: nat): Option<seq<byte>>
    requires i < |fields| == |m|
    decreases fields, 0, 0
  {
    var f, slot := fields[i], m[Leader(fields, i)];
    if !f.atype.Static? then None
    else
      match (f.htype, slot)
      case (Required, Single(v)) => EncTagged(lay, f, v)
      case (Optional, Maybe(has, v)) =>
        if f.sizeOffset == 0 then None else if has then EncTagged(lay, f, v) else Some([])
      case (Optional, Single(v)) =>
        if f.sizeOffset != 0 then None else if IsZero(lay, f, v) then Some([]) else EncTagged(lay, f, v)
      case (Repeated, Counted(items)) => if f.sizeOffset == 0 then None else EncArray(lay, f, items)
      case (Repeated, FixedArray(items)) =>
        if f.sizeOffset != 0 || |items| != f.arraySize then None else EncArray(lay, f, items)
      case (Oneof, Union(which, v)) => if which == f.tag then EncTagged(lay, f, v) else Some([])
      case _ => None
  }

  /** The fields from entry `i` on. */
  function EncFrom(lay: Layout, fields: seq<Field>, m: seq<Slot>, i: nat): Option<seq<byte>>
    requires i <= |fields| == |m|
    decreases fields, 1, |fields| - i
  {
    if i == |fields| then Some([])
    else
      var b :- EncField(lay, fields, m, i);
      Prepend(b, EncFrom(lay, fields, m, i + 1))
  }

  /** pb_encode. */
  function EncMessage(lay: Layout, fields: seq<Field>, m: seq<Slot>): Option<seq<byte>>
    decreases fields, 2, 0
  {
    if |m| != |fields| then None else EncFrom(lay, fields, m, 0)
  }

  /** pb_check_proto3_default_value on a proto3 singular field. */
  function IsZero(lay: Layout, f: Field, v: Value): bool
    decreases f, 0
  {
    match v
    case Bytes(data) => data == []
    case Str(buf) => buf == [] || buf[0] == 0
    case Raw(_) => f.dataSize == 0
    case Int(n) => f.dataSize == 0 || n == 0
    case Message(slots) =>
      (match f.ptr
       case SubFields(sub) => AllZeroFrom(lay, sub, slots, 0)
       case _ => false)
  }

  /** pb_check_proto3_default_value on entry `i` of a submessage's table. */
  function FieldIsZero(lay: Layout, fields: seq<Field>, m: seq<Slot>, i: nat): bool
    requires i < |fields|
    decreases fields, 0, 0
  {
    var f := fields[i];
    |m| == |fields| &&
    match (f.htype, m[Leader(fields, i)])
    case (Repeated, Counted(items)) => items == []
    case (Repeated, FixedArray(_)) => lay(fields, m, i) == 0
    case (Oneof, Union(which, _)) => which == 0
    case (Optional, Maybe(has, _)) => !has
    case (Optional, Single(v)) => IsZero(lay, f, v)
    case _ => false
  }

  function AllZeroFrom(lay: Layout, fields: seq<Field>, m: seq<Slot>, i: nat): bool
    requires i <= |fields|
    decreases fields, 1, |fields| - i
  {
    i == |fields| || (FieldIsZero(lay, fields, m, i) && AllZeroFrom(lay, fields, m, i + 1))
  }
}
