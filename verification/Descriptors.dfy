/**
  The field tables of pb.h and the messages they describe, for 32-bit field descriptors
  (PB_FIELD_32BIT). A message is a sequence of slots, one a table entry; a slot holds what
  can be observed in the structure member: the storage of an array past its count, of a
  union without a selected member, or of a string past its terminator is not represented.
 */
module Descriptors {
  import opened Bits

  datatype LType = Varint | UVarint | SVarint | Fixed32 | Fixed64 | BytesType | StringType | Submessage | Extension
                 | FixedLengthBytes

  datatype HType = Required | Optional | Repeated | Oneof

  datatype AType = Static | Pointer | Callback

  /** The `ptr` member: a submessage's table, a default value, or null. */
  datatype Ptr = NullPtr | SubFields(fields: seq<Field>) | DefaultValue(value: Value)

  /** A 32-bit unsigned size or tag. */
  type pb_size_t = x: int | 0 <= x <= PB_SIZE_MAX

  datatype Field = Field(tag: pb_size_t, ltype: LType, htype: HType, atype: AType,
                         dataOffset: pb_size_t, sizeOffset: int, dataSize: pb_size_t, arraySize: pb_size_t, ptr: Ptr)

  datatype Value =
    | Int(v: int)
    | Bytes(data: seq<byte>)     // pb_bytes_array_t
    | Str(buf: seq<byte>)        // a char buffer, as far as it is known
    | Raw(data: seq<byte>)       // an inline fixed-length byte array
    | Message(slots: seq<Slot>)

  datatype Slot =
    | Single(value: Value)                   // required, or proto3 singular
    | Maybe(has: bool, value: Value)         // optional with a has_ flag
    | Counted(items: seq<Value>)             // repeated with a _count member
    | FixedArray(items: seq<Value>)          // repeated with a fixed count, as far as the entries are known
    | Union(which: nat, value: Value)        // a oneof, in the slot of its first member
    | InUnion                                // the other members of a oneof

  const PB_SIZE_MAX: nat := 0xFFFF_FFFF
  const PB_MAX_REQUIRED_FIELDS: nat := 64
  const MAX_TAG: nat := 0x1FFF_FFFF
  const BYTES_HEADER: nat := 4  // offsetof(pb_bytes_array_t, bytes)

  const WT_VARINT: nat := 0
  const WT_64BIT: nat := 1
  const WT_STRING: nat := 2
  const WT_32BIT: nat := 5

  predicate Packable(lt: LType) {
    lt.Varint? || lt.UVarint? || lt.SVarint? || lt.Fixed32? || lt.Fixed64?
  }

  /** Field `i` shares the storage of field `i - 1`: both lie in one union. */
  predicate ContinuesUnion(fields: seq<Field>, i: nat)
    requires i < |fields|
  {
    i > 0 && fields[i - 1].htype.Oneof? && fields[i].htype.Oneof? && fields[i].dataOffset == PB_SIZE_MAX
  }

  /** The table entry whose slot stores field `i`. */
  function Leader(fields: seq<Field>, i: nat): (r: nat)
    requires i < |fields|
    ensures r <= i
  {
    if ContinuesUnion(fields, i) then Leader(fields, i - 1) else i
  }

  /** The number of required fields before entry `i`. */
  function RequiredBefore(fields: seq<Field>, i: nat): nat
    requires i <= |fields|
  {
    if i == 0 then 0 else RequiredBefore(fields, i - 1) + (if fields[i - 1].htype.Required? then 1 else 0)
  }

  predicate HasFixedCount(f: Field) {
    f.htype.Repeated? && f.sizeOffset == 0
  }

  /** Proto3 style: optional, without a has_ flag. */
  predicate IsSingular(f: Field) {
    f.htype.Optional? && f.sizeOffset == 0
  }

  predicate ValidIntSize(n: nat) {
    n == 1 || n == 2 || n == 4 || n == 8
  }

  // Where the members lie.

  const POINTER_SIZE: nat := 8

  /** The bytes field `f` takes in the structure. */
  function MemberSize(f: Field): nat {
    if f.atype.Static? && f.htype.Repeated? then f.dataSize * f.arraySize
    else if f.atype.Pointer? then POINTER_SIZE
    else f.dataSize
  }

  /** The address of field `i`'s data. */
  function DataAt(fields: seq<Field>, dest: int, i: nat): int
    requires i < |fields|
  {
    if i == 0 then dest + fields[0].dataOffset
    else if ContinuesUnion(fields, i) then DataAt(fields, dest, i - 1)
    else DataAt(fields, dest, i - 1) + MemberSize(fields[i - 1]) + fields[i].dataOffset
  }

  /** The address of field `i`'s count, has_ flag or which_ member. */
  function SizeAt(fields: seq<Field>, dest: int, i: nat): int
    requires i < |fields|
  {
    if ContinuesUnion(fields, i) then SizeAt(fields, dest, i - 1)
    else DataAt(fields, dest, i) + fields[i].sizeOffset
  }
}
