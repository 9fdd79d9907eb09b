/**
  Which descriptor tables and messages the encoder and the decoder agree on, and when two
  messages are the same to a reader.
 */
module MessageShape {
  import opened Bits
  import opened Wire
  import opened Descriptors
  import opened EncodeSpec
  import opened DecodeSpec

  ghost predicate DistinctTags(fields: seq<Field>) {
    forall i, j :: 0 <= i < j < |fields| ==> fields[i].tag != fields[j].tag
  }

  /** Every fixed-count array of the table lies, as far as it can be observed, inside its first word. */
  ghost predicate FixedInWord(fields: seq<Field>) {
    forall i :: 0 <= i < |fields| && HasFixedCount(fields[i]) ==> ArrayCleared(fields[i])
  }

  ghost predicate ArrayCleared(f: Field) {
    forall k: nat :: k < f.arraySize ==> EntryCleared(f, k)
  }

  /** What the first word of an array that reads as zero says about the entries. */
  ghost predicate WordIsZero(f: Field, items: seq<Value>) {
    forall k: nat :: k < |items| && EntryCleared(f, k) ==> SameValue(f, items[k], ClearValue(f))
  }

  /** A statically allocated field as the generator emits it; proto3 singular fields have no default. */
  ghost predicate FieldOk(f: Field)
    decreases f, 0
  {
    && 1 <= f.tag <= MAX_TAG
    && f.atype.Static?
    && !f.ltype.Extension?
    && (IsSingular(f) ==> !f.ptr.DefaultValue?)
    && (f.ltype.Submessage? ==> f.ptr.SubFields? && TableOk(f.ptr.fields))
  }

  ghost predicate TableOk(fields: seq<Field>)
    decreases fields, 1
  {
    DistinctTags(fields) && forall i :: 0 <= i < |fields| ==> FieldOk(fields[i])
  }

  /** A NUL lies inside the buffer. */
  ghost predicate Terminated(f: Field, buf: seq<byte>) {
    |buf| <= f.dataSize && StrLen(buf, f.dataSize) < |buf|
  }

  ghost predicate LengthFits(o: Option<seq<byte>>) {
    o.Some? ==> |o.value| < TWO_32
  }

  /** The value has the type its descriptor gives it; strings are terminated and lengths below 2^32. */
  ghost predicate ValueOk(lay: Layout, f: Field, v: Value)
    decreases f, 0
  {
    match f.ltype
    case Varint | SVarint => v.Int? && ValidIntSize(f.dataSize) && AsSigned(v.v, f.dataSize) == v.v
    case UVarint => v.Int? && ValidIntSize(f.dataSize) && AsUnsigned(v.v, f.dataSize) == v.v
    case Fixed32 => v.Int? && f.dataSize == 4 && 0 <= v.v < TWO_32
    case Fixed64 => v.Int? && f.dataSize == 8 && 0 <= v.v < TWO_64
    case BytesType => v.Bytes?
    case StringType => v.Str? && Terminated(f, v.buf)
    case FixedLengthBytes => v.Raw? && |v.data| == f.dataSize
    case Submessage =>
      && v.Message?
      && f.ptr.SubFields?
      && MessageOk(lay, f.ptr.fields, v.slots)
      && LengthFits(EncMessage(lay, f.ptr.fields, v.slots))
    case Extension => false
  }

  ghost predicate ItemsOk(lay: Layout, f: Field, items: seq<Value>)
    decreases f, 1
  {
    && (forall k :: 0 <= k < |items| ==> ValueOk(lay, f, items[k]))
    && LengthFits(EncPackedFrom(f, items, 0))
  }

  /** In a proto3 singular submessage that the zero check leaves out, fixed-count arrays lie in one word. */
  ghost predicate ZeroCheckSound(lay: Layout, f: Field, v: Value) {
    f.ltype.Submessage? && f.ptr.SubFields? && IsZero(lay, f, v) ==> FixedInWord(f.ptr.fields)
  }

  /** The slot that stores field `i` has the layout its descriptor gives it. */
  ghost predicate SlotOk(lay: Layout, fields: seq<Field>, m: seq<Slot>, i: nat)
    requires i < |fields| == |m|
    decreases fields, 0
  {
    var f := fields[i];
    match (f.htype, m[Leader(fields, i)])
    case (Required, Single(v)) => ValueOk(lay, f, v)
    case (Optional, Single(v)) => f.sizeOffset == 0 && ValueOk(lay, f, v) && ZeroCheckSound(lay, f, v)
    case (Optional, Maybe(has, v)) => f.sizeOffset != 0 && (has ==> ValueOk(lay, f, v))
    case (Repeated, Counted(items)) => f.sizeOffset != 0 && |items| <= f.arraySize && ItemsOk(lay, f, items)
    case (Repeated, FixedArray(items)) =>
      && f.sizeOffset == 0 && |items| == f.arraySize && ItemsOk(lay, f, items)
      && (lay(fields, m, i) == 0 ==> WordIsZero(f, items))
    case (Oneof, Union(which, v)) => which == f.tag ==> ValueOk(lay, f, v)
    case _ => false
  }

  /** A oneof selects nothing or one of its members. */
  ghost predicate SelectionOk(fields: seq<Field>, m: seq<Slot>, i: nat)
    requires i < |fields| == |m|
  {
    var at := Leader(fields, i);
    m[at].Union? && m[at].which != 0 ==> exists k :: Selects(fields, m, at, k)
  }

  ghost predicate Selects(fields: seq<Field>, m: seq<Slot>, at: nat, k: nat)
    requires |fields| == |m|
  {
    k < |fields| && at < |m| && Leader(fields, k) == at && m[at].Union? && fields[k].tag == m[at].which
  }

  ghost predicate MessageOk(lay: Layout, fields: seq<Field>, m: seq<Slot>)
    decreases fields, 1
  {
    && |m| == |fields|
    && (forall i :: 0 <= i < |fields| ==> SlotOk(lay, fields, m, i))
    && (forall i :: 0 <= i < |fields| ==> SelectionOk(fields, m, i))
  }

  /** The text in a string buffer. */
  function Text(f: Field, buf: seq<byte>): seq<byte> {
    buf[..StrLen(buf, f.dataSize)]
  }

  ghost predicate SameValue(f: Field, v: Value, w: Value)
    decreases f, 0
  {
    match f.ltype
    case StringType => v.Str? && w.Str? && Text(f, v.buf) == Text(f, w.buf)
    case Submessage => v.Message? && w.Message? && f.ptr.SubFields? && SameMessage(f.ptr.fields, v.slots, w.slots)
    case _ => v == w
  }

  ghost predicate SameItems(f: Field, items: seq<Value>, items': seq<Value>)
    decreases f, 1
  {
    |items| == |items'| && forall k :: 0 <= k < |items| ==> SameValue(f, items[k], items'[k])
  }

  /** Field `i` reads the same in both messages; an absent field's contents are not read. */
  ghost predicate SameField(fields: seq<Field>, m: seq<Slot>, w: seq<Slot>, i: nat)
    requires i < |fields| == |m| == |w|
    decreases fields, 0
  {
    var f, at := fields[i], Leader(fields, i);
    match (m[at], w[at])
    case (Single(v), Single(v')) => SameValue(f, v, v')
    case (Maybe(has, v), Maybe(has', v')) => has == has' && (has ==> SameValue(f, v, v'))
    case (Counted(items), Counted(items')) => SameItems(f, items, items')
    case (FixedArray(items), FixedArray(items')) => SameItems(f, items, items')
    case (Union(which, v), Union(which', v')) => which == which' && (which == f.tag ==> SameValue(f, v, v'))
    case _ => false
  }

  ghost predicate SameMessage(fields: seq<Field>, m: seq<Slot>, w: seq<Slot>)
    decreases fields, 1
  {
    |m| == |w| == |fields| && forall i :: 0 <= i < |fields| ==> SameField(fields, m, w, i)
  }
}
