/**
  pb_encode.c on an output stream. Every method appends exactly the bytes of its specification
  in EncodeSpec, or counts them when the stream is a sizing stream.
 */
module PbEncode {
  import opened Bits
  import opened Wire
  import opened Descriptors
  import opened EncodeSpec
  import opened PbCommon

  /** pb_ostream_t. A sizing stream has no callback and only counts. */
  class OStream {
    const sizing: bool
    const buf: array<byte>
    var state: nat         // where the next byte goes in buf
    var maxSize: nat
    var bytesWritten: nat

    ghost predicate Valid()
      reads this
    {
      sizing || (bytesWritten <= maxSize && state + (maxSize - bytesWritten) <= buf.Length)
    }

    /** PB_OSTREAM_SIZING. */
    constructor Sizing()
      ensures Valid() && sizing && bytesWritten == 0 && fresh(buf)
    {
      sizing := true;
      buf := new byte[0];
      state, maxSize, bytesWritten := 0, 0, 0;
    }

    /** pb_ostream_from_buffer. */
    constructor FromBuffer(buf: array<byte>, bufsize: nat)
      requires bufsize <= buf.Length
      ensures Valid() && !sizing && this.buf == buf && state == 0 && maxSize == bufsize && bytesWritten == 0
    {
      sizing := false;
      this.buf := buf;
      state, maxSize, bytesWritten := 0, bufsize, 0;
    }

    /** A substream that writes on in the parent's buffer, at most `size` bytes. */
    constructor Sub(parent: OStream, size: nat)
      requires parent.Valid() && !parent.sizing && parent.bytesWritten + size <= parent.maxSize
      ensures Valid() && !sizing && buf == parent.buf && state == parent.state && maxSize == size && bytesWritten == 0
    {
      sizing := false;
      buf := parent.buf;
      state, maxSize, bytesWritten := parent.state, size, 0;
    }

    /** A call that had to write `e` and returned `ok`. */
    twostate predicate Appended(new ok: bool, new e: Option<seq<byte>>)
      reads this, buf
    {
      && old(Valid()) && Valid() && maxSize == old(maxSize)
      && (ok <==> e.Some? && (sizing || old(bytesWritten) + |e.value| <= maxSize))
      && (ok ==> bytesWritten == old(bytesWritten) + |e.value|)
      && (ok && !sizing ==> state == old(state) + |e.value| && buf[..state] == old(buf[..state]) + e.value)
    }

    /** pb_write, with buf_write as the callback. */
    method Write(data: seq<byte>) returns (ok: bool)
      requires Valid()
      modifies this, buf
      ensures Appended(ok, Some(data))
    {
      if !sizing {
        if bytesWritten + |data| > maxSize {
          return false;
        }
        var i := 0;
        while i < |data|
          modifies buf
          invariant i <= |data|
          invariant buf[..state + i] == old(buf[..state]) + data[..i]
        {
          buf[state + i] := data[i];
          i := i + 1;
        }
        state := state + |data|;
      }
      bytesWritten := bytesWritten + |data|;
      ok := true;
    }

    /** pb_write with a null buffer, as the encoders use it on a sizing stream. */
    method WriteNothing(count: nat) returns (ok: bool)
      requires Valid() && sizing
      modifies this
      ensures ok && Valid() && maxSize == old(maxSize) && bytesWritten == old(bytesWritten) + count
    {
      bytesWritten := bytesWritten + count;
      ok := true;
    }
  }

  lemma VarintBytes(v: nat)
    requires 0 < v
    ensures v >= 0x80 ==> EncVarint(v) == [v % 0x80 + 0x80] + EncVarint(v / 0x80) && v / 0x80 > 0
    ensures v < 0x80 ==> EncVarint(v) == [v] && v / 0x80 == 0 && (v % 0x80 + 0x80) % 0x80 == v
  {
  }

  /** What is left of the number gives the rest of the bytes; at the end only the last one's top bit is wrong. */
  ghost predicate VarintSoFar(done: seq<byte>, v: nat, whole: seq<byte>) {
    if v != 0 then done + EncVarint(v) == whole
    else done != [] && done[..|done| - 1] + [done[|done| - 1] % 0x80] == whole
  }

  lemma VarintStarts(value: nat)
    requires value != 0
    ensures VarintSoFar([], value, EncVarint(value))
  {
    hide EncVarint;
    assert [] + EncVarint(value) == EncVarint(value);
  }

  lemma VarintEnds(done: seq<byte>, whole: seq<byte>)
    requires VarintSoFar(done, 0, whole)
    ensures done != [] && done[..|done| - 1] + [done[|done| - 1] % 0x80] == whole
  {
  }

  lemma VarintMore(done: seq<byte>, v: nat, whole: seq<byte>)
    requires v != 0 && VarintSoFar(done, v, whole)
    ensures |done| < |whole| && VarintSoFar(done + [v % 0x80 + 0x80], v / 0x80, whole)
  {
    hide EncVarint;
    VarintBytes(v);
    var b := v % 0x80 + 0x80;
    assert done + ([b] + EncVarint(v / 0x80)) == done + [b] + EncVarint(v / 0x80);
    assert (done + [b])[..|done|] == done;
  }

  /** pb_encode_varint, from a stack buffer of ten bytes. */
  method EncodeVarint(stream: OStream, value: nat) returns (ok: bool)
    requires stream.Valid() && value < TWO_64
    modifies stream, stream.buf
    ensures stream.Appended(ok, Some(EncVarint(value)))
  {
    hide EncVarint, VarintSoFar;
    if value <= 0x7F {
      assert EncVarint(value) == [value] by { if value > 0 { VarintBytes(value); } else { assert EncVarint(0) == [0] by { EncZero(); } } }
      ok := stream.Write([value]);
      return;
    }
    var buffer := new byte[10];
    var i, v := 0, value;
    ghost var done: seq<byte> := [];
    EncVarintAtMostTen(value);
    VarintStarts(value);
    while v != 0
      modifies buffer
      invariant i == |done| <= 10 && buffer[..i] == done && VarintSoFar(done, v, EncVarint(value))
    {
      VarintMore(done, v, EncVarint(value));
      buffer[i] := v % 0x80 + 0x80;
      done, v, i := done + [v % 0x80 + 0x80], v / 0x80, i + 1;
    }
    VarintEnds(done, EncVarint(value));
    buffer[i - 1] := buffer[i - 1] % 0x80;
    assert buffer[..i] == EncVarint(value);
    ok := stream.Write(buffer[..i]);
  }

  lemma EncZero()
    ensures EncVarint(0) == [0]
  {
  }

  /** pb_encode_svarint. */
  method EncodeSVarint(stream: OStream, value: int) returns (ok: bool)
    requires stream.Valid()
    modifies stream, stream.buf
    ensures stream.Appended(ok, Some(EncVarint(ZigZag(value))))
  {
    hide EncVarint;
    var zigzagged := if value < 0 then TWO_64 - 1 - value % TWO_64 * 2 % TWO_64 else value * 2 % TWO_64;
    ok := EncodeVarint(stream, zigzagged);
  }

  lemma LowByte(v: nat, n: nat)
    ensures n == 0 ==> LittleEndian(v, n) == []
    ensures n > 0 ==> LittleEndian(v, n) == [v % 0x100] + LittleEndian(v / 0x100, n - 1)
  {
  }

  lemma NextLowByte(done: seq<byte>, v: nat, n: nat, whole: seq<byte>)
    requires n > 0 && done + LittleEndian(v, n) == whole
    ensures done + [v % 0x100] + LittleEndian(v / 0x100, n - 1) == whole
  {
    hide LittleEndian;
    LowByte(v, n);
  }

  /** pb_encode_fixed32 and pb_encode_fixed64: `n` bytes, least significant first. */
  method EncodeFixed(stream: OStream, value: nat, n: nat) returns (ok: bool)
    requires stream.Valid()
    modifies stream, stream.buf
    ensures stream.Appended(ok, Some(LittleEndian(value, n)))
  {
    hide LittleEndian;
    var bytes := new byte[n];
    var i, v := 0, value;
    ghost var done: seq<byte> := [];
    assert [] + LittleEndian(value, n) == LittleEndian(value, n);
    while i < n
      modifies bytes
      invariant i <= n && i == |done| && bytes[..i] == done
      invariant done + LittleEndian(v, n - i) == LittleEndian(value, n)
    {
      NextLowByte(done, v, n - i, LittleEndian(value, n));
      bytes[i] := v % 0x100;
      done, v, i := done + [v % 0x100], v / 0x100, i + 1;
    }
    LowByte(v, 0);
    assert done + [] == LittleEndian(value, n);
    ok := stream.Write(bytes[..n]);
  }

  /** pb_encode_tag. */
  method EncodeTag(stream: OStream, wireType: nat, tag: nat) returns (ok: bool)
    requires stream.Valid() && wireType < 8 && tag <= PB_SIZE_MAX
    modifies stream, stream.buf
    ensures stream.Appended(ok, Some(EncTag(wireType, tag)))
  {
    ok := EncodeVarint(stream, tag * 8 + wireType);
  }

  /** pb_encode_string. */
  method EncodeString(stream: OStream, data: seq<byte>) returns (ok: bool)
    requires stream.Valid()
    modifies stream, stream.buf
    ensures stream.Appended(ok, Some(EncString(data)))
  {
    hide EncVarint;
    ok := EncodeVarint(stream, |data| % TWO_64);
    if !ok {
      return;
    }
    ok := stream.Write(data);
  }

  /** pb_encode_tag_for_field. */
  method EncodeTagForField(stream: OStream, f: Field) returns (ok: bool)
    requires stream.Valid()
    modifies stream, stream.buf
    ensures stream.Appended(ok, var wt :- WireType(f.ltype); Some(EncTag(wt, f.tag)))
  {
    hide EncVarint;
    var wireType;
    match f.ltype {
      case Varint | UVarint | SVarint => wireType := WT_VARINT;
      case Fixed32 => wireType := WT_32BIT;
      case Fixed64 => wireType := WT_64BIT;
      case BytesType | StringType | Submessage | FixedLengthBytes => wireType := WT_STRING;
      case Extension => return false;
    }
    ok := EncodeTag(stream, wireType, f.tag);
  }

  /** pb_enc_varint, pb_enc_uvarint, pb_enc_svarint, pb_enc_fixed32, pb_enc_fixed64. */
  method EncodeScalar(stream: OStream, f: Field, v: Value) returns (ok: bool)
    requires stream.Valid() && Packable(f.ltype)
    modifies stream, stream.buf
    ensures stream.Appended(ok, EncScalar(f, v))
  {
    hide EncVarint, ZigZag, LittleEndian;
    var n := IntOf(v);
    match f.ltype {
      case Varint | UVarint =>
        if !ValidIntSize(f.dataSize) {
          return false;
        }
        ok := EncodeVarint(stream, n % TWO_64);
      case SVarint =>
        if !ValidIntSize(f.dataSize) {
          return false;
        }
        ok := EncodeSVarint(stream, n);
      case Fixed32 => ok := EncodeFixed(stream, n % TWO_32, 4);
      case Fixed64 => ok := EncodeFixed(stream, n % TWO_64, 8);
    }
  }

  /** pb_enc_string's scan for the terminator. */
  method ScanString(buf: seq<byte>, maxSize: nat) returns (size: nat)
    ensures size == StrLen(buf, maxSize)
  {
    size := 0;
    while size < maxSize && size < |buf| && buf[size] != 0
      invariant size <= |buf| && size <= maxSize
      invariant forall k :: 0 <= k < size ==> buf[k] != 0
    {
      size := size + 1;
    }
  }

  /** Dispatch over PB_ENCODERS for the types that are not packable. */
  method EncodeValue(stream: OStream, lay: Layout, f: Field, v: Value) returns (ok: bool)
    requires stream.Valid() && AllTagsNonZero(f)
    modifies stream, stream.buf
    ensures stream.Appended(ok, EncValue(lay, f, v))
    decreases f, 0, 0
  {
    hide EncScalar, EncMessage, StrLen, EncString;
    if Packable(f.ltype) {
      ok := EncodeScalar(stream, f, v);
      return;
    }
    match (f.ltype, v) {
      case (BytesType, Bytes(data)) =>
        if |data| + BYTES_HEADER > f.dataSize {
          return false;
        }
        ok := EncodeString(stream, data);
      case (StringType, Str(buf)) =>
        var size := ScanString(buf, f.dataSize);
        ok := EncodeString(stream, buf[..size]);
      case (FixedLengthBytes, Raw(data)) =>
        if |data| != f.dataSize {
          return false;
        }
        ok := EncodeString(stream, data);
      case (Submessage, Message(slots)) =>
        if !f.ptr.SubFields? {
          return false;
        }
        ok := EncodeSubmessage(stream, lay, f.ptr.fields, slots);
      case _ => ok := false;
    }
  }

  /**
    pb_encode_submessage: a sizing pass, the length, then the real pass on a substream that
    ends where the sizing pass said.
   */
  method EncodeSubmessage(stream: OStream, lay: Layout, fields: seq<Field>, m: seq<Slot>) returns (ok: bool)
    requires stream.Valid() && TagsNonZero(fields)
    modifies stream, stream.buf
    ensures stream.Appended(ok, var b :- EncMessage(lay, fields, m); Some(EncString(b)))
    decreases fields, 5, 0
  {
    hide EncMessage, EncVarint;
    var substream := new OStream.Sizing();
    var sized := Encode(substream, lay, fields, m);
    if !sized {
      return false;
    }
    var size := substream.bytesWritten;
    ok := EncodeVarint(stream, size % TWO_64);
    if !ok {
      return;
    }
    if stream.sizing {
      ok := stream.WriteNothing(size);
      return;
    }
    if stream.bytesWritten + size > stream.maxSize {
      return false;
    }
    substream := new OStream.Sub(stream, size);
    ghost var before := stream.buf[..stream.state];
    var status := Encode(substream, lay, fields, m);
    stream.bytesWritten := stream.bytesWritten + substream.bytesWritten;
    stream.state := substream.state;
    if substream.bytesWritten != size {
      assert false;  // the second pass writes what the first one counted
      return false;
    }
    assert stream.buf[..stream.state] == before + EncMessage(lay, fields, m).value;
    ok := status;
  }

  /** pb_encode_tag_for_field and the value. */
  method EncodeTagged(stream: OStream, lay: Layout, f: Field, v: Value) returns (ok: bool)
    requires stream.Valid() && AllTagsNonZero(f)
    modifies stream, stream.buf
    ensures stream.Appended(ok, EncTagged(lay, f, v))
    decreases f, 1, 0
  {
    hide EncValue, EncTag;
    ok := EncodeTagForField(stream, f);
    if !ok {
      return;
    }
    ok := EncodeValue(stream, lay, f, v);
  }

  // Arrays.

  lemma {:induction false} PackedLength(f: Field, items: seq<Value>, i: nat)
    requires i <= |items|
    ensures f.ltype.Fixed32? ==> EncPackedFrom(f, items, i).Some? && |EncPackedFrom(f, items, i).value| == 4 * (|items| - i)
    ensures f.ltype.Fixed64? ==> EncPackedFrom(f, items, i).Some? && |EncPackedFrom(f, items, i).value| == 8 * (|items| - i)
    decreases |items| - i
  {
    hide LittleEndian, EncVarint;
    if i < |items| { PackedLength(f, items, i + 1); }
  }

  /** The loop over the items of a packed array, on a sizing stream or a real one. */
  method EncodePacked(stream: OStream, f: Field, items: seq<Value>) returns (ok: bool)
    requires stream.Valid() && Packable(f.ltype)
    modifies stream, stream.buf
    ensures stream.Appended(ok, EncPackedFrom(f, items, 0))
  {
    hide EncScalar;
    ghost var done := [];
    PrependNothing(EncPackedFrom(f, items, 0));
    var i := 0;
    while i < |items|
      invariant i <= |items|
      invariant EncPackedFrom(f, items, 0) == Prepend(done, EncPackedFrom(f, items, i))
      invariant stream.Appended(true, Some(done))
    {
      ghost var b := EncScalar(f, items[i]);
      ok := EncodeScalar(stream, f, items[i]);
      if !ok {
        return;
      }
      PrependPrepend(done, b.value, EncPackedFrom(f, items, i + 1));
      done := done + b.value;
      i := i + 1;
    }
    assert done + [] == done;
    ok := true;
  }

  /** The total size of a packed array. */
  method PackedSize(f: Field, items: seq<Value>) returns (ok: bool, size: nat)
    requires Packable(f.ltype)
    ensures ok == EncPackedFrom(f, items, 0).Some?
    ensures ok ==> size == |EncPackedFrom(f, items, 0).value|
  {
    hide EncPackedFrom;
    ok, size := true, 0;
    PackedLength(f, items, 0);
    if f.ltype.Fixed32? {
      size := 4 * |items|;
    } else if f.ltype.Fixed64? {
      size := 8 * |items|;
    } else {
      var sizestream := new OStream.Sizing();
      ok := EncodePacked(sizestream, f, items);
      size := sizestream.bytesWritten;
    }
  }

  /** encode_array. */
  method EncodeArray(stream: OStream, lay: Layout, f: Field, items: seq<Value>) returns (ok: bool)
    requires stream.Valid() && AllTagsNonZero(f)
    modifies stream, stream.buf
    ensures stream.Appended(ok, EncArray(lay, f, items))
    decreases f, 3, 0
  {
    hide EncPackedFrom, EncVarint, EncUnpackedFrom, AllTagsNonZero;
    if |items| == 0 {
      return true;
    }
    if |items| > f.arraySize {
      return false;
    }
    if Packable(f.ltype) {
      hide EncTag;
      ok := EncodeTag(stream, WT_STRING, f.tag);
      if !ok {
        return;
      }
      var size;
      ok, size := PackedSize(f, items);
      if !ok {
        return;
      }
      ok := EncodeVarint(stream, size % TWO_64);
      if !ok {
        return;
      }
      if stream.sizing {
        ok := stream.WriteNothing(size);
      } else {
        ok := EncodePacked(stream, f, items);
      }
    } else {
      ok := EncodeUnpacked(stream, lay, f, items);
    }
  }

  /** The loop over the items of an unpacked array. */
  method EncodeUnpacked(stream: OStream, lay: Layout, f: Field, items: seq<Value>) returns (ok: bool)
    requires stream.Valid() && AllTagsNonZero(f)
    modifies stream, stream.buf
    ensures stream.Appended(ok, EncUnpackedFrom(lay, f, items, 0))
    decreases f, 2, 0
  {
    hide EncTagged;
    ghost var done := [];
    PrependNothing(EncUnpackedFrom(lay, f, items, 0));
    var i := 0;
    while i < |items|
      invariant i <= |items|
      invariant EncUnpackedFrom(lay, f, items, 0) == Prepend(done, EncUnpackedFrom(lay, f, items, i))
      invariant stream.Appended(true, Some(done))
    {
      ghost var b := EncTagged(lay, f, items[i]);
      ok := EncodeTagged(stream, lay, f, items[i]);
      if !ok {
        return;
      }
      PrependPrepend(done, b.value, EncUnpackedFrom(lay, f, items, i + 1));
      done := done + b.value;
      i := i + 1;
    }
    assert done + [] == done;
    ok := true;
  }

  // Whole messages.

  /** pb_check_proto3_default_value on a singular field; a submessage's fields are walked with a cursor. */
  method CheckZero(lay: Layout, f: Field, v: Value) returns (zero: bool)
    requires AllTagsNonZero(f)
    ensures zero == IsZero(lay, f, v)
    decreases f, 0
  {
    if v.Message? && f.ptr.SubFields? {
      zero := CheckAllZero(lay, f.ptr.fields, v.slots);
    } else {
      zero := match v
        case Bytes(data) => |data| == 0
        case Str(buf) => |buf| == 0 || buf[0] == 0
        case Raw(_) => f.dataSize == 0
        case Int(n) => f.dataSize == 0 || n == 0
        case Message(_) => false;
    }
  }

  method CheckAllZero(lay: Layout, fields: seq<Field>, m: seq<Slot>) returns (zero: bool)
    requires TagsNonZero(fields)
    ensures zero == AllZeroFrom(lay, fields, m, 0)
    decreases fields, 1
  {
    hide FieldIsZero;
    var iter := new FieldIter(fields, 0);
    var more := iter.Begin();
    ghost var i := 0;
    while more
      invariant iter.Valid() && fresh(iter) && iter.start == fields && i <= |fields|
      invariant more <==> i < |fields|
      invariant more ==> iter.pos == i
      invariant AllZeroFrom(lay, fields, m, 0) == AllZeroFrom(lay, fields, m, i)
      decreases |fields| - i
    {
      zero := CheckFieldZero(lay, fields, m, iter.pos);
      if !zero {
        return;
      }
      more := iter.Next();
      i := i + 1;
    }
    zero := true;
  }

  method CheckFieldZero(lay: Layout, fields: seq<Field>, m: seq<Slot>, i: nat) returns (zero: bool)
    requires TagsNonZero(fields) && i < |fields|
    ensures zero == FieldIsZero(lay, fields, m, i)
    decreases fields, 0
  {
    hide IsZero;
    var f := fields[i];
    if |m| != |fields| {
      return false;
    }
    match (f.htype, m[Leader(fields, i)]) {
      case (Repeated, Counted(items)) => zero := |items| == 0;
      case (Repeated, FixedArray(_)) => zero := lay(fields, m, i) == 0;
      case (Oneof, Union(which, _)) => zero := which == 0;
      case (Optional, Maybe(has, _)) => zero := !has;
      case (Optional, Single(v)) => zero := CheckZero(lay, f, v);
      case _ => zero := false;
    }
  }

  /** A zero tag is the terminator, in this table and the tables below it. */
  ghost predicate TagsNonZero(fields: seq<Field>)
    decreases fields, 1
  {
    NonZeroTags(fields) && forall i :: 0 <= i < |fields| ==> AllTagsNonZero(fields[i])
  }

  ghost predicate AllTagsNonZero(f: Field)
    decreases f, 0
  {
    f.ptr.SubFields? ==> TagsNonZero(f.ptr.fields)
  }

  /** encode_basic_field on entry `i`. */
  method EncodeField(stream: OStream, lay: Layout, fields: seq<Field>, m: seq<Slot>, i: nat) returns (ok: bool)
    requires stream.Valid() && TagsNonZero(fields) && i < |fields| == |m|
    modifies stream, stream.buf
    ensures stream.Appended(ok, EncField(lay, fields, m, i))
    decreases fields, 0, 0
  {
    hide EncTagged, EncArray, IsZero, TagsNonZero;
    var f := fields[i];
    assert AllTagsNonZero(f) by { TagsHere(fields); }
    if !f.atype.Static? {
      return false;
    }
    match (f.htype, m[Leader(fields, i)]) {
      case (Required, Single(v)) => ok := EncodeTagged(stream, lay, f, v);
      case (Optional, Maybe(has, v)) =>
        if f.sizeOffset == 0 {
          return false;
        }
        if has {
          ok := EncodeTagged(stream, lay, f, v);
        } else {
          ok := true;
        }
      case (Optional, Single(v)) =>
        if f.sizeOffset != 0 {
          return false;
        }
        var zero := CheckZero(lay, f, v);
        if !zero {
          ok := EncodeTagged(stream, lay, f, v);
        } else {
          ok := true;
        }
      case (Repeated, Counted(items)) =>
        if f.sizeOffset == 0 {
          return false;
        }
        ok := EncodeArray(stream, lay, f, items);
      case (Repeated, FixedArray(items)) =>
        if f.sizeOffset != 0 || |items| != f.arraySize {
          return false;
        }
        ok := EncodeArray(stream, lay, f, items);
      case (Oneof, Union(which, v)) =>
        if which == f.tag {
          ok := EncodeTagged(stream, lay, f, v);
        } else {
          ok := true;
        }
      case _ => ok := false;
    }
  }

  /** pb_encode. */
  method Encode(stream: OStream, lay: Layout, fields: seq<Field>, m: seq<Slot>) returns (ok: bool)
    requires stream.Valid() && TagsNonZero(fields)
    modifies stream, stream.buf
    ensures stream.Appended(ok, EncMessage(lay, fields, m))
    decreases fields, 4, 0
  {
    hide EncField, TagsNonZero;
    if |m| != |fields| {
      return false;
    }
    assert NonZeroTags(fields) by { TagsHere(fields); }
    var iter := new FieldIter(fields, 0);
    var more := iter.Begin();
    ghost var i, done := 0, [];
    PrependNothing(EncFrom(lay, fields, m, 0));
    while more
      invariant iter.Valid() && fresh(iter) && iter.start == fields && i <= |fields|
      invariant more <==> i < |fields|
      invariant more ==> iter.pos == i
      invariant EncFrom(lay, fields, m, 0) == Prepend(done, EncFrom(lay, fields, m, i))
      invariant stream.Appended(true, Some(done))
      decreases |fields| - i
    {
      ghost var b := EncField(lay, fields, m, i);
      ok := EncodeField(stream, lay, fields, m, iter.pos);
      if !ok {
        return;
      }
      PrependPrepend(done, b.value, EncFrom(lay, fields, m, i + 1));
      done := done + b.value;
      more := iter.Next();
      i := i + 1;
    }
    assert done + [] == done;
    ok := true;
  }

  lemma TagsHere(fields: seq<Field>)
    requires TagsNonZero(fields)
    ensures NonZeroTags(fields)
    ensures forall i :: 0 <= i < |fields| ==> AllTagsNonZero(fields[i])
  {
  }

  /** pb_get_encoded_size. */
  method GetEncodedSize(lay: Layout, fields: seq<Field>, m: seq<Slot>) returns (ok: bool, size: nat)
    requires TagsNonZero(fields)
    ensures ok == EncMessage(lay, fields, m).Some?
    ensures ok ==> size == |EncMessage(lay, fields, m).value|
  {
    hide EncMessage;
    var stream := new OStream.Sizing();
    ok := Encode(stream, lay, fields, m);
    size := stream.bytesWritten;
  }

  /** Encoding into a buffer of n bytes succeeds exactly when the sizing pass does with at most n. */
  method EncodeToBuffer(lay: Layout, fields: seq<Field>, m: seq<Slot>, buf: array<byte>) returns (ok: bool, written: nat)
    requires TagsNonZero(fields)
    modifies buf
    ensures var e := EncMessage(lay, fields, m);
      && (ok <==> e.Some? && |e.value| <= buf.Length)
      && (ok ==> written == |e.value| && buf[..written] == e.value)
  {
    hide EncMessage;
    var stream := new OStream.FromBuffer(buf, buf.Length);
    ok := Encode(stream, lay, fields, m);
    written := if ok then stream.bytesWritten else 0;
  }
}
