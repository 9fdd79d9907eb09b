/**
  pb_decode.c on an input stream. Every method returns what its specification in DecodeSpec
  gives for the bytes left in the stream, and leaves the stream where it says.
 */
module PbDecode {
  import opened Bits
  import opened Wire
  import opened Descriptors
  import opened DecodeSpec
  import opened PbCommon
  import opened FieldsSeen

  /** pb_istream_t over a memory buffer. */
  class IStream {
    const data: seq<byte>
    var state: nat       // where the next byte comes from
    var bytesLeft: nat

    ghost predicate Valid()
      reads this
    {
      state + bytesLeft <= |data|
    }

    /** The bytes left in the stream. */
    ghost function Rest(): (s: seq<byte>)
      requires Valid()
      reads this
      ensures |s| == bytesLeft
    {
      data[state..state + bytesLeft]
    }

    /** Bytes were only taken from the front. */
    twostate predicate Kept()
      reads this
    {
      old(Valid()) && Valid() && state + bytesLeft == old(state + bytesLeft)
    }

    /** pb_istream_from_buffer. */
    constructor FromBuffer(buf: seq<byte>)
      ensures Valid() && Rest() == buf
    {
      data := buf;
      state, bytesLeft := 0, |buf|;
    }

    constructor Copy(other: IStream)
      ensures data == other.data && state == other.state && bytesLeft == other.bytesLeft
    {
      data := other.data;
      state, bytesLeft := other.state, other.bytesLeft;
    }

    /** pb_readbyte. */
    method ReadByte() returns (ok: bool, b: byte)
      requires Valid()
      modifies this
      ensures Kept()
      ensures ok <==> old(Rest()) != []
      ensures ok ==> b == old(Rest())[0] && Rest() == old(Rest())[1..]
      ensures !ok ==> bytesLeft == 0
    {
      if bytesLeft == 0 {
        return false, 0;
      }
      b := data[state];
      state := state + 1;
      bytesLeft := bytesLeft - 1;
      ok := true;
    }

    /** pb_read; the bytes are not needed when they are skipped. */
    method ReadBytes(count: nat) returns (ok: bool, buf: seq<byte>)
      requires Valid()
      modifies this
      ensures Kept()
      ensures ok == Read(old(Rest()), count).Some?
      ensures ok ==> Some((buf, Rest())) == Read(old(Rest()), count)
      ensures ok ==> state == old(state) + count && bytesLeft == old(bytesLeft) - count
    {
      if bytesLeft < count {
        return false, [];
      }
      buf := data[state..state + count];
      assert buf == Rest()[..count] && Rest()[count..] == data[state + count..state + bytesLeft];
      state := state + count;
      bytesLeft := bytesLeft - count;
      ok := true;
    }
  }

  /** pb_decode_varint. */
  method DecodeVarint(stream: IStream) returns (ok: bool, dest: nat)
    requires stream.Valid()
    modifies stream
    ensures stream.Kept()
    ensures ok == DecVarint(old(stream.Rest())).Some?
    ensures ok ==> Some((dest, stream.Rest())) == DecVarint(old(stream.Rest()))
  {
    hide Or, Pow2;
    var bitpos: nat, result: nat := 0, 0;
    dest := 0;
    while true
      invariant stream.Kept()
      invariant DecVarint(old(stream.Rest())) == DecVarintFrom(stream.Rest(), bitpos, result)
      decreases stream.bytesLeft
    {
      if bitpos >= 64 {
        return false, 0;
      }
      var read, b := stream.ReadByte();
      if !read {
        return false, 0;
      }
      result := Or(result, b % 0x80 * Pow2(bitpos) % TWO_64);
      bitpos := bitpos + 7;
      if b < 0x80 {
        return true, result;
      }
    }
  }

  predicate Varint32Overflows(b: byte, bitpos: nat, acc: nat) {
    bitpos >= 32 && b % 0x80 != 0 && (acc / TWO_31 == 0 || b != (if bitpos < 63 then 0xFF else 0x01))
  }

  /** One turn of the loop. */
  lemma Varint32Turn(s: seq<byte>, bitpos: nat, acc: nat)
    requires s != []
    ensures DecVarint32From(s, bitpos, acc)
         == var acc' := if bitpos >= 32 then acc else Or(acc, s[0] % 0x80 * Pow2(bitpos) % TWO_32);
            if Varint32Overflows(s[0], bitpos, acc) then None
            else if s[0] >= 0x80 then DecVarint32From(s[1..], (bitpos + 7) % 0x100, acc')
            else if (bitpos + 7) % 0x100 == 35 && s[0] / 0x10 % 8 != 0 then None
            else Some((acc', s[1..]))
  {
    hide Or, Pow2;
  }

  /** pb_decode_varint32_eof. */
  method DecodeVarint32Eof(stream: IStream) returns (ok: bool, eof: bool, dest: nat)
    requires stream.Valid()
    modifies stream
    ensures stream.Kept()
    ensures ok == DecVarint32(old(stream.Rest())).Some?
    ensures ok ==> Some((dest, stream.Rest())) == DecVarint32(old(stream.Rest()))
    ensures eof <==> old(stream.Rest()) == []
    ensures eof ==> stream.bytesLeft == 0
  {
    hide Or, Pow2, DecVarint32From;
    eof, dest := false, 0;
    var read, b := stream.ReadByte();
    if !read {
      assert DecVarint32([]) == None;
      return false, true, 0;
    }
    if b < 0x80 {
      return true, false, b;
    }
    var bitpos: nat, result: nat := 7, b % 0x80;
    while true
      invariant stream.Kept()
      invariant DecVarint32(old(stream.Rest())) == DecVarint32From(stream.Rest(), bitpos, result)
      decreases stream.bytesLeft
    {
      ghost var rest := stream.Rest();
      read, b := stream.ReadByte();
      if !read {
        return false, false, 0;
      }
      Varint32Turn(rest, bitpos, result);
      if bitpos >= 32 {
        var signExtension := if bitpos < 63 then 0xFF else 0x01;
        if b % 0x80 != 0 && (result / TWO_31 == 0 || b != signExtension) {
          return false, false, 0;
        }
      } else {
        result := Or(result, b % 0x80 * Pow2(bitpos) % TWO_32);
      }
      bitpos := (bitpos + 7) % 0x100;
      if b < 0x80 {
        break;
      }
    }
    if bitpos == 35 && b / 0x10 % 8 != 0 {
      return false, false, 0;
    }
    ok, dest := true, result;
  }

  /** pb_skip_varint. */
  method SkipVarintField(stream: IStream) returns (ok: bool)
    requires stream.Valid()
    modifies stream
    ensures stream.Kept() && ok == SkipVarint(old(stream.Rest())).Some?
    ensures ok ==> Some(stream.Rest()) == SkipVarint(old(stream.Rest()))
  {
    while true
      invariant stream.Kept() && SkipVarint(old(stream.Rest())) == SkipVarint(stream.Rest())
      decreases stream.bytesLeft
    {
      var read, b := stream.ReadByte();
      if !read {
        return false;
      }
      if b < 0x80 {
        return true;
      }
    }
  }

  /** pb_skip_field. */
  method Skip(stream: IStream, wireType: nat) returns (ok: bool)
    requires stream.Valid()
    modifies stream
    ensures stream.Kept() && ok == SkipField(wireType, old(stream.Rest())).Some?
    ensures ok ==> Some(stream.Rest()) == SkipField(wireType, old(stream.Rest()))
  {
    hide SkipVarint, DecVarint32;
    var skipped;
    if wireType == WT_VARINT {
      ok := SkipVarintField(stream);
    } else if wireType == WT_64BIT {
      ok, skipped := stream.ReadBytes(8);
    } else if wireType == WT_STRING {
      ok, skipped := ReadString(stream);
    } else if wireType == WT_32BIT {
      ok, skipped := stream.ReadBytes(4);
    } else {
      ok := false;
    }
  }

  /** A length and that many bytes. */
  method ReadString(stream: IStream) returns (ok: bool, data: seq<byte>)
    requires stream.Valid()
    modifies stream
    ensures stream.Kept() && ok == DecString(old(stream.Rest())).Some?
    ensures ok ==> Some((data, stream.Rest())) == DecString(old(stream.Rest()))
  {
    hide DecVarint32;
    var eof, size;
    ok, eof, size := DecodeVarint32Eof(stream);
    if !ok {
      return false, [];
    }
    ok, data := stream.ReadBytes(size);
  }

  /** pb_make_string_substream. */
  method MakeSubstream(stream: IStream) returns (ok: bool, substream: IStream)
    requires stream.Valid()
    modifies stream
    ensures stream.Valid() && fresh(substream) && ok == DecString(old(stream.Rest())).Some?
    ensures !ok ==> stream.Kept()
    ensures ok ==> Nested(stream, substream)
    ensures ok ==> substream.state + substream.bytesLeft + stream.bytesLeft == old(stream.state + stream.bytesLeft)
    ensures ok ==> Some((substream.Rest(), After(stream, substream))) == DecString(old(stream.Rest()))
  {
    hide DecVarint32;
    var eof, size;
    ok, eof, size := DecodeVarint32Eof(stream);
    substream := new IStream.Copy(stream);
    if !ok || substream.bytesLeft < size {
      return false, substream;
    }
    ghost var rest := stream.Rest();
    substream.bytesLeft := size;
    stream.bytesLeft := stream.bytesLeft - size;
    assert substream.Rest() == rest[..size];
    assert After(stream, substream) == rest[size..];
  }

  /** A substream and, behind it, what is left of its parent. */
  ghost predicate Nested(stream: IStream, substream: IStream)
    reads stream, substream
  {
    && stream.Valid() && substream.Valid() && stream.data == substream.data
    && substream.state + substream.bytesLeft + stream.bytesLeft <= |stream.data|
  }

  ghost function After(stream: IStream, substream: IStream): seq<byte>
    requires Nested(stream, substream)
    reads stream, substream
  {
    stream.data[substream.state + substream.bytesLeft..substream.state + substream.bytesLeft + stream.bytesLeft]
  }

  /** pb_close_string_substream: what is left of the substream is skipped. */
  method CloseSubstream(stream: IStream, substream: IStream)
    requires Nested(stream, substream) && stream != substream
    modifies stream, substream
    ensures stream.Valid() && stream.Rest() == old(After(stream, substream))
    ensures stream.bytesLeft == old(stream.bytesLeft) && stream.state == old(substream.state + substream.bytesLeft)
  {
    if substream.bytesLeft != 0 {
      var _, _ := substream.ReadBytes(substream.bytesLeft);
    }
    stream.state := substream.state;
  }

  /** pb_dec_varint, pb_dec_uvarint, pb_dec_svarint, pb_dec_fixed32, pb_dec_fixed64. */
  method DecodeScalar(stream: IStream, f: Field) returns (ok: bool, v: Value)
    requires stream.Valid() && Packable(f.ltype)
    modifies stream
    ensures stream.Kept() && ok == DecScalar(f, old(stream.Rest())).Some?
    ensures ok ==> Some((v, stream.Rest())) == DecScalar(f, old(stream.Rest()))
  {
    hide DecVarintFrom, NarrowSigned, AsUnsigned, AsSigned, UnZigZag, FromLittleEndian;
    v := Int(0);
    if f.ltype.Fixed32? || f.ltype.Fixed64? {
      var bytes;
      ok, bytes := stream.ReadBytes(if f.ltype.Fixed32? then 4 else 8);
      if ok {
        v := Int(FromLittleEndian(bytes));
      }
      return;
    }
    var value;
    ok, value := DecodeVarint(stream);
    if !ok {
      return;
    }
    if f.ltype.Varint? {
      var narrowed := NarrowSigned(value, f.dataSize);
      if narrowed.None? {
        return false, v;
      }
      v := Int(narrowed.value);
    } else if f.ltype.UVarint? {
      if !(ValidIntSize(f.dataSize) && AsUnsigned(value, f.dataSize) == value) {
        return false, v;
      }
      v := Int(value);
    } else {
      var svalue := UnZigZag(value % TWO_64);
      if !(ValidIntSize(f.dataSize) && AsSigned(svalue, f.dataSize) == svalue) {
        return false, v;
      }
      v := Int(svalue);
    }
  }

  /** The packed loop of decode_static_field, lines 431 to 443, over the substream. */
  method DecodePacked(substream: IStream, f: Field, items: seq<Value>, count: nat)
      returns (ok: bool, filled: Filled)
    requires substream.Valid() && Packable(f.ltype)
    modifies substream
    ensures substream.Kept() && ok == DecPacked(f, items, count, old(substream.Rest())).Some?
    ensures ok ==> Some(filled) == DecPacked(f, items, count, old(substream.Rest()))
  {
    hide DecScalar, StoreItem;
    filled := Filled(items, count);
    while substream.bytesLeft > 0 && filled.count < f.arraySize
      invariant substream.Kept()
      invariant DecPacked(f, items, count, old(substream.Rest()))
             == DecPacked(f, filled.items, filled.count, substream.Rest())
      decreases substream.bytesLeft
    {
      var item;
      ok, item := DecodeScalar(substream, f);
      if !ok {
        return;
      }
      filled := Filled(StoreItem(filled.items, filled.count, item), filled.count + 1);
    }
    ok := substream.bytesLeft == 0;
  }

  /** Tables without extension placeholders; a zero tag is the terminator. */
  ghost predicate PlainTable(fields: seq<Field>)
    decreases fields, 1
  {
    NonZeroTags(fields) && forall i :: 0 <= i < |fields| ==> PlainField(fields[i])
  }

  ghost predicate PlainField(f: Field)
    decreases f, 0
  {
    !f.ltype.Extension? && (f.ptr.SubFields? ==> PlainTable(f.ptr.fields))
  }

  /** pb_decode_tag; a zero tag word counts as the end of the stream. */
  method DecodeTag(stream: IStream) returns (ok: bool, eof: bool, tag: nat, wireType: nat)
    requires stream.Valid()
    modifies stream
    ensures stream.Kept()
    ensures ok <==> DecTag(old(stream.Rest())).Tag?
    ensures ok ==> DecTag(old(stream.Rest())) == Tag(tag, wireType, stream.Rest())
    ensures !ok && eof ==> DecTag(old(stream.Rest())) == EndOfMessage(stream.Rest())
    ensures !ok && !eof ==> DecTag(old(stream.Rest())).BadTag?
  {
    hide DecVarint32;
    tag, wireType := 0, 0;
    var word;
    ok, eof, word := DecodeVarint32Eof(stream);
    if !ok {
      return;
    }
    if word == 0 {
      return false, true, 0, 0;
    }
    tag, wireType := word / 8, word % 8;
  }

  /** Dispatch over PB_DECODERS. */
  method DecodeValue(stream: IStream, f: Field, prev: Value) returns (ok: bool, v: Value)
    requires stream.Valid() && PlainField(f)
    modifies stream
    ensures stream.Kept() && (ok == DecValue(f, prev, old(stream.Rest())).Some?)
    ensures ok ==> Some((v, stream.Rest())) == DecValue(f, prev, old(stream.Rest()))
    decreases f, 1
  {
    hide DecScalar, DecString, DecMessage, StoreString;
    v := prev;
    if Packable(f.ltype) {
      ok, v := DecodeScalar(stream, f);
    } else if f.ltype.Submessage? {
      ok, v := DecodeSubmessage(stream, f, prev);
    } else {
      var data;
      ok, data := ReadString(stream);
      if !ok || StoreString(f, data).None? {
        return false, v;
      }
      v := StoreString(f, data).value;
    }
  }

  /** pb_dec_submessage. */
  method DecodeSubmessage(stream: IStream, f: Field, prev: Value) returns (ok: bool, v: Value)
    requires stream.Valid() && PlainField(f) && f.ltype.Submessage?
    modifies stream
    ensures stream.Kept() && (ok == DecValue(f, prev, old(stream.Rest())).Some?)
    ensures ok ==> Some((v, stream.Rest())) == DecValue(f, prev, old(stream.Rest()))
    decreases f, 0
  {
    hide DecString, DecMessage;
    v := prev;
    var substream;
    ok, substream := MakeSubstream(stream);
    if !ok {
      return false, v;
    }
    if !f.ptr.SubFields? || !prev.Message? {
      CloseSubstream(stream, substream);
      return false, v;
    }
    var m;
    ok, m := DecodeNoinit(substream, f.ptr.fields, prev.slots);
    CloseSubstream(stream, substream);
    v := Message(m);
  }

  /** The repeated case of decode_static_field. */
  method DecodeRepeated(stream: IStream, f: Field, wireType: nat, items: seq<Value>, count: nat)
      returns (ok: bool, filled: Filled)
    requires stream.Valid() && PlainField(f)
    modifies stream
    ensures stream.Kept() && (ok == DecRepeated(f, items, count, wireType, old(stream.Rest())).Some?)
    ensures ok ==> Some((filled, stream.Rest())) == DecRepeated(f, items, count, wireType, old(stream.Rest()))
    decreases f, 2
  {
    hide DecString, DecValue, DecPacked, StoreItem, FreshValue;
    filled := Filled(items, count);
    if wireType == WT_STRING && Packable(f.ltype) {
      var substream;
      ok, substream := MakeSubstream(stream);
      if !ok {
        return;
      }
      ok, filled := DecodePacked(substream, f, items, count);
      CloseSubstream(stream, substream);
    } else {
      if count >= f.arraySize {
        return false, filled;
      }
      var item;
      ok, item := DecodeValue(stream, f, FreshValue(f));
      filled := Filled(StoreItem(items, count, item), count + 1);
    }
  }

  /** decode_static_field on entry `i`; `fixedCount` is the counter of fixed-count arrays. */
  method DecodeField(stream: IStream, fields: seq<Field>, i: nat, wireType: nat, msg: seq<Slot>, fixedCount: nat,
                     ghost st: DecState)
      returns (ok: bool, msg': seq<Slot>, fixedCount': nat)
    requires stream.Valid() && i < |fields| == |msg| && PlainField(fields[i])
    requires st.msg == msg && st.fixedCount == fixedCount
    modifies stream
    ensures stream.Kept() && (ok == DecStatic(fields, i, wireType, st, old(stream.Rest())).Some?)
    ensures ok ==>
      var st' := st.(msg := msg', fixedCount := fixedCount');
      Some((st', stream.Rest())) == DecStatic(fields, i, wireType, st, old(stream.Rest()))
    decreases fields, 0
  {
    hide DecValue, DecRepeated, FreshValue, Leader;
    ok, msg', fixedCount' := false, msg, fixedCount;
    var f, at := fields[i], Leader(fields, i);
    var v, filled;
    match f.htype
    case Required =>
      if !msg[at].Single? {
        return;
      }
      ok, v := DecodeValue(stream, f, msg[at].value);
      msg' := msg[at := Single(v)];
    case Optional =>
      if f.sizeOffset != 0 {
        if !msg[at].Maybe? {
          return;
        }
        ok, v := DecodeValue(stream, f, msg[at].value);
        msg' := msg[at := Maybe(true, v)];
      } else {
        if !msg[at].Single? {
          return;
        }
        ok, v := DecodeValue(stream, f, msg[at].value);
        msg' := msg[at := Single(v)];
      }
    case Repeated =>
      if f.sizeOffset != 0 {
        if !msg[at].Counted? {
          return;
        }
        ok, filled := DecodeRepeated(stream, f, wireType, msg[at].items, |msg[at].items|);
        msg' := msg[at := Counted(filled.items)];
      } else {
        if !msg[at].FixedArray? {
          return;
        }
        ok, filled := DecodeRepeated(stream, f, wireType, msg[at].items, fixedCount);
        msg', fixedCount' := msg[at := FixedArray(filled.items)], filled.count;
      }
    case Oneof =>
      if !msg[at].Union? {
        return;
      }
      ok, v := DecodeValue(stream, f, FreshValue(f));
      msg' := msg[at := Union(f.tag, v)];
  }

  /** The local variables of pb_decode_noinit besides the cursor, with the destination. */
  datatype Locals = Locals(msg: seq<Slot>, fieldsSeen0: nat, fieldsSeen1: nat, fixedField: Option<nat>, fixedCount: nat)

  /** The locals and a cursor position stand for the state `st`. */
  ghost predicate Means(fields: seq<Field>, l: Locals, pos: nat, st: DecState) {
    && StateOk(fields, st)
    && st == DecState(l.msg, pos, st.seen, l.fixedField, l.fixedCount)
    && Holds(l.fieldsSeen0, l.fieldsSeen1, st.seen)
    && (forall k :: k in st.seen ==> k < RequiredBefore(fields, |fields|))
  }

  lemma {:induction false} RequiredMono(fields: seq<Field>, i: nat, j: nat)
    requires i <= j <= |fields|
    ensures RequiredBefore(fields, i) <= RequiredBefore(fields, j)
  {
    if i < j { RequiredMono(fields, i, j - 1); }
  }

  /** Lines 988 to 993: the bit of required field number `index`. */
  method NoteSeen(fields: seq<Field>, i: nat, index: nat, l: Locals, ghost st: DecState) returns (l': Locals)
    requires i < |fields| && index == RequiredBefore(fields, i) && Means(fields, l, st.pos, st)
    ensures Means(fields, l', st.pos, st.(seen := NoteRequired(fields, i, st.seen)))
    ensures l'.msg == l.msg && l'.fixedField == l.fixedField && l'.fixedCount == l.fixedCount
  {
    hide Or, Pow2, Holds;
    l' := l;
    if fields[i].htype.Required? && index < PB_MAX_REQUIRED_FIELDS {
      HoldsOneMore(l.fieldsSeen0, l.fieldsSeen1, st.seen, index);
      RequiredMono(fields, i + 1, |fields|);
      if index / 32 == 0 {
        l' := l.(fieldsSeen0 := Or(l.fieldsSeen0, Pow2(index % 32)));
      } else {
        l' := l.(fieldsSeen1 := Or(l.fieldsSeen1, Pow2(index % 32)));
      }
    }
  }

  /** Lines 964 to 996: a field that is in the table. */
  method DecodeKnown(stream: IStream, iter: FieldIter, wireType: nat, l: Locals, ghost st: DecState)
      returns (ok: bool, l': Locals, ghost st': DecState)
    requires stream.Valid() && iter.Valid() && iter.start != [] && PlainField(iter.start[iter.pos])
    requires Means(iter.start, l, st.pos, st)
    modifies stream
    ensures stream.Kept()
    ensures ok == DecKnown(iter.start, iter.pos, wireType, st, old(stream.Rest())).Some?
    ensures ok ==> Some((st', stream.Rest())) == DecKnown(iter.start, iter.pos, wireType, st, old(stream.Rest()))
    ensures ok ==> Means(iter.start, l', iter.pos, st')
    decreases iter.start, 1
  {
    hide DecStatic, NoteRequired, Holds, RequiredBefore;
    var fields, i := iter.start, iter.pos;
    ok, l', st' := false, l, st.(pos := i);
    if HasFixedCount(fields[i]) && l.fixedField != Some(i) {
      if l.fixedField.Some? && !(l.fixedField.value < |fields| && l.fixedCount == fields[l.fixedField.value].arraySize) {
        return;
      }
      l' := l.(fixedField := Some(i), fixedCount := 0);
      st' := st'.(fixedField := Some(i), fixedCount := 0);
    }
    assert EnterFixed(fields, i, st.(pos := i)) == Some(st');
    l' := NoteSeen(fields, i, iter.requiredFieldIndex, l', st');
    st' := st'.(seen := NoteRequired(fields, i, st'.seen));
    if !fields[i].atype.Static? {
      return;
    }
    var msg', fixedCount';
    ok, msg', fixedCount' := DecodeField(stream, fields, i, wireType, l'.msg, l'.fixedCount, st');
    l' := l'.(msg := msg', fixedCount := fixedCount');
    st' := st'.(msg := msg', fixedCount := fixedCount');
  }

  /** One turn of the loop, lines 921 to 998. */
  method DecodeStep(stream: IStream, iter: FieldIter, l: Locals, ghost st: DecState)
      returns (ok: bool, finished: bool, l': Locals, ghost st': DecState)
    requires stream.Valid() && iter.Valid() && PlainTable(iter.start) && Means(iter.start, l, iter.pos, st)
    modifies stream, iter
    ensures stream.Kept() && iter.Valid()
    ensures !ok <==> StepMessage(iter.start, st, old(stream.Rest())).Failed?
    ensures ok && finished ==>
      StepMessage(iter.start, st, old(stream.Rest())) == Finished(stream.Rest()) && l' == l && st' == st
    ensures ok && !finished ==> StepMessage(iter.start, st, old(stream.Rest())) == Next(st', stream.Rest())
    ensures ok ==> Means(iter.start, l', iter.pos, st')
    decreases iter.start, 2
  {
    hide DecTag, DecKnown, SkipField, Find, Holds, RequiredBefore;
    ok, finished, l', st' := false, false, l, st;
    var read, eof, tag, wireType := DecodeTag(stream);
    if !read {
      return eof, true, l, st;
    }
    var found := iter.FindTag(tag);
    if !found {
      ok := Skip(stream, wireType);
    } else if iter.start == [] {
      ok := false;
    } else {
      ok, l', st' := DecodeKnown(stream, iter, wireType, l, st);
    }
  }

  /** The number of required fields the final check covers, lines 1015 to 1025. */
  method CountRequired(iter: FieldIter) returns (count: nat)
    requires iter.Valid()
    modifies iter
    ensures iter.Valid()
    ensures count == if RequiredBefore(iter.start, |iter.start|) < PB_MAX_REQUIRED_FIELDS
                     then RequiredBefore(iter.start, |iter.start|) else PB_MAX_REQUIRED_FIELDS
  {
    var more, lastRequired := true, false;
    count := 0;
    while more
      invariant iter.Valid()
      invariant !more ==> iter.pos == 0
      invariant !more && iter.start != [] ==>
        && count == RequiredBefore(iter.start, |iter.start| - 1)
        && lastRequired == iter.start[|iter.start| - 1].htype.Required?
      invariant iter.start == [] ==> count == 0
      decreases if more then |iter.start| - iter.pos + 1 else 0
    {
      count := iter.requiredFieldIndex;
      lastRequired := iter.start == [] || iter.start[iter.pos].htype.Required?;
      more := iter.Next();
    }
    if lastRequired && iter.start != [] {
      count := count + 1;
    }
    if count > PB_MAX_REQUIRED_FIELDS {
      count := PB_MAX_REQUIRED_FIELDS;
    }
  }

  /** Lines 1001 to 1046: the checks after the loop. */
  method CheckComplete(iter: FieldIter, l: Locals, ghost st: DecState) returns (ok: bool)
    requires iter.Valid() && Means(iter.start, l, st.pos, st)
    modifies iter
    ensures ok <==> FixedComplete(iter.start, st) && RequiredSeen(iter.start, st.seen)
  {
    hide Holds, RequiredBefore, WordsComplete;
    if l.fixedField.Some? && !(l.fixedField.value < |iter.start| && l.fixedCount == iter.start[l.fixedField.value].arraySize) {
      return false;
    }
    var count := CountRequired(iter);
    SeenBelow(l, st);
    WordsAreSets(l.fieldsSeen0, l.fieldsSeen1, st.seen, count);
    ok := WordsComplete(l.fieldsSeen0, l.fieldsSeen1, count);
  }

  lemma SeenBelow(l: Locals, st: DecState)
    requires Holds(l.fieldsSeen0, l.fieldsSeen1, st.seen)
    ensures forall k :: k in st.seen ==> k < 64
  {
  }

  /** pb_decode_noinit. */
  method DecodeNoinit(stream: IStream, fields: seq<Field>, m: seq<Slot>) returns (ok: bool, m': seq<Slot>)
    requires stream.Valid() && PlainTable(fields)
    modifies stream
    ensures stream.Kept() && (ok == DecMessage(fields, m, old(stream.Rest())).Some?)
    ensures ok ==> Some((m', stream.Rest())) == DecMessage(fields, m, old(stream.Rest()))
    decreases fields, 3
  {
    hide StepMessage, Holds, RequiredSeen, RequiredBefore;
    m' := m;
    if |m| != |fields| {
      return false, m;
    }
    var iter := new FieldIter(fields, 0);
    var l := Locals(m, 0, 0, None, 0);
    ghost var st := StartState(m);
    HoldsNothing();
    var finished := false;
    while stream.bytesLeft > 0 && !finished
      invariant stream.Kept() && fresh(iter) && iter.Valid() && iter.start == fields
      invariant Means(fields, l, iter.pos, st)
      invariant finished ==> DecLoop(fields, StartState(m), old(stream.Rest())) == Some((st, stream.Rest()))
      invariant !finished ==> DecLoop(fields, StartState(m), old(stream.Rest())) == DecLoop(fields, st, stream.Rest())
      decreases !finished, stream.bytesLeft
    {
      ok, finished, l, st := DecodeStep(stream, iter, l, st);
      if !ok {
        return;
      }
    }
    if !finished { LoopAtEnd(fields, st, stream.Rest()); }
    ok := CheckComplete(iter, l, st);
    m' := l.msg;
  }

  lemma LoopAtEnd(fields: seq<Field>, st: DecState, s: seq<byte>)
    requires StateOk(fields, st) && s == []
    ensures DecLoop(fields, st, s) == Some((st, s))
  {
  }

  /** pb_decode, from a buffer. */
  method Decode(stream: IStream, fields: seq<Field>) returns (ok: bool, m: seq<Slot>)
    requires stream.Valid() && PlainTable(fields)
    modifies stream
    ensures stream.Kept() && ok == DecodeSpec.Decode(fields, old(stream.Rest())).Some?
    ensures ok ==> Some((m, stream.Rest())) == DecodeSpec.Decode(fields, old(stream.Rest()))
  {
    hide DecMessage, DefaultMessage;
    m := SetToDefaults(fields);
    ok, m := DecodeNoinit(stream, fields, m);
  }

  /** pb_message_set_to_defaults. */
  method SetToDefaults(fields: seq<Field>) returns (m: seq<Slot>)
    requires NonZeroTags(fields)
    ensures m == DefaultMessage(fields)
  {
    hide DefaultSlot;
    m := [];
    var iter := new FieldIter(fields, 0);
    var more := iter.Begin();
    while more
      invariant iter.Valid() && iter.start == fields && fresh(iter)
      invariant if more then iter.pos == |m| < |fields| else |m| == |fields|
      invariant forall k :: 0 <= k < |m| ==> m[k] == DefaultSlot(fields, k)
      decreases |fields| - |m|
    {
      m := m + [DefaultSlot(fields, iter.pos)];
      more := iter.Next();
    }
  }
}
