/**
  pb_common.c: the cursor over a field table. The table's terminator is the end of the
  sequence, so the entries themselves have non-zero tags.
 */
module PbCommon {
  import opened Bits
  import opened Descriptors
  import opened DecodeSpec

  predicate NonZeroTags(fields: seq<Field>) {
    forall i :: 0 <= i < |fields| ==> fields[i].tag != 0
  }

  /** Members of one union have one address. */
  lemma {:induction false} UnionAddress(fields: seq<Field>, dest: int, i: nat)
    requires i < |fields|
    ensures DataAt(fields, dest, i) == DataAt(fields, dest, Leader(fields, i))
    ensures SizeAt(fields, dest, i) == SizeAt(fields, dest, Leader(fields, i))
  {
    if ContinuesUnion(fields, i) { UnionAddress(fields, dest, i - 1); }
  }

  /** pb_field_iter_t. */
  class FieldIter {
    const start: seq<Field>
    const destStruct: int
    var pos: nat
    var requiredFieldIndex: nat
    var pData: int
    var pSize: int

    /** Everything but pos is determined by pos. */
    ghost predicate Valid()
      reads this
    {
      && NonZeroTags(start)
      && (if start == [] then pos == 0 && requiredFieldIndex == 0
          else
            && pos < |start|
            && requiredFieldIndex == RequiredBefore(start, pos)
            && pData == DataAt(start, destStruct, pos)
            && pSize == SizeAt(start, destStruct, pos))
    }

    constructor (fields: seq<Field>, dest: int)
      requires NonZeroTags(fields)
      ensures Valid() && start == fields && destStruct == dest && pos == 0
    {
      start, destStruct := fields, dest;
      pos, requiredFieldIndex := 0, 0;
      pData := dest + (if fields == [] then 0 else fields[0].dataOffset);
      pSize := dest + (if fields == [] then 0 else fields[0].dataOffset + fields[0].sizeOffset);
    }

    /** pb_field_iter_begin; false when the message type is empty. */
    method Begin() returns (nonEmpty: bool)
      requires NonZeroTags(start)
      modifies this
      ensures Valid() && pos == 0
      ensures nonEmpty <==> start != []
    {
      pos := 0;
      requiredFieldIndex := 0;
      pData := destStruct + (if start == [] then 0 else start[0].dataOffset);
      pSize := pData + (if start == [] then 0 else start[0].sizeOffset);
      nonEmpty := start != [];
    }

    /** pb_field_iter_next; false when the cursor wraps back to the first field. */
    method Next() returns (more: bool)
      requires Valid()
      modifies this
      ensures Valid()
      ensures more <==> start != [] && old(pos) + 1 < |start|
      ensures pos == if more then old(pos) + 1 else 0
    {
      if start == [] {
        return false;
      }
      var prev := start[pos];
      pos := pos + 1;
      if pos == |start| {
        var _ := Begin();
        more := false;
      } else {
        var prevSize: nat := prev.dataSize;
        if prev.htype.Oneof? && start[pos].htype.Oneof? && start[pos].dataOffset == PB_SIZE_MAX {
          return true;
        } else if prev.atype.Static? && prev.htype.Repeated? {
          prevSize := prevSize * prev.arraySize;
        } else if prev.atype.Pointer? {
          prevSize := POINTER_SIZE;
        }
        if prev.htype.Required? {
          requiredFieldIndex := requiredFieldIndex + 1;
        }
        pData := pData + prevSize + start[pos].dataOffset;
        pSize := pData + start[pos].sizeOffset;
        more := true;
      }
    }

    /**
      pb_field_iter_find: the search of DecodeSpec.Find, from the current position around the
      table. The terminator of an empty table matches the tag zero.
     */
    method FindTag(tag: nat) returns (found: bool)
      requires Valid()
      modifies this
      ensures Valid()
      ensures start == [] ==> (found <==> tag == 0)
      ensures start != [] ==>
        var r := Find(start, old(pos), tag);
        found == r.Some? && pos == (if found then r.value else old(pos))
    {
      if start == [] {
        return tag == 0;
      }
      var first := pos;
      ghost var left := |start|;
      while true
        invariant Valid() && first < |start| && 0 < left <= |start|
        invariant pos == if first + (|start| - left) < |start| then first + (|start| - left) else first - left
        invariant Find(start, first, tag) == FindFrom(start, pos, tag, left)
        decreases left
      {
        if start[pos].tag == tag && !start[pos].ltype.Extension? {
          return true;
        }
        var _ := Next();
        left := left - 1;
        if pos == first {
          return false;
        }
      }
    }
  }

  lemma {:induction false} FindFromReaches(fields: seq<Field>, p: nat, tag: nat, left: nat, i: nat)
    requires p < |fields| && i < |fields| && left <= |fields|
    requires fields[i].tag == tag && !fields[i].ltype.Extension?
    requires (if p <= i then i - p else i + |fields| - p) < left
    ensures FindFrom(fields, p, tag, left).Some?
    decreases left
  {
    if p != i && !(fields[p].tag == tag && !fields[p].ltype.Extension?) {
      FindFromReaches(fields, if p + 1 < |fields| then p + 1 else 0, tag, left - 1, i);
    }
  }

  /** The search finds a tag from any position exactly when the table has a field with it. */
  lemma FindComplete(fields: seq<Field>, pos: nat, tag: nat)
    requires pos < |fields|
    ensures Find(fields, pos, tag).Some?
       <==> exists i :: 0 <= i < |fields| && fields[i].tag == tag && !fields[i].ltype.Extension?
  {
    forall i | 0 <= i < |fields| && fields[i].tag == tag && !fields[i].ltype.Extension?
      ensures Find(fields, pos, tag).Some?
    {
      FindFromReaches(fields, pos, tag, |fields|, i);
    }
  }
}
