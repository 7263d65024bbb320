// The field iterator of pb_common.c, which walks a descriptor and the struct it describes in step.
module PbIterator {
  import opened Results
  import opened PbDescriptor
  import opened PbDecodeSpec

  // Bytes that the field occupies in the struct.
  function Extent(f: Field): nat {
    if f.htype.Repeated? then f.dataSize * f.arraySize else f.dataSize
  }

  // Offset of the field at k from the start of the struct.
  function DataAt(fs: seq<Field>, k: nat): nat
    requires k < |fs|
  {
    if k == 0 then fs[0].dataOffset
    else if Continues(fs, k) then DataAt(fs, k - 1)
    else DataAt(fs, k - 1) + Extent(fs[k - 1]) + fs[k].dataOffset
  }

  // Offset of its has_ flag, count or which_ tag.
  function SizeAt(fs: seq<Field>, k: nat): int
    requires k < |fs|
  {
    DataAt(fs, Owner(fs, k)) + fs[Owner(fs, k)].sizeOffset
  }

  // The members of a oneof share one address, and their which_ tag if it is declared once.
  lemma {:induction false} UnionShared(fs: seq<Field>, k: nat)
    requires k < |fs|
    ensures DataAt(fs, k) == DataAt(fs, Owner(fs, k))
    ensures OneTag(fs) ==> SizeAt(fs, k) == DataAt(fs, k) + fs[k].sizeOffset
  {
    if Continues(fs, k) {
      UnionShared(fs, k - 1);
    }
  }

  // The field at k stands at at[k], and its offset is as the descriptor macros write it: from the end
  // of the field before, and for a further member of a union not at all.
  predicate LaidAt(fs: seq<Field>, at: seq<nat>, k: nat)
    requires |at| == |fs| && k < |fs|
  {
    if k == 0 then at[0] == fs[0].dataOffset
    else if fs[k - 1].htype.Oneof? && fs[k].htype.Oneof? && fs[k].dataOffset == 0xFFFF_FFFF then at[k] == at[k - 1]
    else
      var size := if fs[k - 1].htype.Repeated? then fs[k - 1].dataSize * fs[k - 1].arraySize else fs[k - 1].dataSize;
      at[k] == at[k - 1] + size + fs[k].dataOffset
  }

  // The iterator finds every field where it stands.
  lemma {:induction false} LayoutFound(fs: seq<Field>, at: seq<nat>, k: nat)
    requires |at| == |fs| && k < |fs| && forall j: nat | j < |fs| :: LaidAt(fs, at, j)
    ensures DataAt(fs, k) == at[k]
    ensures !Continues(fs, k) ==> SizeAt(fs, k) == at[k] + fs[k].sizeOffset
  {
    assert LaidAt(fs, at, k);
    if k > 0 {
      LayoutFound(fs, at, k - 1);
    }
    if !Continues(fs, k) {
      assert Owner(fs, k) == k;
    }
  }

  // A field outside the union that follows it begins after it ends.
  lemma {:induction false} FieldsDisjoint(fs: seq<Field>, j: nat, k: nat)
    requires j < k < |fs| && !Continues(fs, j + 1)
    ensures DataAt(fs, j) + Extent(fs[j]) <= DataAt(fs, k)
  {
    if k > j + 1 {
      FieldsDisjoint(fs, j, k - 1);
    }
  }

  // The position where a search for tag that starts at pos ends: the first match in cyclic
  // order, or pos again.
  ghost predicate FirstMatch(fs: seq<Field>, pos: nat, tag: nat, r: nat)
  {
    && r < |fs| && fs[r].tag == tag
    && (pos <= r ==> forall j | pos <= j < r :: fs[j].tag != tag)
    && (r < pos ==> (forall j | pos <= j < |fs| :: fs[j].tag != tag) && forall j | 0 <= j < r :: fs[j].tag != tag)
  }

  class FieldIter {
    const start: seq<Field>
    const dest: nat
    var pos: nat
    var requiredIndex: nat
    var pData: int
    var pSize: int

    // Every field of the iterator is a function of its position alone.
    ghost predicate Valid()
      reads this
    {
      if start == [] then pos == 0 && requiredIndex == 0 && pData == dest && pSize == dest
      else
        && pos < |start|
        && requiredIndex == RequiredBefore(start, pos)
        && pData == dest + DataAt(start, pos)
        && pSize == dest + SizeAt(start, pos)
    }

    // The tag under the iterator; the terminator of an empty descriptor has tag 0.
    function Tag(): nat
      reads this
    {
      if pos < |start| then start[pos].tag else 0
    }

    constructor (fields: seq<Field>, base: nat)
      ensures start == fields && dest == base && pos == 0 && Valid()
    {
      start, dest, pos := fields, base, 0;
      requiredIndex, pData, pSize := 0, base, base;
      if fields != [] {
        pData, pSize := base + fields[0].dataOffset, base + fields[0].dataOffset + fields[0].sizeOffset;
      }
    }

    // pb_field_iter_begin.
    method Begin() returns (ok: bool)
      modifies this
      ensures Valid() && pos == 0
      ensures ok <==> start != []
    {
      pos, requiredIndex := 0, 0;
      pData := dest + if start == [] then 0 else start[0].dataOffset;
      pSize := pData + if start == [] then 0 else start[0].sizeOffset;
      ok := start != [];
    }

    // pb_field_iter_next.
    method Next() returns (ok: bool)
      requires Valid()
      modifies this
      ensures Valid()
      ensures ok <==> old(pos) + 1 < |start|
      ensures pos == if old(pos) + 1 < |start| then old(pos) + 1 else 0
    {
      if start == [] {
        return false;
      }
      var prev := start[pos];
      pos := pos + 1;
      if pos == |start| {
        var _ := Begin();
        return false;
      }
      var prevSize := prev.dataSize;
      if prev.htype.Oneof? && start[pos].htype.Oneof? && start[pos].dataOffset == PB_SIZE_MAX {
        return true;
      } else if prev.htype.Repeated? {
        prevSize := prevSize * prev.arraySize;
      }
      if prev.htype.Required? {
        requiredIndex := requiredIndex + 1;
      }
      pData := pData + prevSize + start[pos].dataOffset;
      pSize := pData + start[pos].sizeOffset;
      return true;
    }

    // pb_field_iter_find. A do-while loop: the test at its end is the test of the next turn.
    method Find(tag: nat) returns (found: bool)
      requires Valid()
      modifies this
      ensures Valid()
      ensures found <==> (start == [] && tag == 0) || FindField(start, tag).Some?
      ensures found && start != [] ==> FirstMatch(start, old(pos), tag, pos)
      ensures !found ==> pos == old(pos)
    {
      var from := pos;
      var more := true;
      ghost var wrapped := false;
      while more
        invariant Valid()
        invariant from == old(pos) && (start != [] ==> from < |start|)
        invariant start != [] && !wrapped ==> from <= pos && forall j | from <= j < pos :: start[j].tag != tag
        invariant wrapped && more ==> pos < from
        invariant start != [] && wrapped ==>
                    && pos <= from && (forall j | from <= j < |start| :: start[j].tag != tag)
                    && forall j | 0 <= j < pos :: start[j].tag != tag
        invariant !more ==> pos == from && (start == [] ==> tag != 0) && (start != [] ==> wrapped)
        decreases more, !wrapped, |start| - pos
      {
        if Tag() == tag {
          return true;
        }
        var _ := Next();
        wrapped := wrapped || pos == 0;
        more := pos != from;
      }
      return false;
    }
  }

  // Where tags are distinct a search always ends at the one field with the tag.
  lemma MatchUnique(fs: seq<Field>, pos: nat, tag: nat, r: nat)
    requires DistinctTags(fs) && FirstMatch(fs, pos, tag, r)
    ensures FindField(fs, tag) == Some(r)
  {
  }
}
