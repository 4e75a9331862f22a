/**
  The field iterator of pb_common.c: a cursor into a descriptor table that drags the
  addresses of the current field's data and count along, and wraps at the end.
 */
module PbIter {
  import opened PbMessage
  import opened PbParse

  /** Bytes the field before takes up in the struct. */
  function PrevSize(f: Field): nat {
    if f.rule.Repeated? then f.dataSize * f.rule.max else f.dataSize
  }

  /** The address of field i in a struct at base. */
  function DataAddr(fs: seq<Field>, base: int, i: nat): int
    requires i < |fs|
  {
    if i == 0 then base + fs[0].dataOffset
    else if Joined(fs, i) then DataAddr(fs, base, i - 1)
    else DataAddr(fs, base, i - 1) + PrevSize(fs[i - 1]) + fs[i].dataOffset
  }

  /** The address of the count, has_ or which_ member of field i. */
  function SizeAddr(fs: seq<Field>, base: int, i: nat): int
    requires i < |fs|
  {
    if Joined(fs, i) then SizeAddr(fs, base, i - 1) else DataAddr(fs, base, i) + fs[i].sizeOffset
  }

  /** Two positions of one storage cell have one address. */
  lemma {:induction false} SameCellSameAddress(fs: seq<Field>, base: int, i: nat, j: nat)
    requires i <= j < |fs| && CellIndex(fs, i) == CellIndex(fs, j)
    ensures DataAddr(fs, base, i) == DataAddr(fs, base, j) && SizeAddr(fs, base, i) == SizeAddr(fs, base, j)
    decreases j
  {
    if i < j {
      CellIndexMonotone(fs, i, j - 1);
      SameCellSameAddress(fs, base, i, j - 1);
    }
  }

  lemma {:induction false} CellIndexMonotone(fs: seq<Field>, i: nat, j: nat)
    requires i <= j < |fs|
    ensures CellIndex(fs, i) <= CellIndex(fs, j)
    decreases j
  {
    if i < j { CellIndexMonotone(fs, i, j - 1); }
  }

  /** Fields of different cells do not overlap, a union being as long as its last arm. */
  lemma {:induction false} CellsInOrder(fs: seq<Field>, base: int, i: nat, j: nat)
    requires i < j < |fs| && CellIndex(fs, i) < CellIndex(fs, j)
    requires i + 1 < |fs| ==> !Joined(fs, i + 1)
    ensures DataAddr(fs, base, i) + PrevSize(fs[i]) <= DataAddr(fs, base, j)
    decreases j
  {
    if i < j - 1 {
      CellIndexMonotone(fs, i + 1, j - 1);
      assert CellIndex(fs, i + 1) == CellIndex(fs, i) + 1;
      CellsInOrder(fs, base, i, j - 1);
    }
  }

  class FieldIter {
    const start: seq<Field>
    const destStruct: int
    var pos: nat
    var requiredFieldIndex: nat
    var pData: int
    var pSize: int

    /** The pointers are a function of the position. An empty table leaves the
        position on its terminator. */
    ghost predicate Valid()
      reads this
    {
      if start == [] then pos == 0 && requiredFieldIndex == 0
      else
        && pos < |start|
        && requiredFieldIndex == RequiredIndex(start, pos)
        && pData == DataAddr(start, destStruct, pos)
        && pSize == SizeAddr(start, destStruct, pos)
    }

    /** pb_field_iter_begin; the table ends in a terminator whose offsets are zero. */
    constructor (fields: seq<Field>, dest: int)
      ensures Valid() && start == fields && destStruct == dest && pos == 0
    {
      start := fields;
      destStruct := dest;
      pos := 0;
      requiredFieldIndex := 0;
      var data := dest + (if fields == [] then 0 else fields[0].dataOffset);
      pData := data;
      pSize := data + (if fields == [] then 0 else fields[0].sizeOffset);
    }

    method Restart()
      modifies this
      ensures Valid() && pos == 0
    {
      pos := 0;
      requiredFieldIndex := 0;
      pData := destStruct + (if start == [] then 0 else start[0].dataOffset);
      pSize := pData + (if start == [] then 0 else start[0].sizeOffset);
    }

    /** pb_field_iter_next. */
    method Next() returns (more: bool)
      requires Valid()
      modifies this
      ensures Valid()
      ensures more <==> old(pos) + 1 < |start|
      ensures pos == if old(pos) + 1 < |start| then old(pos) + 1 else 0
    {
      if start == [] { return false; }
      var prev := start[pos];
      pos := pos + 1;
      if pos == |start| {
        Restart();
        return false;
      }
      var prevSize := prev.dataSize;
      if prev.rule.OneOf? && start[pos].rule.OneOf? && start[pos].dataOffset == SIZE_MAX {
        return true;
      } else if prev.rule.Repeated? {
        prevSize := prevSize * prev.rule.max;
      }
      if prev.rule.Required? { requiredFieldIndex := requiredFieldIndex + 1; }
      pData := pData + prevSize + start[pos].dataOffset;
      pSize := pData + start[pos].sizeOffset;
      return true;
    }

    /** The tag at the position; that of the terminator is 0. */
    function Tag(): nat
      reads this
      requires Valid()
    {
      if start == [] then 0 else start[pos].tag
    }

    /** pb_field_iter_find: once around from wherever the iterator stands. */
    method FindTag(tag: nat) returns (found: bool)
      requires Valid()
      modifies this
      ensures Valid()
      ensures found ==> Tag() == tag
      ensures !found ==> pos == old(pos) && Tag() != tag && forall i :: 0 <= i < |start| ==> start[i].tag != tag
    {
      var first := pos;
      ghost var wrapped := false;
      while true
        invariant Valid()
        invariant if wrapped then pos < first else first <= pos
        invariant forall i :: 0 <= i < |start| && Visited(i, first, wrapped) ==> start[i].tag != tag
        decreases if wrapped then first - pos else first + |start| - pos
      {
        if Tag() == tag { return true; }
        var more := Next();
        if !more { wrapped := true; }
        if pos == first { return false; }
      }
    }

    /** The search that started at first has passed position i. */
    ghost predicate Visited(i: int, first: nat, wrapped: bool)
      reads this
    {
      if wrapped then i < pos || first <= i else first <= i < pos
    }
  }
}
