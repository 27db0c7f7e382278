/**
 The field cursor: it walks a descriptor cyclically, keeping addresses and a count of required fields
 by increments. All three turn out to be functions of its position.
 */
module PbIter {
  import opened Prelude
  import opened PbWire
  import opened PbModel

  /** Where a field is stored, relative to the one before it. */
  datatype Layout = Layout(dataOffset: int, sizeOffset: int, dataSize: nat)

  /** The tag at a position; the terminator behind the last entry has tag 0. */
  function TagAt(fs: seq<Field>, pos: nat): nat {
    if pos < |fs| then fs[pos].tag else 0
  }

  function LayoutAt(ls: seq<Layout>, pos: nat): Layout {
    if pos < |ls| then ls[pos] else Layout(0, 0, 0)
  }

  /** Entry `i` shares the union that entry `i - 1` is stored in. */
  predicate InUnion(fs: seq<Field>, ls: seq<Layout>, i: nat)
    requires 0 < i < |fs| == |ls|
  {
    fs[i - 1].htype.Oneof? && fs[i].htype.Oneof? && ls[i].dataOffset == PB_SIZE_MAX
  }

  function SpanOf(f: Field, l: Layout): nat {
    if f.htype.Repeated? then l.dataSize * f.htype.arraySize else l.dataSize
  }

  /** The address of field `i` in the structure at `base`. */
  function DataAt(fs: seq<Field>, ls: seq<Layout>, base: int, i: nat): int
    requires |fs| == |ls| && (i < |fs| || i == 0)
  {
    if i == 0 then base + LayoutAt(ls, 0).dataOffset
    else if InUnion(fs, ls, i) then DataAt(fs, ls, base, i - 1)
    else DataAt(fs, ls, base, i - 1) + SpanOf(fs[i - 1], ls[i - 1]) + ls[i].dataOffset
  }

  /** The address of the count, flag or union tag of field `i`: all members of a union share it. */
  function SizeAt(fs: seq<Field>, ls: seq<Layout>, base: int, i: nat): int
    requires |fs| == |ls| && (i < |fs| || i == 0)
  {
    if i > 0 && InUnion(fs, ls, i) then SizeAt(fs, ls, base, i - 1)
    else DataAt(fs, ls, base, i) + LayoutAt(ls, i).sizeOffset
  }

  /**
   Where the compiler has put the data of each field in the structure, and its count, flag or union tag. The descriptor
   gives the first place as it is and every other from the end of the field before; the members of a union are at one
   place, which the descriptor does not repeat.
   */
  predicate Placed(fs: seq<Field>, ls: seq<Layout>, at: seq<int>, count: seq<int>)
    requires |fs| == |ls|
  {
    && |at| == |count| == |fs|
    && forall i :: 0 <= i < |fs| ==> PlacedAt(fs, ls, at, count, i)
  }

  predicate PlacedAt(fs: seq<Field>, ls: seq<Layout>, at: seq<int>, count: seq<int>, i: nat)
    requires |at| == |count| == |fs| == |ls| && i < |fs|
  {
    if i > 0 && fs[i].htype.Oneof? && fs[i - 1].htype.Oneof? && ls[i].dataOffset == 0xFFFF_FFFF
    then at[i] == at[i - 1] && count[i] == count[i - 1]
    else ls[i].dataOffset == at[i] - EndBefore(fs, ls, at, i) && ls[i].sizeOffset == count[i] - at[i]
  }

  function EndBefore(fs: seq<Field>, ls: seq<Layout>, at: seq<int>, i: nat): int
    requires |at| == |fs| == |ls| && i < |fs|
  {
    if i == 0 then 0 else at[i - 1] + Occupied(fs[i - 1], ls[i - 1])
  }

  /** An array has all its items in place. */
  function Occupied(f: Field, l: Layout): nat {
    match f.htype case Repeated(n) => l.dataSize * n case _ => l.dataSize
  }

  lemma SpanIs(f: Field, l: Layout)
    ensures SpanOf(f, l) == Occupied(f, l)
  {
  }

  /** The cursor, which only adds, points at exactly those places. */
  lemma {:induction false} PointsAtFields(fs: seq<Field>, ls: seq<Layout>, at: seq<int>, count: seq<int>, base: int, i: nat)
    requires |fs| == |ls| && Placed(fs, ls, at, count) && i < |fs|
    ensures DataAt(fs, ls, base, i) == base + at[i] && SizeAt(fs, ls, base, i) == base + count[i]
  {
    hide SpanOf, Occupied;
    assert PlacedAt(fs, ls, at, count, i);
    if i > 0 {
      PointsAtFields(fs, ls, at, count, base, i - 1);
      SpanIs(fs[i - 1], ls[i - 1]);
    }
  }

  /** The number of steps forward from `from` to `to` around the cycle. */
  function Ahead(n: nat, from: nat, to: nat): (d: nat)
    requires from < n && to < n
    ensures d < n
  {
    if from <= to then to - from else to + n - from
  }

  class FieldIter {
    const fs: seq<Field>
    const ls: seq<Layout>
    const base: int
    var pos: nat
    var requiredIndex: nat
    var pData: int
    var pSize: int

    /** The whole cursor is determined by its position. */
    ghost predicate Valid()
      reads this
    {
      && |ls| == |fs|
      && (pos < |fs| || pos == |fs| == 0)
      && requiredIndex == RequiredBefore(fs, pos)
      && pData == DataAt(fs, ls, base, pos)
      && pSize == SizeAt(fs, ls, base, pos)
    }

    constructor (fs: seq<Field>, ls: seq<Layout>, base: int)
      requires |ls| == |fs|
      ensures Valid() && pos == 0
      ensures this.fs == fs && this.ls == ls && this.base == base
    {
      this.fs, this.ls, this.base := fs, ls, base;
      pos, requiredIndex := 0, 0;
      pData := base + LayoutAt(ls, 0).dataOffset;
      pSize := base + LayoutAt(ls, 0).dataOffset + LayoutAt(ls, 0).sizeOffset;
    }

    method Begin() returns (more: bool)
      requires |ls| == |fs|
      modifies this
      ensures Valid() && pos == 0
      ensures more <==> TagAt(fs, 0) != 0
    {
      pos, requiredIndex := 0, 0;
      pData := base + LayoutAt(ls, 0).dataOffset;
      pSize := pData + LayoutAt(ls, 0).sizeOffset;
      return TagAt(fs, 0) != 0;
    }

    /** One step around the cycle; false when it wraps (or when the descriptor is empty). */
    method Next() returns (more: bool)
      requires Valid() && forall i :: 0 <= i < |fs| ==> fs[i].tag != 0
      modifies this
      ensures Valid()
      ensures more <==> old(pos) + 1 < |fs|
      ensures pos == if old(pos) + 1 < |fs| then old(pos) + 1 else 0
    {
      var prev := pos;
      if TagAt(fs, prev) == 0 {
        return false;
      }
      pos := pos + 1;
      if TagAt(fs, pos) == 0 {
        var _ := Begin();
        return false;
      }
      if fs[prev].htype.Oneof? && fs[pos].htype.Oneof? && ls[pos].dataOffset == PB_SIZE_MAX {
        return true;
      }
      var prevSize := ls[prev].dataSize;
      if fs[prev].htype.Repeated? {
        prevSize := prevSize * fs[prev].htype.arraySize;
      }
      if fs[prev].htype.Required? {
        requiredIndex := requiredIndex + 1;
      }
      pData := pData + prevSize + ls[pos].dataOffset;
      pSize := pData + ls[pos].sizeOffset;
      return true;
    }

    /**
     The next entry with the tag, at or after the present position around the cycle. The search ends, and
     it fails exactly when no entry has the tag, leaving the cursor where it was. (The terminator of an
     empty descriptor has tag 0.)
     */
    method Find(tag: nat) returns (found: bool)
      requires Valid() && forall i :: 0 <= i < |fs| ==> fs[i].tag != 0
      modifies this
      ensures Valid()
      ensures found <==> (exists i :: 0 <= i < |fs| && fs[i].tag == tag) || (fs == [] && tag == 0)
      ensures found ==> TagAt(fs, pos) == tag
      ensures found && fs != [] ==>
                forall i :: 0 <= i < |fs| && Ahead(|fs|, old(pos), i) < Ahead(|fs|, old(pos), pos) ==> fs[i].tag != tag
      ensures !found ==> pos == old(pos)
    {
      var start := pos;
      if TagAt(fs, pos) == tag {
        return true;
      }
      var _ := Next();
      while pos != start
        invariant Valid()
        invariant fs != [] ==> start < |fs|
        invariant pos != start ==> forall i :: 0 <= i < |fs| && Ahead(|fs|, start, i) < Ahead(|fs|, start, pos) ==> fs[i].tag != tag
        invariant pos == start ==> forall i :: 0 <= i < |fs| ==> fs[i].tag != tag
        invariant pos == start && fs == [] ==> tag != 0
        decreases if pos == start then 0 else |fs| - Ahead(|fs|, start, pos)
      {
        if TagAt(fs, pos) == tag {
          return true;
        }
        var _ := Next();
      }
      return false;
    }
  }
}
