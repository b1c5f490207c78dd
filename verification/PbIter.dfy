/** The cyclic field iterator of pb_common.c. */
module PbIter {
  import opened PbTypes

  const POINTER_SIZE: int := 4

  /** The entry that ends every descriptor. */
  const TERMINATOR: Field := Field(0, IntT, Required, Static, 0, 0, 0, 0, None)

  function Entry(fields: seq<Field>, pos: nat): Field {
    if pos < |fields| then fields[pos] else TERMINATOR
  }

  /** The bytes of `n` items one after the other. */
  function ArrayBytes(size: int, n: nat): int {
    if n == 0 then 0 else ArrayBytes(size, n - 1) + size
  }

  lemma {:induction false} ArrayBytesIsProduct(size: int, n: nat)
    ensures ArrayBytes(size, n) == size * n
  {
    if n > 0 { ArrayBytesIsProduct(size, n - 1); }
  }

  /** The bytes a field takes in the struct. */
  function Span(f: Field): int {
    if f.atype.Static? && f.htype.Repeated? then ArrayBytes(f.dataSize, f.arraySize)
    else if f.atype.Pointer? then POINTER_SIZE
    else f.dataSize
  }

  predicate SameUnion(f: Field, g: Field) {
    f.htype.Oneof? && g.htype.Oneof?
  }

  /** The data address of the field at `pos`, for a struct at `dest`. */
  function DataAt(fields: seq<Field>, dest: int, pos: nat): int
    requires pos == 0 || pos < |fields|
  {
    if pos == 0 then dest + Entry(fields, 0).dataOffset
    else
      var prev := fields[pos - 1];
      DataAt(fields, dest, pos - 1) + fields[pos].dataOffset
      + if SameUnion(prev, fields[pos]) then -prev.dataOffset else Span(prev)
  }

  predicate Matches(f: Field, tag: nat) {
    f.tag == tag && !f.ltype.ExtT?
  }

  class FieldIter {
    const start: seq<Field>
    const dest: int
    var pos: nat
    var requiredFieldIndex: nat
    var pData: int
    var pSize: int

    /** Everything the iterator holds is a function of `pos`. The equations stand under a
        quantifier so that only proofs that mention the sums unfold them. */
    ghost predicate Valid()
      reads this
    {
      && (forall i :: 0 <= i < |start| ==> start[i].tag != 0)
      && (pos == 0 || pos < |start|)
      && (forall p: nat {:trigger RequiredBefore(start, p)} ::
            p == pos && p <= |start| ==> requiredFieldIndex == RequiredBefore(start, p))
      && (forall p: nat {:trigger DataAt(start, dest, p)} ::
            p == pos && (p == 0 || p < |start|) ==> pData == DataAt(start, dest, p))
      && pSize == pData + Entry(start, pos).sizeOffset
    }

    /** What Valid says of the current position. */
    lemma AtPosition()
      requires Valid()
      ensures requiredFieldIndex == RequiredBefore(start, pos)
      ensures pData == DataAt(start, dest, pos)
    {}

    /** pb_field_iter_begin on a new iterator; `pos.tag != 0` is what it returns. */
    constructor (fields: seq<Field>, dest: int)
      requires forall i :: 0 <= i < |fields| ==> fields[i].tag != 0
      ensures Valid() && start == fields && this.dest == dest && pos == 0
    {
      start := fields;
      this.dest := dest;
      pos := 0;
      requiredFieldIndex := 0;
      pData := dest + Entry(fields, 0).dataOffset;
      pSize := dest + Entry(fields, 0).dataOffset + Entry(fields, 0).sizeOffset;
    }

    /** pb_field_iter_begin, used again when the iterator wraps. */
    method Begin() returns (more: bool)
      requires forall i :: 0 <= i < |start| ==> start[i].tag != 0
      modifies this
      ensures Valid() && pos == 0 && (more <==> start != [])
    {
      pos := 0;
      requiredFieldIndex := 0;
      pData := dest + Entry(start, 0).dataOffset;
      pSize := pData + Entry(start, 0).sizeOffset;
      more := Entry(start, 0).tag != 0;
    }

    /** pb_field_iter_next: one field on, or back to the first with `more` false. */
    method Next() returns (more: bool)
      requires Valid()
      modifies this
      ensures Valid()
      ensures more <==> old(pos) + 1 < |start|
      ensures pos == if more then old(pos) + 1 else 0
    {
      AtPosition();
      var prev := Entry(start, pos);
      if prev.tag == 0 {
        return false;
      }
      pos := pos + 1;
      var cur := Entry(start, pos);
      if cur.tag == 0 {
        var _ := Begin();
        return false;
      }
      var prevSize: int := prev.dataSize;
      if prev.htype.Oneof? && cur.htype.Oneof? {
        prevSize := 0;
        pData := pData - prev.dataOffset;
      } else if prev.atype.Static? && prev.htype.Repeated? {
        ArrayBytesIsProduct(prevSize, prev.arraySize);
        prevSize := prevSize * prev.arraySize;
      } else if prev.atype.Pointer? {
        prevSize := POINTER_SIZE;
      }
      if prev.htype.Required? {
        requiredFieldIndex := requiredFieldIndex + 1;
      }
      pData := pData + prevSize + cur.dataOffset;
      pSize := pData + cur.sizeOffset;
      return true;
    }

    /** pb_field_iter_find: the first match in cyclic order, after at most one full turn; without
        a match the iterator is back where it started. `steps` counts the advances. */
    method Find(tag: nat) returns (found: bool, ghost steps: nat)
      requires Valid()
      modifies this
      ensures Valid()
      ensures found ==> Matches(Entry(start, pos), tag)
      ensures start != [] ==>
        && steps <= |start|
        && pos == Around(|start|, old(pos), steps)
        && (forall k :: 0 <= k < steps ==> !Matches(start[Around(|start|, old(pos), k)], tag))
        && (found <==> steps < |start|)
      ensures start == [] ==> steps <= 1 && pos == old(pos) && (found <==> tag == 0)
    {
      var origin := pos;
      steps := 0;
      while true
        invariant Valid() && (start == [] ==> steps == 0 && pos == origin)
        invariant start != [] ==> steps < |start| && pos == Around(|start|, origin, steps)
        invariant start != [] ==>
          forall k :: 0 <= k < steps ==> !Matches(start[Around(|start|, origin, k)], tag)
        decreases |start| + 1 - steps
      {
        if Entry(start, pos).tag == tag && !Entry(start, pos).ltype.ExtT? {
          return true, steps;
        }
        var _ := Next();
        steps := steps + 1;
        if pos == origin {
          break;
        }
      }
      found := false;
    }
  }

  /** The position `k` steps after `pos` in a ring of `n`. */
  function Around(n: nat, pos: nat, k: nat): (r: nat)
    requires pos < n && k <= n
    ensures r < n && (r == pos <==> k == 0 || k == n)
  {
    if pos + k < n then pos + k else pos + k - n
  }

  /** So a search succeeds exactly when some field with that number is not an extension,
      wherever the iterator stands. */
  lemma FindComplete(fields: seq<Field>, pos: nat, tag: nat)
    requires pos < |fields|
    ensures (exists k :: 0 <= k < |fields| && Matches(fields[Around(|fields|, pos, k)], tag))
       <==> (exists i :: 0 <= i < |fields| && Matches(fields[i], tag))
  {
    var n := |fields|;
    if i :| 0 <= i < n && Matches(fields[i], tag) {
      var k := if i >= pos then i - pos else i + n - pos;
      assert Around(n, pos, k) == i;
      assert Matches(fields[Around(n, pos, k)], tag);
    }
  }

  // ---------------------------------------------------------------- struct layout

  /** data_offset as PB_DATAOFFSET_FIRST and PB_DATAOFFSET_OTHER compute it from the member
      offsets; every member of a union has the same previous field. */
  predicate Generated(fields: seq<Field>, off: seq<int>) {
    && |off| == |fields|
    && (fields != [] ==> fields[0].dataOffset == off[0])
    && forall i :: 0 < i < |fields| ==>
         if SameUnion(fields[i - 1], fields[i])
         then off[i] == off[i - 1] && fields[i].dataOffset == fields[i - 1].dataOffset
         else fields[i].dataOffset == off[i] - off[i - 1] - Span(fields[i - 1])
  }

  /** On generated descriptors the iterator's running sums give each member's address. */
  lemma {:induction false} IteratorFollowsLayout(fields: seq<Field>, off: seq<int>, dest: int, pos: nat)
    requires Generated(fields, off) && pos < |fields|
    ensures DataAt(fields, dest, pos) == dest + off[pos]
  {
    if pos > 0 { IteratorFollowsLayout(fields, off, dest, pos - 1); }
  }

  /** Two different unions in a row: the iterator takes them for one, so the second is found at
      its address only if the first one's data_offset happens to cancel its size. */
  lemma AdjacentUnions(fields: seq<Field>, off: seq<int>, dest: int, pos: nat)
    requires 0 < pos < |fields| == |off| && Generated(fields[..pos], off[..pos])
    requires SameUnion(fields[pos - 1], fields[pos])
    requires fields[pos].dataOffset == off[pos] - off[pos - 1] - Span(fields[pos - 1])
    ensures DataAt(fields, dest, pos) == dest + off[pos]
       <==> fields[pos - 1].dataOffset + Span(fields[pos - 1]) == 0
  {
    IteratorFollowsLayout(fields[..pos], off[..pos], dest, pos - 1);
    DataAtPrefix(fields, dest, pos, pos - 1);
  }

  /** A four-byte union behind its which_ tag and a second union eight bytes on: the iterator stays at
      the first one. */
  lemma SecondUnionMissed(dest: int)
    ensures var a := Field(1, Fix32T, Oneof, Static, 4, -4, 4, 0, None);
      var b := Field(2, Fix32T, Oneof, Static, 4, -4, 4, 0, None);
      DataAt([a, b], dest, 0) == dest + 4 && DataAt([a, b], dest, 1) == dest + 4 != dest + 12
  {
    var a := Field(1, Fix32T, Oneof, Static, 4, -4, 4, 0, None);
    var b := Field(2, Fix32T, Oneof, Static, 4, -4, 4, 0, None);
    assert [a, b][..1] == [a];
    AdjacentUnions([a, b], [4, 12], dest, 1);
  }

  lemma {:induction false} DataAtPrefix(fields: seq<Field>, dest: int, n: nat, pos: nat)
    requires pos < n <= |fields|
    ensures DataAt(fields[..n], dest, pos) == DataAt(fields, dest, pos)
  {
    if pos > 0 { DataAtPrefix(fields, dest, n, pos - 1); }
  }
}
