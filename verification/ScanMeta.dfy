/** From columns to destinations: the metadata of a column list, sorted for locality, and
    the two loops that turn it into the pointers a row is read into. */
module ScanMeta {
  import opened Text
  import opened Types
  import opened Flatten
  import opened Memory

  datatype FieldMeta = FieldMeta(
    traversal: seq<Step>, fieldType: TypeId, offset: nat, isPtrPath: bool, colIndex: nat)

  type NameTable = map<string, FieldInfo>

  /** The metadata of column `i`: its field, or no traversal if there is none. */
  function MetaFor(names: NameTable, col: string, i: nat): FieldMeta {
    if col in names then
      var fi := names[col];
      FieldMeta(fi.traversal, fi.target, fi.offset, fi.isPtrPath, i)
    else FieldMeta([], 0, 0, false, i)
  }

  function ColumnMetas(names: NameTable, columns: seq<string>): (ms: seq<FieldMeta>)
    ensures |ms| == |columns| && forall i :: 0 <= i < |ms| ==> ms[i] == MetaFor(names, columns[i], i)
  {
    seq(|columns|, i requires 0 <= i < |columns| => MetaFor(names, columns[i], i))
  }

  /** How many leading columns have a field. */
  function Known(names: NameTable, columns: seq<string>): (n: nat)
    ensures n <= |columns| && (forall i :: 0 <= i < n ==> columns[i] in names)
    ensures n < |columns| ==> columns[n] !in names
  {
    if columns == [] || columns[0] !in names then 0
    else
      assert forall i :: 1 <= i < |columns| ==> columns[i] == columns[1..][i - 1];
      1 + Known(names, columns[1..])
  }

  // ---- sorting by offset, largest first ------------------------------------------------

  function Insert(sorted: seq<FieldMeta>, x: FieldMeta): seq<FieldMeta> {
    var n := |sorted| - 1;
    if sorted == [] || sorted[n].offset >= x.offset then sorted + [x]
    else Insert(sorted[..n], x) + [sorted[n]]
  }

  function Sorted(ms: seq<FieldMeta>): seq<FieldMeta> {
    if ms == [] then [] else Insert(Sorted(ms[..|ms| - 1]), ms[|ms| - 1])
  }

  /** The inner loop of the sort: entry `i` sinks into the sorted entries before it by
      swaps of neighbours. */
  method Sink(m: array<FieldMeta>, i: nat)
    requires i < m.Length
    modifies m
    ensures m[..i + 1] == Insert(old(m[..i]), old(m[i]))
    ensures m[i + 1..] == old(m[i + 1..])
  {
    ghost var sorted, x := m[..i], m[i];
    var j := i;
    assert m[i + 1..i + 1] == [] && Insert(sorted, x) + [] == Insert(sorted, x);
    while j > 0 && m[j - 1].offset < m[j].offset
      invariant 0 <= j <= i && m[j] == x
      invariant Insert(sorted, x) == Insert(m[..j], x) + m[j + 1..i + 1]
      invariant m[i + 1..] == old(m[i + 1..])
    {
      assert m[..j][..j - 1] == m[..j - 1];
      ghost var y, tail := m[j - 1], m[j + 1..i + 1];
      Assoc(Insert(m[..j - 1], x), [y], tail);
      m[j - 1], m[j] := m[j], m[j - 1];
      assert m[j..i + 1] == [y] + tail;
      j := j - 1;
    }
    assert m[..i + 1] == (m[..j] + [x]) + m[j + 1..i + 1];
  }

  /** The insertion sort, in place. */
  method SortByOffset(m: array<FieldMeta>)
    modifies m
    ensures m[..] == Sorted(old(m[..]))
  {
    hide Insert;
    ghost var was := m[..];
    SortedOne(was);
    var i := 1;
    while i < m.Length
      invariant 1 <= i && (m.Length > 0 ==> i <= m.Length)
      invariant m.Length > 0 ==> m[..i] == Sorted(was[..i]) && m[i..] == was[i..]
    {
      ghost var rest := m[i..];
      Sink(m, i);
      assert m[i + 1..] == rest[1..] == was[i + 1..];
      assert was[..i + 1][..i] == was[..i] && was[i] == rest[0];
      i := i + 1;
    }
    if m.Length > 0 {
      assert was[..i] == was && m[..i] == m[..];
    } else {
      assert was == [] && m[..] == [];
    }
  }

  lemma SortedOne(ms: seq<FieldMeta>)
    ensures |ms| > 0 ==> Sorted(ms[..1]) == ms[..1]
  {
    if |ms| > 0 {
      assert ms[..1][..0] == [] && [] + [ms[0]] == ms[..1];
    }
  }

  datatype MetaResult = Meta(ms: seq<FieldMeta>) | Missing(column: string)

  /** What `buildMeta` computes when nothing is cached. */
  function Uncached(names: NameTable, columns: seq<string>, isUnsafe: bool): MetaResult {
    if !isUnsafe && Known(names, columns) < |columns| then Missing(columns[Known(names, columns)])
    else Meta(Sorted(ColumnMetas(names, columns)))
  }

  method ComputeMeta(names: NameTable, columns: seq<string>, isUnsafe: bool) returns (r: MetaResult)
    ensures r == Uncached(names, columns, isUnsafe)
  {
    var meta := new FieldMeta[|columns|](_ => FieldMeta([], 0, 0, false, 0));
    for i := 0 to |columns|
      invariant forall k :: 0 <= k < i ==> meta[k] == MetaFor(names, columns[k], k)
      invariant !isUnsafe ==> forall k :: 0 <= k < i ==> columns[k] in names
    {
      if columns[i] in names {
        var fi := names[columns[i]];
        meta[i] := FieldMeta(fi.traversal, fi.target, fi.offset, fi.isPtrPath, i);
      } else if !isUnsafe {
        assert Known(names, columns) == i;
        return Missing(columns[i]);
      } else {
        meta[i] := FieldMeta([], 0, 0, false, i);
      }
    }
    assert meta[..] == ColumnMetas(names, columns);
    SortByOffset(meta);
    r := Meta(meta[..]);
  }

  // ---- filling destinations ----------------------------------------------------------------

  /** A typed pointer handed to the row reader. */
  datatype Dest = Dest(addr: Addr, typ: TypeId)

  /** The destination of one column, and the heap after computing it. */
  function FillOne(h: Heap, base: Addr, m: FieldMeta, cellType: TypeId): (Heap, Dest) {
    if m.traversal == [] then (WithCell(h, cellType), Dest(Addr(h.next, 0), cellType))
    else if m.isPtrPath then
      var (h', a) := Traversed(h, base, m.traversal);
      (h', Dest(a, m.fieldType))
    else (h, Dest(Shift(base, m.offset), m.fieldType))
  }

  predicate InRange(ms: seq<FieldMeta>, n: nat) {
    forall k :: 0 <= k < |ms| ==> ms[k].colIndex < n
  }

  function FillAll(h: Heap, base: Addr, ms: seq<FieldMeta>, cellType: TypeId, dest: seq<Option<Dest>>)
    : (r: (Heap, seq<Option<Dest>>))
    requires InRange(ms, |dest|)
    ensures |r.1| == |dest|
  {
    if ms == [] then (h, dest)
    else
      var n := |ms| - 1;
      var (h1, dest1) := FillAll(h, base, ms[..n], cellType, dest);
      var (h2, d) := FillOne(h1, base, ms[n], cellType);
      (h2, dest1[ms[n].colIndex := Some(d)])
  }

  /** The fast loop: metadata order, destinations written by column number. */
  method PopulateScanDest(mem: Memory, base: Addr, meta: seq<FieldMeta>, cellType: TypeId,
                          scanDest: array<Option<Dest>>)
    requires InRange(meta, scanDest.Length)
    modifies mem, scanDest
    ensures (mem.Snapshot(), scanDest[..])
         == FillAll(old(mem.Snapshot()), base, meta, cellType, old(scanDest[..]))
  {
    for k := 0 to |meta|
      invariant (mem.Snapshot(), scanDest[..])
             == FillAll(old(mem.Snapshot()), base, meta[..k], cellType, old(scanDest[..]))
    {
      assert meta[..k + 1][..k] == meta[..k];
      var m := meta[k];
      var ptr;
      if m.traversal == [] {
        ptr := mem.NewCell(cellType);
        scanDest[m.colIndex] := Some(Dest(ptr, cellType));
      } else {
        if m.isPtrPath {
          ptr := mem.AddrByTraversal(base, m.traversal);
        } else {
          ptr := Shift(base, m.offset);
        }
        scanDest[m.colIndex] := Some(Dest(ptr, m.fieldType));
      }
    }
    assert meta[..|meta|] == meta;
  }

  /** Every field has steps; a column without a field is told by having none. */
  ghost predicate Mapped(names: NameTable) {
    forall c :: c in names ==> names[c].traversal != []
  }

  /** The plain loop: column by column, stopping at the first unknown one. */
  method StructScanDest(mem: Memory, base: Addr, names: NameTable, columns: seq<string>, isUnsafe: bool,
                        cellType: TypeId, scanDest: array<Option<Dest>>) returns (missing: Option<string>)
    requires scanDest.Length == |columns| && Mapped(names)
    modifies mem, scanDest
    ensures var known := if isUnsafe then |columns| else Known(names, columns);
            && missing == (if known < |columns| then Some(columns[known]) else None)
            && (mem.Snapshot(), scanDest[..])
               == FillAll(old(mem.Snapshot()), base, ColumnMetas(names, columns)[..known], cellType, old(scanDest[..]))
  {
    ghost var ms := ColumnMetas(names, columns);
    for i := 0 to |columns|
      invariant (mem.Snapshot(), scanDest[..])
             == FillAll(old(mem.Snapshot()), base, ms[..i], cellType, old(scanDest[..]))
      invariant !isUnsafe ==> forall k :: 0 <= k < i ==> columns[k] in names
    {
      assert ms[..i + 1][..i] == ms[..i];
      if columns[i] in names {
        var fi := names[columns[i]];
        var ptr;
        if fi.isPtrPath {
          ptr := mem.AddrByTraversal(base, fi.traversal);
        } else {
          ptr := Shift(base, fi.offset);
        }
        scanDest[i] := Some(Dest(ptr, fi.target));
      } else if !isUnsafe {
        assert Known(names, columns) == i;
        return Some(columns[i]);
      } else {
        var cell := mem.NewCell(cellType);
        scanDest[i] := Some(Dest(cell, cellType));
      }
    }
    missing := None;
  }
}
