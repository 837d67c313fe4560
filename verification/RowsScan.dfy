/** `Rows.StructScan`: the first call fixes the struct type and its metadata, later calls
    reuse both. */
module RowsScan {
  import opened Text
  import opened Types
  import opened Memory
  import opened ScanMeta
  import opened ScanLaws
  import MetaCache

  /** `Scanned`: the destinations were filled and handed to the row reader, which gave `e`. */
  datatype Outcome =
    | Scanned(e: Option<string>)
    | NotAStructPointer
    | NoColumns(why: string)
    | NoField(column: string)
    | TypeChanged(expected: TypeId)

  /** The answer by what is wrong first; `meta` is the metadata computed afresh. */
  function Expected(started: bool, baseType: TypeId, t: TypeId, isStructPointer: bool, columnsError: Option<string>,
                    rowError: Option<string>, meta: MetaResult): Outcome {
    if !isStructPointer then NotAStructPointer
    else if started && baseType != t then TypeChanged(baseType)
    else if !started && columnsError.Some? then NoColumns(columnsError.value)
    else if !started && meta.Missing? then NoField(meta.column)
    else Scanned(rowError)
  }

  class Rows {
    const columns: seq<string>
    const isUnsafe: bool
    var started: bool
    var ms: seq<FieldMeta>
    var scanDest: array<Option<Dest>>
    var baseType: TypeId

    constructor (columns: seq<string>, isUnsafe: bool)
      ensures this.columns == columns && this.isUnsafe == isUnsafe && !started && fresh(scanDest)
    {
      this.columns, this.isUnsafe := columns, isUnsafe;
      started, ms, baseType := false, [], 0;
      scanDest := new Option<Dest>[0];
    }

    /** Once started, the metadata is that of the fixed type. */
    ghost predicate Valid(tables: TypeId -> NameTable)
      reads this
    {
      started ==>
        && scanDest.Length == |columns|
        && Meta(ms) == Uncached(tables(baseType), columns, isUnsafe)
    }

    /** The row is read if and only if the destination points to a struct, of the type the
        first such call fixed if there was one, and otherwise the column list can be read
        and resolves. Such a call fills the destinations from the sorted metadata of that
        type before the row is read, and fixes the type even when reading the row then
        fails; every other call fixes nothing and leaves the memory alone. `columnsError`
        and `rowError` are what the result set answers. */
    method StructScan(t: TypeId, isStructPointer: bool, columnsError: Option<string>, rowError: Option<string>,
                      base: Addr, mem: Memory, cache: MetaCache.MetaCache, tables: TypeId -> NameTable,
                      cellType: TypeId) returns (r: Outcome, ghost dest: seq<Option<Dest>>)
      requires Valid(tables) && cache.Valid(tables)
      modifies this, scanDest, mem, cache
      ensures Valid(tables) && cache.Valid(tables)
      ensures r == Expected(old(started), old(baseType), t, isStructPointer, columnsError, rowError,
                            Uncached(tables(t), columns, isUnsafe))
      ensures r.Scanned? ==> r == Scanned(rowError)
      ensures r == NotAStructPointer <==> !isStructPointer
      ensures old(started) && isStructPointer ==>
                r == if baseType == t then Scanned(rowError) else TypeChanged(baseType)
      ensures !old(started) && isStructPointer && columnsError.Some? ==> r == NoColumns(columnsError.value)
      ensures !old(started) && isStructPointer && columnsError.None? ==>
                && (r.Scanned? <==> isUnsafe || forall i :: 0 <= i < |columns| ==> columns[i] in tables(t))
                && (r.Scanned? || exists i :: 0 <= i < |columns| && columns[i] !in tables(t) && r == NoField(columns[i])
                                              && forall k :: 0 <= k < i ==> columns[k] in tables(t))
      ensures started == (old(started) || r.Scanned?)
      ensures started ==> baseType == if old(started) then old(baseType) else t
      ensures !r.Scanned? ==> mem.Snapshot() == old(mem.Snapshot())
      ensures r.Scanned? ==>
                var plain := ColumnMetas(tables(t), columns);
                && |dest| == scanDest.Length == |columns| && InRange(Sorted(plain), |columns|)
                && (mem.Snapshot(), scanDest[..])
                   == FillAll(old(mem.Snapshot()), base, Sorted(plain), cellType, dest)
    {
      SortedInRange(tables(t), columns);
      UncachedIsSorted(tables(t), columns, isUnsafe);
      MissingIsFirst(tables(t), columns, isUnsafe);
      hide Uncached, Sorted, FillAll, ColumnMetas, InRange;
      dest := [];
      if !isStructPointer {
        return NotAStructPointer, dest;
      }
      if !started {
        if columnsError.Some? {
          return NoColumns(columnsError.value), dest;
        }
        var built := cache.BuildMeta(t, columns, tables(t), isUnsafe, tables);
        if built.Missing? {
          return NoField(built.column), dest;
        }
        ms := built.ms;
        scanDest := new Option<Dest>[|columns|](_ => None);
        started := true;
        baseType := t;
      } else if baseType != t {
        return TypeChanged(baseType), dest;
      }
      dest := scanDest[..];
      PopulateScanDest(mem, base, ms, cellType, scanDest);
      r := Scanned(rowError);
    }
  }

  /** In safe mode the first column without a field is reported. */
  lemma MissingIsFirst(names: NameTable, columns: seq<string>, isUnsafe: bool)
    ensures var meta := Uncached(names, columns, isUnsafe);
            && (meta.Meta? <==> isUnsafe || forall i :: 0 <= i < |columns| ==> columns[i] in names)
            && (meta.Missing? ==> exists i :: 0 <= i < |columns| && columns[i] !in names && meta.column == columns[i]
                                              && forall k :: 0 <= k < i ==> columns[k] in names)
  {
  }

  lemma UncachedIsSorted(names: NameTable, columns: seq<string>, isUnsafe: bool)
    ensures Uncached(names, columns, isUnsafe).Meta? ==>
              Uncached(names, columns, isUnsafe).ms == Sorted(ColumnMetas(names, columns))
  {
  }

  lemma SortedInRange(names: NameTable, columns: seq<string>)
    ensures InRange(Sorted(ColumnMetas(names, columns)), |columns|)
  {
    ColumnsOnce(names, columns);
  }
}
