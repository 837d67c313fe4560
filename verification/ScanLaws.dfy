/** The fast scan path agrees with the plain one: the sorted metadata fills every slot
    exactly once, with the destination the column-order loop gives that column. */
module ScanLaws {
  import opened Text
  import opened Types
  import opened Flatten
  import opened FlattenLaws
  import opened Memory
  import opened MemoryLaws
  import opened LazyOrder
  import opened ScanMeta

  // ---- the sort --------------------------------------------------------------------------

  /** Larger offsets first; equal offsets in column order. */
  predicate Before(a: FieldMeta, b: FieldMeta) {
    a.offset > b.offset || (a.offset == b.offset && a.colIndex < b.colIndex)
  }

  ghost predicate Ordered(ms: seq<FieldMeta>) {
    forall j, k :: 0 <= j < k < |ms| ==> Before(ms[j], ms[k])
  }

  lemma {:induction false} InsertOrdered(sorted: seq<FieldMeta>, x: FieldMeta)
    requires Ordered(sorted) && forall k :: 0 <= k < |sorted| ==> sorted[k].colIndex < x.colIndex
    ensures Ordered(Insert(sorted, x))
    ensures multiset(Insert(sorted, x)) == multiset(sorted) + multiset{x}
  {
    var n := |sorted| - 1;
    if !(sorted == [] || sorted[n].offset >= x.offset) {
      InsertOrdered(sorted[..n], x);
      assert sorted == sorted[..n] + [sorted[n]];
      LastStaysLast(sorted, x, Insert(sorted[..n], x));
    }
  }

  lemma LastStaysLast(sorted: seq<FieldMeta>, x: FieldMeta, head: seq<FieldMeta>)
    requires sorted != [] && Ordered(sorted) && sorted[|sorted| - 1].offset < x.offset
    requires Ordered(head) && multiset(head) == multiset(sorted[..|sorted| - 1]) + multiset{x}
    ensures Ordered(head + [sorted[|sorted| - 1]])
  {
    var n := |sorted| - 1;
    forall k | 0 <= k < |head|
      ensures Before(head[k], sorted[n])
    {
      assert head[k] in multiset(head);
      if head[k] != x {
        assert head[k] in multiset(sorted[..n]);
        assert head[k] in sorted[..n];
      }
    }
  }

  lemma SameElements(s: seq<FieldMeta>, t: seq<FieldMeta>)
    requires multiset(s) == multiset(t)
    ensures forall m :: m in s <==> m in t
  {
    forall m
      ensures m in s <==> m in t
    {
      assert m in multiset(s) <==> m in multiset(t);
    }
  }

  ghost predicate InColumnOrder(ms: seq<FieldMeta>) {
    forall j, k :: 0 <= j < k < |ms| ==> ms[j].colIndex < ms[k].colIndex
  }

  lemma LastColumn(ms: seq<FieldMeta>, sorted: seq<FieldMeta>)
    requires InColumnOrder(ms) && ms != [] && multiset(sorted) == multiset(ms[..|ms| - 1])
    ensures InColumnOrder(ms[..|ms| - 1])
    ensures forall k :: 0 <= k < |sorted| ==> sorted[k].colIndex < ms[|ms| - 1].colIndex
  {
    SameElements(sorted, ms[..|ms| - 1]);
    forall k | 0 <= k < |sorted|
      ensures sorted[k].colIndex < ms[|ms| - 1].colIndex
    {
      assert sorted[k] in sorted && sorted[k] in ms[..|ms| - 1];
    }
  }

  /** The sort permutes, puts larger offsets first, and keeps the order of equal ones. */
  lemma {:induction false} SortIsStable(ms: seq<FieldMeta>)
    requires InColumnOrder(ms)
    ensures Ordered(Sorted(ms)) && multiset(Sorted(ms)) == multiset(ms)
  {
    if ms != [] {
      hide Insert, Ordered, InColumnOrder, Sorted;
      var n := |ms| - 1;
      SortedLast(ms);
      LastColumn(ms, ms[..n]);
      SortIsStable(ms[..n]);
      LastColumn(ms, Sorted(ms[..n]));
      InsertOrdered(Sorted(ms[..n]), ms[n]);
      assert ms == ms[..n] + [ms[n]];
    } else {
      assert Sorted(ms) == ms;
    }
  }

  lemma SortedLast(ms: seq<FieldMeta>)
    requires ms != []
    ensures Sorted(ms) == Insert(Sorted(ms[..|ms| - 1]), ms[|ms| - 1])
  {
  }

  /** `ms` holds the metadata of each of the columns once, in some order. */
  ghost predicate OncePerColumn(names: NameTable, columns: seq<string>, ms: seq<FieldMeta>) {
    && |ms| == |columns|
    && (forall k :: 0 <= k < |ms| ==>
          ms[k].colIndex < |columns| && ms[k] == MetaFor(names, columns[ms[k].colIndex], ms[k].colIndex))
    && (forall j, k :: 0 <= j < k < |ms| ==> ms[j].colIndex != ms[k].colIndex)
    && (forall i :: 0 <= i < |columns| ==> MetaFor(names, columns[i], i) in ms)
  }

  lemma SamePermuted(ms: seq<FieldMeta>)
    requires InColumnOrder(ms)
    ensures forall m :: m in Sorted(ms) <==> m in ms
  {
    SortIsStable(ms);
    SameElements(Sorted(ms), ms);
  }

  lemma PlainOnce(names: NameTable, columns: seq<string>)
    ensures OncePerColumn(names, columns, ColumnMetas(names, columns))
  {
    forall i | 0 <= i < |columns|
      ensures MetaFor(names, columns[i], i) in ColumnMetas(names, columns)
    {
      assert ColumnMetas(names, columns)[i] == MetaFor(names, columns[i], i);
    }
  }

  /** Reordering by a strict order keeps every column, once. */
  lemma ReorderedOnce(names: NameTable, columns: seq<string>, ms: seq<FieldMeta>, ns: seq<FieldMeta>)
    requires OncePerColumn(names, columns, ms) && Ordered(ns) && |ns| == |ms|
    requires forall m :: m in ns <==> m in ms
    ensures OncePerColumn(names, columns, ns)
  {
    forall k | 0 <= k < |ns|
      ensures ns[k].colIndex < |columns| && ns[k] == MetaFor(names, columns[ns[k].colIndex], ns[k].colIndex)
    {
      assert ns[k] in ms;
    }
    forall j, k | 0 <= j < k < |ns|
      ensures ns[j].colIndex != ns[k].colIndex
    {
      assert Before(ns[j], ns[k]);
      assert ns[j] == MetaFor(names, columns[ns[j].colIndex], ns[j].colIndex);
      assert ns[k] == MetaFor(names, columns[ns[k].colIndex], ns[k].colIndex);
    }
  }

  lemma ColumnsOnce(names: NameTable, columns: seq<string>)
    ensures OncePerColumn(names, columns, ColumnMetas(names, columns))
    ensures OncePerColumn(names, columns, Sorted(ColumnMetas(names, columns)))
  {
    var ms := ColumnMetas(names, columns);
    PlainOnce(names, columns);
    SortIsStable(ms);
    SamePermuted(ms);
    assert |multiset(Sorted(ms))| == |Sorted(ms)| && |multiset(ms)| == |ms|;
    hide OncePerColumn, Sorted, ColumnMetas, Ordered;
    ReorderedOnce(names, columns, ms, Sorted(ms));
  }

  // ---- metadata of flattened fields ------------------------------------------------------

  /** The metadata points to the field at `index`. */
  ghost predicate LeadsTo(env: Env, root: TypeId, m: FieldMeta, index: seq<nat>) {
    && index != [] && GoodPath(env, root, index)
    && m.traversal == StepsTo(env, root, index) && m.fieldType == TypeAt(env, root, index)
    && m.isPtrPath == ThroughPointer(env, root, index)
    && (!m.isPtrPath ==> m.offset == OffsetOf(env, root, index))
  }

  /** The metadata is a discard marker or points to some field of the type. */
  ghost predicate Fitting(env: Env, root: TypeId, m: FieldMeta) {
    m.traversal == [] || exists index :: LeadsTo(env, root, m, index)
  }

  ghost function PathOf(env: Env, root: TypeId, m: FieldMeta): (index: seq<nat>)
    requires Fitting(env, root, m) && m.traversal != []
    ensures LeadsTo(env, root, m, index)
  {
    var index :| LeadsTo(env, root, m, index);
    index
  }

  lemma {:induction false} NamesComeFromLog(log: seq<FieldInfo>, name: string)
    requires name in AddNames(map[], log)
    ensures AddNames(map[], log)[name] in log
  {
    if log != [] {
      var n := |log| - 1;
      if AddNames(map[], log)[name] != log[n] {
        NamesComeFromLog(log[..n], name);
      }
    }
  }

  /** Every field a name resolves to has steps, and its metadata points to it. */
  lemma FlattenedFits(env: Env, m: Mapper, root: TypeId, col: string, i: nat)
    requires GoodEnv(env)
    ensures Fitting(env, root, MetaFor(AddNames(map[], Entries(env, m, root)), col, i))
    ensures Mapped(AddNames(map[], Entries(env, m, root)))
  {
    var log := Entries(env, m, root);
    var names := AddNames(map[], log);
    EntriesPlaced(env, m, root);
    forall c | c in names
      ensures names[c] in log && names[c].traversal != []
    {
      NamesComeFromLog(log, c);
      var fi := names[c];
      assert |FieldSteps(env, LastField(env, root, fi.index))| > 0;
    }
    if col in names {
      assert LeadsTo(env, root, MetaFor(names, col, i), names[col].index);
    }
  }

  // ---- a run of the filling loop -----------------------------------------------------------

  /** Where the destination of `m` is in imagination, and the objects met on the way. */
  ghost function MetaPlace(env: Env, start: Heap, base: Addr, root: TypeId, m: FieldMeta): Place
    requires Fitting(env, root, m)
  {
    if m.traversal == [] then Place(Cell(m.colIndex), 0)
    else PlaceOf(env, start, base, root, PathOf(env, root, m))
  }

  ghost function MetaObjects(env: Env, start: Heap, base: Addr, root: TypeId, m: FieldMeta): set<Object>
    requires Fitting(env, root, m)
  {
    if m.traversal == [] then {Cell(m.colIndex)}
    else ObjectsOn(env, start, base, root, PathOf(env, root, m))
  }

  function MetaType(m: FieldMeta, cellType: TypeId): TypeId {
    if m.traversal == [] then cellType else m.fieldType
  }

  ghost predicate AllFitting(env: Env, root: TypeId, ms: seq<FieldMeta>) {
    forall k :: 0 <= k < |ms| ==> Fitting(env, root, ms[k])
  }

  ghost function AllObjects(env: Env, start: Heap, base: Addr, root: TypeId, ms: seq<FieldMeta>): set<Object>
    requires AllFitting(env, root, ms)
  {
    if ms == [] then {}
    else AllObjects(env, start, base, root, ms[..|ms| - 1]) + MetaObjects(env, start, base, root, ms[|ms| - 1])
  }

  lemma {:induction false} InAllObjects(env: Env, start: Heap, base: Addr, root: TypeId, ms: seq<FieldMeta>, o: Object)
    requires AllFitting(env, root, ms)
    ensures o in AllObjects(env, start, base, root, ms) <==>
              exists k :: 0 <= k < |ms| && o in MetaObjects(env, start, base, root, ms[k])
  {
    hide MetaObjects, Fitting;
    if ms != [] {
      var n := |ms| - 1;
      InAllObjects(env, start, base, root, ms[..n], o);
      assert forall k :: 0 <= k < n ==> ms[..n][k] == ms[k];
      if o in AllObjects(env, start, base, root, ms[..n]) {
        var k :| 0 <= k < n && o in MetaObjects(env, start, base, root, ms[..n][k]);
        assert o in MetaObjects(env, start, base, root, ms[k]);
      }
    }
  }

  /** Off pointer paths the imagined place is one addition away. */
  lemma {:induction false} StraightPlace(env: Env, start: Heap, base: Addr, root: TypeId, index: seq<nat>)
    requires GoodPath(env, root, index) && !ThroughPointer(env, root, index)
    ensures PlaceOf(env, start, base, root, index) == Moved(LazyOrder.At(base), OffsetOf(env, root, index))
    ensures ObjectsOn(env, start, base, root, index) == {Old(base.obj)}
  {
    if index != [] {
      StraightPlace(env, start, base, root, index[..|index| - 1]);
    }
  }

  lemma {:induction false} NoCellsOnPaths(env: Env, start: Heap, base: Addr, root: TypeId, index: seq<nat>, o: Object)
    requires GoodPath(env, root, index) && o in ObjectsOn(env, start, base, root, index)
    ensures !o.Cell?
  {
    if index != [] {
      var up := index[..|index| - 1];
      assert PlaceOf(env, start, base, root, up).obj in ObjectsOn(env, start, base, root, up);
      NoCellsOnPaths(env, start, base, root, up, PlaceOf(env, start, base, root, up).obj);
      if o in ObjectsOn(env, start, base, root, up) {
        NoCellsOnPaths(env, start, base, root, up, o);
      }
    }
  }

  lemma FillOneRuns(env: Env, start: Heap, cellType: TypeId, base: Addr, root: TypeId, m: FieldMeta,
                    r: Renaming, h: Heap) returns (r': Renaming)
    requires GoodEnv(env) && WellTyped(env, start) && Typed(env, start, base, root) && Fitting(env, root, m)
    requires Runs(env, start, cellType, r, h) && (m.traversal == [] ==> Cell(m.colIndex) !in r.ids)
    ensures var (h', d) := FillOne(h, base, m, cellType);
            var q := MetaPlace(env, start, base, root, m);
            && Runs(env, start, cellType, r', h') && Grows(r, r')
            && r'.ids.Keys == r.ids.Keys + MetaObjects(env, start, base, root, m)
            && q.obj in r'.ids && d == Dest(Real(r', q), MetaType(m, cellType))
  {
    hide GoodEnv, WellTyped, Typed, Runs, PlaceOf, ObjectsOn, Fitting;
    if m.traversal == [] {
      r' := Add(r, Cell(m.colIndex), h.next);
      CellRuns(env, start, cellType, m.colIndex, r, h);
    } else {
      var index := PathOf(env, root, m);
      if m.isPtrPath {
        r' := TraversalRuns(env, start, cellType, base, root, index, r, h);
        EndIsMet(env, start, base, root, index);
      } else {
        StraightPlace(env, start, base, root, index);
        NothingTraversed(env, start, cellType, base, root, r, h);
        r' := r;
      }
    }
  }

  lemma EndIsMet(env: Env, start: Heap, base: Addr, root: TypeId, index: seq<nat>)
    requires GoodPath(env, root, index)
    ensures PlaceOf(env, start, base, root, index).obj in ObjectsOn(env, start, base, root, index)
  {
  }

  /** After filling, destination `ms[k].colIndex` is the imagined place of `ms[k]`. */
  ghost predicate Filed(env: Env, start: Heap, base: Addr, root: TypeId, cellType: TypeId, r: Renaming,
                        ms: seq<FieldMeta>, dest: seq<Option<Dest>>)
    requires AllFitting(env, root, ms) && InRange(ms, |dest|)
  {
    forall k :: 0 <= k < |ms| ==>
      var q := MetaPlace(env, start, base, root, ms[k]);
      q.obj in r.ids && dest[ms[k].colIndex] == Some(Dest(Real(r, q), MetaType(ms[k], cellType)))
  }

  ghost predicate DistinctColumns(ms: seq<FieldMeta>) {
    forall j, k :: 0 <= j < k < |ms| ==> ms[j].colIndex != ms[k].colIndex
  }

  lemma {:induction false} FillAllRuns(env: Env, start: Heap, cellType: TypeId, base: Addr, root: TypeId,
                                       ms: seq<FieldMeta>, dest: seq<Option<Dest>>) returns (r: Renaming)
    requires GoodEnv(env) && WellTyped(env, start) && Typed(env, start, base, root)
    requires AllFitting(env, root, ms) && InRange(ms, |dest|) && DistinctColumns(ms)
    ensures var (h', dest') := FillAll(start, base, ms, cellType, dest);
            && Runs(env, start, cellType, r, h')
            && r.ids.Keys == (set id | id in start.objs :: Old(id)) + AllObjects(env, start, base, root, ms)
            && Filed(env, start, base, root, cellType, r, ms, dest')
  {
    hide Runs, WellTyped, GoodEnv, FillOne, MetaObjects, MetaPlace, Fitting, Typed, Filed, Grows, Real, MetaType,
         FillAll, AllObjects, InRange, DistinctColumns;
    if ms == [] {
      TypedIsClosed(env, start);
      r := RunStarts(env, start, cellType);
      NothingFilled(env, start, cellType, base, root, r, dest);
    } else {
      var n := |ms| - 1;
      LastFilled(env, start, cellType, base, root, ms, dest);
      var r1 := FillAllRuns(env, start, cellType, base, root, ms[..n], dest);
      var (h1, dest1) := FillAll(start, base, ms[..n], cellType, dest);
      if ms[n].traversal == [] && Cell(ms[n].colIndex) in r1.ids {
        CellIsNew(env, start, base, root, ms);
      }
      r := FillOneRuns(env, start, cellType, base, root, ms[n], r1, h1);
      var d := FillOne(h1, base, ms[n], cellType).1;
      FiledOneMore(env, start, base, root, cellType, r1, r, ms, dest1, d);
    }
  }

  lemma TypedIsClosed(env: Env, h: Heap)
    requires GoodEnv(env) && WellTyped(env, h)
    ensures Closed(h)
  {
  }

  lemma NothingFilled(env: Env, start: Heap, cellType: TypeId, base: Addr, root: TypeId, r: Renaming,
                      dest: seq<Option<Dest>>)
    ensures AllFitting(env, root, []) && InRange([], |dest|) && DistinctColumns([])
    ensures FillAll(start, base, [], cellType, dest) == (start, dest)
    ensures AllObjects(env, start, base, root, []) == {}
    ensures Filed(env, start, base, root, cellType, r, [], dest)
  {
  }

  lemma LastFilled(env: Env, start: Heap, cellType: TypeId, base: Addr, root: TypeId, ms: seq<FieldMeta>,
                   dest: seq<Option<Dest>>)
    requires ms != [] && AllFitting(env, root, ms) && InRange(ms, |dest|) && DistinctColumns(ms)
    ensures var n := |ms| - 1;
            && AllFitting(env, root, ms[..n]) && InRange(ms[..n], |dest|) && DistinctColumns(ms[..n])
            && ms[n].colIndex < |dest| && Fitting(env, root, ms[n])
            && AllObjects(env, start, base, root, ms)
               == AllObjects(env, start, base, root, ms[..n]) + MetaObjects(env, start, base, root, ms[n])
    ensures var n := |ms| - 1;
            var (h1, dest1) := FillAll(start, base, ms[..n], cellType, dest);
            var (h2, d) := FillOne(h1, base, ms[n], cellType);
            |dest1| == |dest| && FillAll(start, base, ms, cellType, dest) == (h2, dest1[ms[n].colIndex := Some(d)])
  {
    hide FillOne, MetaObjects, Fitting;
  }

  lemma FiledOneMore(env: Env, start: Heap, base: Addr, root: TypeId, cellType: TypeId, r1: Renaming, r: Renaming,
                     ms: seq<FieldMeta>, dest1: seq<Option<Dest>>, d: Dest)
    requires AllFitting(env, root, ms) && InRange(ms, |dest1|) && DistinctColumns(ms) && ms != [] && Grows(r1, r)
    requires Filed(env, start, base, root, cellType, r1, ms[..|ms| - 1], dest1)
    requires var q := MetaPlace(env, start, base, root, ms[|ms| - 1]);
             q.obj in r.ids && d == Dest(Real(r, q), MetaType(ms[|ms| - 1], cellType))
    ensures Filed(env, start, base, root, cellType, r, ms, dest1[ms[|ms| - 1].colIndex := Some(d)])
  {
    hide MetaPlace, Fitting, MetaType;
    var n := |ms| - 1;
    forall k | 0 <= k < |ms|
      ensures var q := MetaPlace(env, start, base, root, ms[k]);
              q.obj in r.ids && dest1[ms[n].colIndex := Some(d)][ms[k].colIndex]
                                == Some(Dest(Real(r, q), MetaType(ms[k], cellType)))
    {
      if k < n {
        assert ms[..n][k] == ms[k];
      }
    }
  }

  /** The cell of the last column was not met in the columns before it. */
  lemma CellIsNew(env: Env, start: Heap, base: Addr, root: TypeId, ms: seq<FieldMeta>)
    requires ms != [] && AllFitting(env, root, ms) && DistinctColumns(ms)
    ensures Cell(ms[|ms| - 1].colIndex) !in AllObjects(env, start, base, root, ms[..|ms| - 1])
  {
    var n := |ms| - 1;
    var o := Cell(ms[n].colIndex);
    InAllObjects(env, start, base, root, ms[..n], o);
    if k :| 0 <= k < n && o in MetaObjects(env, start, base, root, ms[..n][k]) {
      if ms[k].traversal != [] {
        NoCellsOnPaths(env, start, base, root, PathOf(env, root, ms[k]), o);
      }
    }
  }

  // ---- the pointers handed out are safe -----------------------------------------------------

  /** Whatever has a type keeps it. */
  ghost predicate KeepsTypes(h: Heap, h': Heap) {
    forall id :: id in h.objs ==> id in h'.objs && h'.objs[id] == h.objs[id]
  }

  lemma FillOneSafe(env: Env, root: TypeId, h: Heap, base: Addr, m: FieldMeta, cellType: TypeId)
    requires GoodEnv(env) && cellType in env && WellTyped(env, h) && Typed(env, h, base, root) && Fitting(env, root, m)
    ensures var (h', d) := FillOne(h, base, m, cellType);
            && WellTyped(env, h') && KeepsTypes(h, h') && Typed(env, h', d.addr, d.typ)
  {
    if m.traversal == [] {
      var h' := WithCell(h, cellType);
      assert OccursAt(env, cellType, 0, cellType);
      forall p, t | p in h'.slots && IsPointer(env, t) && Typed(env, h', p, t)
        ensures Typed(env, h', h'.slots[p], env[t].shape.elem)
      {
        assert Typed(env, h, p, t);
        assert Typed(env, h, h.slots[p], env[t].shape.elem);
      }
    } else {
      var index := PathOf(env, root, m);
      TraversalWellTyped(env, h, base, root, index);
      TraversalExtends(h, base, m.traversal);
      if !m.isPtrPath {
        StraightTraversal(env, h, base, root, index);
      }
    }
  }

  /** Every pointer handed to the row reader points to a value of its static type that
      lies inside its object, and memory stays well typed. */
  lemma {:induction false} FillAllSafe(env: Env, root: TypeId, start: Heap, base: Addr, ms: seq<FieldMeta>,
                                       cellType: TypeId, dest: seq<Option<Dest>>)
    requires GoodEnv(env) && cellType in env && WellTyped(env, start) && Typed(env, start, base, root)
    requires AllFitting(env, root, ms) && InRange(ms, |dest|)
    ensures var (h', dest') := FillAll(start, base, ms, cellType, dest);
            && WellTyped(env, h') && KeepsTypes(start, h')
            && forall k :: 0 <= k < |ms| ==>
                 var d := dest'[ms[k].colIndex];
                 && d.Some? && Typed(env, h', d.value.addr, d.value.typ)
                 && d.value.typ in env && h'.objs[d.value.addr.obj] in env
                 && d.value.addr.off + env[d.value.typ].size <= env[h'.objs[d.value.addr.obj]].size
  {
    hide WellTyped, GoodEnv, FillOne, Fitting, OccursAt;
    if ms != [] {
      var n := |ms| - 1;
      FillAllSafe(env, root, start, base, ms[..n], cellType, dest);
      var (h1, dest1) := FillAll(start, base, ms[..n], cellType, dest);
      FillOneSafe(env, root, h1, base, ms[n], cellType);
      var (h', dest') := FillAll(start, base, ms, cellType, dest);
      forall k | 0 <= k < |ms|
        ensures var d := dest'[ms[k].colIndex];
                && d.Some? && Typed(env, h', d.value.addr, d.value.typ)
                && d.value.typ in env && h'.objs[d.value.addr.obj] in env
                && d.value.addr.off + env[d.value.typ].size <= env[h'.objs[d.value.addr.obj]].size
      {
        if k < n {
          assert ms[..n][k] == ms[k];
        }
        TypedFits(env, h', dest'[ms[k].colIndex].value);
      }
    }
  }

  lemma TypedFits(env: Env, h: Heap, d: Dest)
    requires GoodEnv(env) && WellTyped(env, h) && Typed(env, h, d.addr, d.typ)
    ensures d.typ in env && h.objs[d.addr.obj] in env
    ensures d.addr.off + env[d.typ].size <= env[h.objs[d.addr.obj]].size
  {
    OccursInside(env, h.objs[d.addr.obj], d.addr.off, d.typ);
  }

  // ---- equal up to the names of fresh objects -------------------------------------------------

  function Renamed(f: map<nat, nat>, a: Addr): Addr {
    if a.obj in f then Addr(f[a.obj], a.off) else a
  }

  /** `f` takes the objects, types and pointers of `a` into those of `b`, and leaves the
      objects of the starting heap alone. */
  ghost predicate Embeds(start: Heap, f: map<nat, nat>, a: Heap, b: Heap) {
    && f.Keys == a.objs.Keys
    && (forall id :: id in start.objs ==> id in f && f[id] == id)
    && (forall id :: id in f ==> f[id] in b.objs && b.objs[f[id]] == a.objs[id])
    && (forall p :: p in a.slots ==>
          Renamed(f, p) in b.slots && b.slots[Renamed(f, p)] == Renamed(f, a.slots[p]))
  }

  /** Each of two maps undoes the other. */
  ghost predicate Inverse(f: map<nat, nat>, g: map<nat, nat>) {
    && (forall id :: id in f ==> f[id] in g && g[f[id]] == id)
    && (forall id :: id in g ==> g[id] in f && f[g[id]] == id)
  }

  ghost predicate SameDests(f: map<nat, nat>, a: seq<Option<Dest>>, b: seq<Option<Dest>>) {
    && |a| == |b|
    && forall i :: 0 <= i < |a| ==>
         a[i].Some? && b[i].Some? && b[i].value == Dest(Renamed(f, a[i].value.addr), a[i].value.typ)
  }

  /** From the identities of one run to those of another. */
  function Between(r: Renaming, s: Renaming, h: Heap): map<nat, nat>
    requires forall id :: id in h.objs ==> id in r.names && r.names[id] in s.ids
  {
    map id | id in h.objs :: s.ids[r.names[id]]
  }

  lemma ObjectsEmbed(env: Env, start: Heap, cellType: TypeId, r: Renaming, a: Heap, s: Renaming, b: Heap)
    requires GoodEnv(env) && Closed(start)
    requires Runs(env, start, cellType, r, a) && Runs(env, start, cellType, s, b)
    requires r.ids.Keys == s.ids.Keys
    ensures forall id :: id in a.objs ==> id in r.names && r.names[id] in s.ids
    ensures var f := Between(r, s, a);
            && (forall id :: id in start.objs ==> id in f && f[id] == id)
            && (forall id :: id in f ==> f[id] in b.objs && b.objs[f[id]] == a.objs[id])
  {
    hide GoodEnv, AllExplained, PlaceTyped;
    var f := Between(r, s, a);
    forall id | id in start.objs
      ensures id in f && f[id] == id
    {
      assert Sound(env, start, cellType, r, a, Old(id));
      assert Sound(env, start, cellType, s, b, Old(id));
    }
    forall id | id in f
      ensures f[id] in b.objs && b.objs[f[id]] == a.objs[id]
    {
      var o := r.names[id];
      assert Sound(env, start, cellType, r, a, o);
      assert Sound(env, start, cellType, s, b, o);
    }
  }

  lemma RunsEmbed(env: Env, start: Heap, cellType: TypeId, r: Renaming, a: Heap, s: Renaming, b: Heap)
    requires GoodEnv(env) && Closed(start)
    requires Runs(env, start, cellType, r, a) && Runs(env, start, cellType, s, b)
    requires r.ids.Keys == s.ids.Keys
    ensures forall id :: id in a.objs ==> id in r.names && r.names[id] in s.ids
    ensures Embeds(start, Between(r, s, a), a, b)
  {
    hide GoodEnv, AllExplained, PlaceTyped, AllSound, Sound, Explained;
    var f := Between(r, s, a);
    ObjectsEmbed(env, start, cellType, r, a, s, b);
    forall p | p in a.slots
      ensures Renamed(f, p) in b.slots && b.slots[Renamed(f, p)] == Renamed(f, a.slots[p])
    {
      PointerEmbeds(env, start, cellType, r, a, s, b, p);
    }
  }

  lemma PointerEmbeds(env: Env, start: Heap, cellType: TypeId, r: Renaming, a: Heap, s: Renaming, b: Heap, p: Addr)
    requires GoodEnv(env) && Closed(start)
    requires Runs(env, start, cellType, r, a) && Runs(env, start, cellType, s, b)
    requires r.ids.Keys == s.ids.Keys && p in a.slots
    requires forall id :: id in a.objs ==> id in r.names && r.names[id] in s.ids
    ensures var f := Between(r, s, a);
            Renamed(f, p) in b.slots && b.slots[Renamed(f, p)] == Renamed(f, a.slots[p])
  {
    var f := Between(r, s, a);
    var t := a.slots[p];
    assert Explained(start, r, a, p) && p.obj in a.objs && t.obj in a.objs;
    var o := r.names[t.obj];
    assert Sound(env, start, cellType, r, a, o) && Sound(env, start, cellType, s, b, o);
    assert Sound(env, start, cellType, r, a, r.names[p.obj]) && Sound(env, start, cellType, s, b, r.names[p.obj]);
    if p in start.slots && a.slots[p] == start.slots[p] {
      assert Old(p.obj) in r.ids && Old(t.obj) in r.ids;
      assert Sound(env, start, cellType, r, a, Old(p.obj)) && Sound(env, start, cellType, r, a, Old(t.obj));
    }
  }

  /** Two runs over the same starting heap that meet the same imagined objects are equal
      up to the names of fresh objects. */
  lemma RunsAgree(env: Env, start: Heap, cellType: TypeId, r: Renaming, a: Heap, s: Renaming, b: Heap)
    requires GoodEnv(env) && Closed(start)
    requires Runs(env, start, cellType, r, a) && Runs(env, start, cellType, s, b)
    requires r.ids.Keys == s.ids.Keys
    ensures forall id :: id in a.objs ==> id in r.names && r.names[id] in s.ids
    ensures forall id :: id in b.objs ==> id in s.names && s.names[id] in r.ids
    ensures Embeds(start, Between(r, s, a), a, b) && Embeds(start, Between(s, r, b), b, a)
    ensures Inverse(Between(r, s, a), Between(s, r, b))
  {
    RunsEmbed(env, start, cellType, r, a, s, b);
    RunsEmbed(env, start, cellType, s, b, r, a);
    BetweenUndone(env, start, cellType, r, a, s, b);
    BetweenUndone(env, start, cellType, s, b, r, a);
  }

  lemma BetweenUndone(env: Env, start: Heap, cellType: TypeId, r: Renaming, a: Heap, s: Renaming, b: Heap)
    requires GoodEnv(env)
    requires Runs(env, start, cellType, r, a) && Runs(env, start, cellType, s, b)
    requires r.ids.Keys == s.ids.Keys
    ensures forall id :: id in a.objs ==>
              && id in r.names && r.names[id] in s.ids
              && s.ids[r.names[id]] in b.objs && s.ids[r.names[id]] in s.names
              && s.names[s.ids[r.names[id]]] == r.names[id] && r.ids[r.names[id]] == id
  {
    forall id | id in a.objs
      ensures s.ids[r.names[id]] in b.objs && s.ids[r.names[id]] in s.names
              && s.names[s.ids[r.names[id]]] == r.names[id]
    {
      assert Sound(env, start, cellType, s, b, r.names[id]);
    }
  }

  /** Two metadata lists of the same columns, in any two orders. */
  lemma SameObjects(env: Env, start: Heap, base: Addr, root: TypeId, ms: seq<FieldMeta>, ns: seq<FieldMeta>)
    requires AllFitting(env, root, ms) && AllFitting(env, root, ns)
    requires forall m :: m in ms <==> m in ns
    ensures AllObjects(env, start, base, root, ms) == AllObjects(env, start, base, root, ns)
  {
    forall o
      ensures o in AllObjects(env, start, base, root, ms) <==> o in AllObjects(env, start, base, root, ns)
    {
      InAllObjects(env, start, base, root, ms, o);
      InAllObjects(env, start, base, root, ns, o);
      if k :| 0 <= k < |ms| && o in MetaObjects(env, start, base, root, ms[k]) {
        assert ms[k] in ns;
      }
      if k :| 0 <= k < |ns| && o in MetaObjects(env, start, base, root, ns[k]) {
        assert ns[k] in ms;
      }
    }
  }

  /** Destinations filed by two runs agree, slot by slot. */
  lemma DestsAgree(env: Env, start: Heap, base: Addr, root: TypeId, cellType: TypeId,
                   names: NameTable, columns: seq<string>,
                   r: Renaming, a: Heap, ms: seq<FieldMeta>, da: seq<Option<Dest>>,
                   s: Renaming, b: Heap, ns: seq<FieldMeta>, db: seq<Option<Dest>>)
    requires GoodEnv(env) && |da| == |db| == |columns|
    requires OncePerColumn(names, columns, ms) && OncePerColumn(names, columns, ns)
    requires AllFitting(env, root, ms) && AllFitting(env, root, ns)
    requires Filed(env, start, base, root, cellType, r, ms, da) && Filed(env, start, base, root, cellType, s, ns, db)
    requires Runs(env, start, cellType, r, a)
    requires forall id :: id in a.objs ==> id in r.names && r.names[id] in s.ids
    ensures SameDests(Between(r, s, a), da, db)
  {
    forall i | 0 <= i < |columns|
      ensures da[i].Some? && db[i].Some?
              && db[i].value == Dest(Renamed(Between(r, s, a), da[i].value.addr), da[i].value.typ)
    {
      var m := MetaFor(names, columns[i], i);
      assert m in ms && m in ns && m.colIndex == i;
      var j :| 0 <= j < |ms| && ms[j] == m;
      var k :| 0 <= k < |ns| && ns[k] == m;
      var q := MetaPlace(env, start, base, root, m);
      assert da[ms[j].colIndex] == Some(Dest(Real(r, q), MetaType(m, cellType)));
      assert db[ns[k].colIndex] == Some(Dest(Real(s, q), MetaType(m, cellType)));
      assert Sound(env, start, cellType, r, a, q.obj);
    }
  }

  lemma AllFit(env: Env, m: Mapper, root: TypeId, columns: seq<string>, ms: seq<FieldMeta>)
    requires GoodEnv(env) && OncePerColumn(AddNames(map[], Entries(env, m, root)), columns, ms)
    ensures AllFitting(env, root, ms) && DistinctColumns(ms) && InRange(ms, |columns|)
  {
    forall k | 0 <= k < |ms|
      ensures Fitting(env, root, ms[k])
    {
      FlattenedFits(env, m, root, columns[ms[k].colIndex], ms[k].colIndex);
    }
  }

  /** For every type, mapper, column list and well typed starting heap: the fast path,
      which sorts the metadata, and the plain path, which goes column by column, fill
      every slot, leave the same memory and the same destinations up to the names of
      fresh objects. */
  lemma ScanSlotsRefine(env: Env, m: Mapper, root: TypeId, columns: seq<string>, start: Heap, base: Addr,
                        cellType: TypeId, dest0: seq<Option<Dest>>, dest1: seq<Option<Dest>>)
    returns (f: map<nat, nat>, g: map<nat, nat>)
    requires GoodEnv(env) && WellTyped(env, start) && Typed(env, start, base, root)
    requires |dest0| == |dest1| == |columns|
    ensures var plain := ColumnMetas(AddNames(map[], Entries(env, m, root)), columns);
            && InRange(Sorted(plain), |columns|)
            && var (fastHeap, fast) := FillAll(start, base, Sorted(plain), cellType, dest0);
               var (slowHeap, slow) := FillAll(start, base, plain, cellType, dest1);
               && Embeds(start, f, fastHeap, slowHeap) && Embeds(start, g, slowHeap, fastHeap)
               && Inverse(f, g) && SameDests(f, fast, slow)
  {
    hide WellTyped, Typed, Runs, GoodEnv, Entries, Sorted, FillAll, AllFitting, Filed, AllObjects, OncePerColumn;
    var names := AddNames(map[], Entries(env, m, root));
    var plain := ColumnMetas(names, columns);
    ColumnsOnce(names, columns);
    AllFit(env, m, root, columns, plain);
    AllFit(env, m, root, columns, Sorted(plain));
    var r := FillAllRuns(env, start, cellType, base, root, Sorted(plain), dest0);
    var s := FillAllRuns(env, start, cellType, base, root, plain, dest1);
    SamePermuted(plain);
    SameObjects(env, start, base, root, Sorted(plain), plain);
    var (a, da) := FillAll(start, base, Sorted(plain), cellType, dest0);
    var (b, db) := FillAll(start, base, plain, cellType, dest1);
    TypedIsClosed(env, start);
    RunsAgree(env, start, cellType, r, a, s, b);
    f, g := Between(r, s, a), Between(s, r, b);
    DestsAgree(env, start, base, root, cellType, names, columns, r, a, Sorted(plain), da, s, b, plain, db);
  }
}
