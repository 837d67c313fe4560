/** When destinations overlap. Two columns are read into a common byte exactly if their
    fields overlap in the starting heap; whether they do depends on the pointers the caller
    set. Two fields, neither inside the other, lie in different objects or in disjoint bytes
    of one, pointer fields and fields behind pointers included, as long as the pointers
    followed below the point where their paths part were nil. In a new row every pointer is,
    whatever the rows before it in the same buffer hold. */
module Disjoint {
  import opened Text
  import opened Types
  import opened Flatten
  import opened FlattenLaws
  import opened Memory
  import opened MemoryLaws
  import opened LazyOrder
  import opened ScanMeta
  import opened ScanLaws

  /** Byte ranges in different objects, or one after the other in the same. */
  predicate Apart(p: Place, n: nat, q: Place, m: nat) {
    p.obj != q.obj || p.off + n <= q.off || q.off + m <= p.off
  }

  /** The object was reached, through any number of new objects, from a pointer slot in
      bytes `lo` to `hi` of `anchor`. */
  predicate HangsOff(o: Object, anchor: Object, lo: nat, hi: nat) {
    o.New? &&
    ((o.slot.obj == anchor && lo <= o.slot.off < hi) || HangsOff(o.slot.obj, anchor, lo, hi))
  }

  function Depth(o: Object): nat {
    if o.New? then 1 + Depth(o.slot.obj) else 0
  }

  lemma {:induction false} HangsDeeper(o: Object, anchor: Object, lo: nat, hi: nat)
    requires HangsOff(o, anchor, lo, hi)
    ensures Depth(o) > Depth(anchor)
  {
    if !(o.slot.obj == anchor && lo <= o.slot.off < hi) {
      HangsDeeper(o.slot.obj, anchor, lo, hi);
    }
  }

  /** An object hangs off at most one of two disjoint regions. */
  lemma {:induction false} HangsOnce(o: Object, anchor: Object, lo: nat, hi: nat, lo': nat, hi': nat)
    requires HangsOff(o, anchor, lo, hi) && (hi <= lo' || hi' <= lo)
    ensures !HangsOff(o, anchor, lo', hi')
  {
    if o.slot.obj == anchor {
      NotOffItself(anchor, lo, hi);
      NotOffItself(anchor, lo', hi');
    } else {
      HangsOnce(o.slot.obj, anchor, lo, hi, lo', hi');
    }
  }

  lemma NotOffItself(anchor: Object, lo: nat, hi: nat)
    ensures !HangsOff(anchor, anchor, lo, hi)
  {
    if HangsOff(anchor, anchor, lo, hi) {
      HangsDeeper(anchor, anchor, lo, hi);
    }
  }

  /** Bytes within a region of an object, or in an object that hangs off it. */
  predicate Within(q: Place, size: nat, anchor: Object, lo: nat, hi: nat) {
    (q.obj == anchor && lo <= q.off && q.off + size <= hi) || HangsOff(q.obj, anchor, lo, hi)
  }

  lemma WithinApart(p: Place, n: nat, q: Place, m: nat, anchor: Object, lo: nat, hi: nat, lo': nat, hi': nat)
    requires Within(p, n, anchor, lo, hi) && Within(q, m, anchor, lo', hi') && (hi <= lo' || hi' <= lo)
    ensures Apart(p, n, q, m)
  {
    NotOffItself(anchor, lo, hi);
    NotOffItself(anchor, lo', hi');
    if HangsOff(p.obj, anchor, lo, hi) {
      HangsOnce(p.obj, anchor, lo, hi, lo', hi');
    }
  }

  /** No pointer that path `p` follows below its prefix of length `n` was set at the start. */
  predicate NilBelow(env: Env, start: Heap, base: Addr, root: TypeId, n: nat, p: seq<nat>)
    requires GoodPath(env, root, p)
  {
    |p| <= n ||
    var up, f := p[..|p| - 1], LastField(env, root, p);
    && NilBelow(env, start, base, root, n, up)
    && (IsPointer(env, f.typ) ==> !SetAtStart(start, Moved(PlaceOf(env, start, base, root, up), f.offset)))
  }

  /** The size of what a path leads to. */
  function Size(env: Env, root: TypeId, p: seq<nat>): nat
    requires GoodPath(env, root, p) && TypeAt(env, root, p) in env
  {
    env[TypeAt(env, root, p)].size
  }

  /** Everything at or below field `p[n]` of the struct at `p[..n]` lies in that field's
      bytes, or in an object that hangs off a pointer there. */
  ghost predicate InRegion(env: Env, start: Heap, base: Addr, root: TypeId, n: nat, p: seq<nat>)
    requires n < |p| && GoodPath(env, root, p) && GoodPath(env, root, p[..n]) && GoodPath(env, root, p[..n + 1])
    requires TypeAt(env, root, p) in env && LastField(env, root, p[..n + 1]).typ in env
  {
    var at, f, q := PlaceOf(env, start, base, root, p[..n]), LastField(env, root, p[..n + 1]),
                    PlaceOf(env, start, base, root, p);
    var lo := at.off + f.offset;
    Within(q, Size(env, root, p), at.obj, lo, lo + env[f.typ].size)
  }

  lemma FieldInLayout(env: Env, root: TypeId, p: seq<nat>)
    requires GoodEnv(env) && root in env && GoodPath(env, root, p) && p != []
    ensures GoodPath(env, root, p[..|p| - 1]) && TypeAt(env, root, p[..|p| - 1]) in env
    ensures var f := LastField(env, root, p);
            && f.typ in env && f.offset + env[f.typ].size <= Size(env, root, p[..|p| - 1])
            && (IsPointer(env, f.typ) ==> env[f.typ].size > 0)
            && TypeAt(env, root, p) == Deref(env, f.typ) && TypeAt(env, root, p) in env
  {
    PathsStayTyped(env, root, p);
    var t := TypeAt(env, root, p[..|p| - 1]);
    assert GoodLayout(env, env[t].shape.fields, env[t].size, env[t].rank);
    assert LastField(env, root, p) == env[t].shape.fields[p[|p| - 1]];
  }

  lemma {:induction false} StaysInRegion(env: Env, start: Heap, base: Addr, root: TypeId, n: nat, p: seq<nat>)
    requires GoodEnv(env) && root in env && GoodPath(env, root, p) && n < |p|
    requires NilBelow(env, start, base, root, n, p)
    ensures GoodPath(env, root, p[..n]) && GoodPath(env, root, p[..n + 1])
    ensures TypeAt(env, root, p) in env && LastField(env, root, p[..n + 1]).typ in env
    ensures InRegion(env, start, base, root, n, p)
  {
    hide GoodEnv, Reached;
    PrefixIsGood(env, root, p[..n], p);
    PrefixIsGood(env, root, p[..n + 1], p);
    FieldInLayout(env, root, p);
    var up := p[..|p| - 1];
    if |p| == n + 1 {
      assert p[..n + 1] == p;
    } else {
      StaysInRegion(env, start, base, root, n, up);
      assert up[..n] == p[..n] && up[..n + 1] == p[..n + 1];
    }
  }

  /** Two paths that part at position `n`. */
  ghost predicate PartAt(p: seq<nat>, q: seq<nat>, n: nat) {
    n < |p| && n < |q| && p[..n] == q[..n] && p[n] != q[n]
  }

  /** The main geometry: where nothing followed below the parting was set at the start,
      the two places share no byte. Without pointers below the parting nothing is asked
      of the start; that is the case of two fields behind the same pointer. */
  lemma PlacesApart(env: Env, start: Heap, base: Addr, root: TypeId, p: seq<nat>, q: seq<nat>, n: nat)
    requires GoodEnv(env) && root in env && GoodPath(env, root, p) && GoodPath(env, root, q) && PartAt(p, q, n)
    requires NilBelow(env, start, base, root, n, p) && NilBelow(env, start, base, root, n, q)
    ensures TypeAt(env, root, p) in env && TypeAt(env, root, q) in env
    ensures Apart(PlaceOf(env, start, base, root, p), Size(env, root, p),
                  PlaceOf(env, start, base, root, q), Size(env, root, q))
  {
    hide GoodEnv, Reached, GoodPath, TypeAt, LastField, PlaceOf, NilBelow, Size, Within, Apart;
    StaysInRegion(env, start, base, root, n, p);
    StaysInRegion(env, start, base, root, n, q);
    RegionsApart(env, root, p, q, n);
    var at := PlaceOf(env, start, base, root, p[..n]);
    var f, g := LastField(env, root, p[..n + 1]), LastField(env, root, q[..n + 1]);
    var lo, lo' := at.off + f.offset, at.off + g.offset;
    WithinApart(PlaceOf(env, start, base, root, p), Size(env, root, p),
                PlaceOf(env, start, base, root, q), Size(env, root, q),
                at.obj, lo, lo + env[f.typ].size, lo', lo' + env[g.typ].size);
  }

  lemma RegionsApart(env: Env, root: TypeId, p: seq<nat>, q: seq<nat>, n: nat)
    requires GoodEnv(env) && root in env && GoodPath(env, root, p) && GoodPath(env, root, q) && PartAt(p, q, n)
    ensures GoodPath(env, root, p[..n + 1]) && GoodPath(env, root, q[..n + 1])
    ensures var f, g := LastField(env, root, p[..n + 1]), LastField(env, root, q[..n + 1]);
            && f.typ in env && g.typ in env
            && (f.offset + env[f.typ].size <= g.offset || g.offset + env[g.typ].size <= f.offset)
  {
    PrefixIsGood(env, root, p[..n + 1], p);
    PrefixIsGood(env, root, q[..n + 1], q);
    assert p[..n + 1][..n] == p[..n] && q[..n + 1][..n] == q[..n];
    PrefixIsGood(env, root, p[..n], p);
    PathsStayTyped(env, root, p[..n]);
    var t := TypeAt(env, root, p[..n]);
    assert GoodLayout(env, env[t].shape.fields, env[t].size, env[t].rank);
    assert LastField(env, root, p[..n + 1]) == env[t].shape.fields[p[n]];
    assert LastField(env, root, q[..n + 1]) == env[t].shape.fields[q[n]];
  }

  // ---- when the pointers are nil ----------------------------------------------------------

  /** No pointer slot in the `size` bytes from `base` is set. */
  ghost predicate NilBytes(start: Heap, base: Addr, size: nat) {
    forall s :: s in start.slots ==> s.obj != base.obj || s.off < base.off || base.off + size <= s.off
  }

  /** No pointer slot in the row at `base` is set, as when it was just made. The rest of the
      buffer it lies in may hold what it likes. */
  ghost predicate Unset(env: Env, start: Heap, base: Addr, root: TypeId)
    requires root in env
  {
    NilBytes(start, base, env[root].size)
  }

  /** The place lies in the row, or in an object that was imagined. */
  ghost predicate InRow(env: Env, base: Addr, root: TypeId, q: Place, size: nat)
    requires root in env
  {
    || q.obj.New?
    || (q.obj == Old(base.obj) && base.off <= q.off && q.off + size <= base.off + env[root].size)
  }

  lemma {:induction false} UnsetStaysNew(env: Env, start: Heap, base: Addr, root: TypeId, n: nat, p: seq<nat>)
    requires GoodEnv(env) && root in env && Unset(env, start, base, root) && GoodPath(env, root, p)
    ensures NilBelow(env, start, base, root, n, p) && TypeAt(env, root, p) in env
    ensures InRow(env, base, root, PlaceOf(env, start, base, root, p), Size(env, root, p))
  {
    hide GoodEnv;
    PathsStayTyped(env, root, p);
    if p != [] {
      FieldInLayout(env, root, p);
      UnsetStaysNew(env, start, base, root, n, p[..|p| - 1]);
    }
  }

  /** No field of the path below its prefix of length `n` is a pointer. */
  predicate PlainBelow(env: Env, root: TypeId, n: nat, p: seq<nat>)
    requires GoodPath(env, root, p)
  {
    |p| <= n || (PlainBelow(env, root, n, p[..|p| - 1]) && !IsPointer(env, LastField(env, root, p).typ))
  }

  lemma {:induction false} PlainIsNil(env: Env, start: Heap, base: Addr, root: TypeId, n: nat, p: seq<nat>)
    requires GoodPath(env, root, p) && PlainBelow(env, root, n, p)
    ensures NilBelow(env, start, base, root, n, p)
  {
    if |p| > n {
      PlainIsNil(env, start, base, root, n, p[..|p| - 1]);
    }
  }

  lemma PathsPart(p: seq<nat>, q: seq<nat>) returns (n: nat)
    requires !(p <= q) && !(q <= p)
    ensures PartAt(p, q, n)
  {
    n := |Common(p, q)|;
    assert p[..n] == Common(p, q) == q[..n];
    assert p[..|p|] == p && q[..|q|] == q;
  }

  /** In a new row, any two fields of a type, neither inside the other, lie
      in different objects or in disjoint bytes: embedded pointers, pointer fields and
      fields behind them included. */
  lemma FieldsApart(env: Env, start: Heap, base: Addr, root: TypeId, p: seq<nat>, q: seq<nat>)
    requires GoodEnv(env) && root in env && Unset(env, start, base, root)
    requires GoodPath(env, root, p) && GoodPath(env, root, q) && !(p <= q) && !(q <= p)
    ensures TypeAt(env, root, p) in env && TypeAt(env, root, q) in env
    ensures Apart(PlaceOf(env, start, base, root, p), Size(env, root, p),
                  PlaceOf(env, start, base, root, q), Size(env, root, q))
  {
    var n := PathsPart(p, q);
    UnsetStaysNew(env, start, base, root, n, p);
    UnsetStaysNew(env, start, base, root, n, q);
    PlacesApart(env, start, base, root, p, q, n);
  }

  /** Two fields behind the same pointers are disjoint whatever the heap holds. */
  lemma FieldsBehindOnePointer(env: Env, start: Heap, base: Addr, root: TypeId, p: seq<nat>, q: seq<nat>, n: nat)
    requires GoodEnv(env) && root in env && GoodPath(env, root, p) && GoodPath(env, root, q) && PartAt(p, q, n)
    requires PlainBelow(env, root, n, p) && PlainBelow(env, root, n, q)
    ensures TypeAt(env, root, p) in env && TypeAt(env, root, q) in env
    ensures Apart(PlaceOf(env, start, base, root, p), Size(env, root, p),
                  PlaceOf(env, start, base, root, q), Size(env, root, q))
  {
    PlainIsNil(env, start, base, root, n, p);
    PlainIsNil(env, start, base, root, n, q);
    PlacesApart(env, start, base, root, p, q, n);
  }

  // ---- from places to the destinations of columns -----------------------------------------

  lemma StepsSplit(env: Env, root: TypeId, p: seq<nat>, q: seq<nat>)
    requires GoodPath(env, root, p) && GoodPath(env, root, q) && StepsTo(env, root, p) == StepsTo(env, root, q)
    ensures p == [] <==> q == []
    ensures p != [] ==>
              var f, g := LastField(env, root, p), LastField(env, root, q);
              && StepsTo(env, root, p[..|p| - 1]) == StepsTo(env, root, q[..|q| - 1])
              && f.offset == g.offset && (IsPointer(env, f.typ) <==> IsPointer(env, g.typ))
  {
    var steps := StepsTo(env, root, p);
    if p != [] && q != [] {
      var a, b := StepsTo(env, root, p[..|p| - 1]), StepsTo(env, root, q[..|q| - 1]);
      var f, g := LastField(env, root, p), LastField(env, root, q);
      assert steps == a + FieldSteps(env, f) == b + FieldSteps(env, g);
      assert steps[|steps| - 1].elem.Some? <==> IsPointer(env, f.typ);
      assert steps[|steps| - 1].elem.Some? <==> IsPointer(env, g.typ);
      assert a == steps[..|a|] && b == steps[..|b|];
      assert steps[|a|] == Step(f.offset, None) && steps[|b|] == Step(g.offset, None);
    }
  }

  /** A place is determined by the steps that lead to it. */
  lemma {:induction false} StepsDetermine(env: Env, start: Heap, base: Addr, root: TypeId, p: seq<nat>, q: seq<nat>)
    requires GoodEnv(env) && WellTyped(env, start) && Typed(env, start, base, root)
    requires GoodPath(env, root, p) && GoodPath(env, root, q) && StepsTo(env, root, p) == StepsTo(env, root, q)
    ensures PlaceOf(env, start, base, root, p) == PlaceOf(env, start, base, root, q)
  {
    hide GoodEnv, WellTyped, Typed, PlaceTyped;
    StepsSplit(env, root, p, q);
    if p != [] {
      var up, vp := p[..|p| - 1], q[..|q| - 1];
      StepsDetermine(env, start, base, root, up, vp);
      PlaceOfTyped(env, start, base, root, up);
      PlaceOfTyped(env, start, base, root, vp);
      var at := PlaceOf(env, start, base, root, up);
      var f, g := LastField(env, root, p), LastField(env, root, q);
      FieldPlaceTyped(env, start, at, TypeAt(env, root, up), p[|p| - 1]);
      FieldPlaceTyped(env, start, at, TypeAt(env, root, vp), q[|q| - 1]);
      if IsPointer(env, f.typ) {
        PlacePointerUnique(env, start, Moved(at, f.offset), f.typ, g.typ);
      }
    }
  }

  /** Apart as addresses. */
  predicate NoSharedByte(env: Env, d: Dest, e: Dest) {
    d.typ in env && e.typ in env &&
    (d.addr.obj != e.addr.obj || d.addr.off + env[d.typ].size <= e.addr.off
                              || e.addr.off + env[e.typ].size <= d.addr.off)
  }

  /** Columns `i` and `j` do not name fields one of which contains the other. */
  ghost predicate Unrelated(names: NameTable, columns: seq<string>, i: nat, j: nat)
    requires i < |columns| && j < |columns|
  {
    columns[i] in names && columns[j] in names ==>
      && !(names[columns[i]].index <= names[columns[j]].index)
      && !(names[columns[j]].index <= names[columns[i]].index)
  }

  /** The metadata of column `i` leads to the place of the field it names. */
  lemma MetaPlaceIs(env: Env, m: Mapper, root: TypeId, start: Heap, base: Addr, col: string, i: nat)
    requires GoodEnv(env) && WellTyped(env, start) && Typed(env, start, base, root)
    requires col in AddNames(map[], Entries(env, m, root))
    ensures var names := AddNames(map[], Entries(env, m, root));
            var meta, index := MetaFor(names, col, i), names[col].index;
            && Fitting(env, root, meta) && meta.traversal != []
            && GoodPath(env, root, index) && meta.fieldType == TypeAt(env, root, index)
            && MetaPlace(env, start, base, root, meta) == PlaceOf(env, start, base, root, index)
  {
    var log := Entries(env, m, root);
    var names := AddNames(map[], log);
    FlattenedFits(env, m, root, col, i);
    EntriesPlaced(env, m, root);
    NamesComeFromLog(log, col);
    hide WellTyped, Typed, GoodEnv, Entries, AddNames, PlaceOf;
    var meta := MetaFor(names, col, i);
    assert Mapped(names);
    StepsDetermine(env, start, base, root, PathOf(env, root, meta), names[col].index);
  }

  /** What becomes of column `i`: its place, and the size of what is read there. */
  ghost function ColumnPlace(env: Env, start: Heap, base: Addr, root: TypeId, names: NameTable, columns: seq<string>,
                             i: nat): Place
    requires i < |columns| && (columns[i] in names ==> GoodPath(env, root, names[columns[i]].index))
  {
    if columns[i] in names then PlaceOf(env, start, base, root, names[columns[i]].index) else Place(Cell(i), 0)
  }

  ghost function ColumnType(env: Env, root: TypeId, names: NameTable, columns: seq<string>, cellType: TypeId, i: nat)
    : TypeId
    requires i < |columns| && (columns[i] in names ==> GoodPath(env, root, names[columns[i]].index))
  {
    if columns[i] in names then TypeAt(env, root, names[columns[i]].index) else cellType
  }

  lemma RootKnown(env: Env, start: Heap, base: Addr, root: TypeId)
    requires GoodEnv(env) && WellTyped(env, start) && Typed(env, start, base, root)
    ensures root in env
  {
    OccursInside(env, start.objs[base.obj], base.off, root);
  }

  /** The destination of column `i`, for any order of filling. */
  lemma ColumnFilled(env: Env, m: Mapper, root: TypeId, columns: seq<string>, ms: seq<FieldMeta>, start: Heap,
                     base: Addr, cellType: TypeId, dest: seq<Option<Dest>>, r: Renaming, i: nat)
    requires GoodEnv(env) && cellType in env && WellTyped(env, start) && Typed(env, start, base, root)
    requires |dest| == |columns| && i < |columns|
    requires OncePerColumn(AddNames(map[], Entries(env, m, root)), columns, ms)
    requires AllFitting(env, root, ms) && InRange(ms, |dest|)
    requires Filed(env, start, base, root, cellType, r, ms, FillAll(start, base, ms, cellType, dest).1)
    ensures columns[i] in AddNames(map[], Entries(env, m, root)) ==>
              GoodPath(env, root, AddNames(map[], Entries(env, m, root))[columns[i]].index)
    ensures var names := AddNames(map[], Entries(env, m, root));
            var filled := FillAll(start, base, ms, cellType, dest).1;
            var q, t := ColumnPlace(env, start, base, root, names, columns, i),
                        ColumnType(env, root, names, columns, cellType, i);
            t in env && q.obj in r.ids && filled[i] == Some(Dest(Real(r, q), t))
  {
    var names := AddNames(map[], Entries(env, m, root));
    RootKnown(env, start, base, root);
    if columns[i] in names {
      MetaPlaceIs(env, m, root, start, base, columns[i], i);
      PathsStayTyped(env, root, names[columns[i]].index);
    }
    hide WellTyped, Typed, GoodEnv, Entries, AddNames, PlaceOf, FillAll, Fitting, Reached;
    var meta := MetaFor(names, columns[i], i);
    assert meta in ms && meta.colIndex == i;
    var x :| 0 <= x < |ms| && ms[x] == meta;
  }

  /** Different imagined objects are different real ones. */
  lemma RealApart(env: Env, start: Heap, cellType: TypeId, r: Renaming, h: Heap, p: Place, n: nat, q: Place, k: nat)
    requires GoodEnv(env) && Runs(env, start, cellType, r, h) && p.obj in r.ids && q.obj in r.ids
    ensures Apart(LazyOrder.At(Real(r, p)), n, LazyOrder.At(Real(r, q)), k) <==> Apart(p, n, q, k)
  {
    hide GoodEnv, PlaceTyped;
    assert Sound(env, start, cellType, r, h, p.obj) && Sound(env, start, cellType, r, h, q.obj);
  }

  /** Exactly when two columns share a byte, for every starting heap and every order of
      filling: if and only if their fields overlap in the starting heap, nil pointers
      followed into objects of their own. An unmatched column shares none. */
  lemma DestinationsShareExactly(env: Env, m: Mapper, root: TypeId, columns: seq<string>, ms: seq<FieldMeta>,
                                 start: Heap, base: Addr, cellType: TypeId, dest: seq<Option<Dest>>, i: nat, j: nat)
    requires GoodEnv(env) && cellType in env && WellTyped(env, start) && Typed(env, start, base, root)
    requires |dest| == |columns| && i < |columns| && j < |columns| && i != j
    requires OncePerColumn(AddNames(map[], Entries(env, m, root)), columns, ms)
    ensures InRange(ms, |dest|)
    ensures var names := AddNames(map[], Entries(env, m, root));
            var filled := FillAll(start, base, ms, cellType, dest).1;
            && filled[i].Some? && filled[j].Some?
            && (!(columns[i] in names && columns[j] in names) ==> NoSharedByte(env, filled[i].value, filled[j].value))
            && (columns[i] in names && columns[j] in names ==>
                  var p, q := names[columns[i]].index, names[columns[j]].index;
                  && GoodPath(env, root, p) && GoodPath(env, root, q)
                  && TypeAt(env, root, p) in env && TypeAt(env, root, q) in env
                  && (NoSharedByte(env, filled[i].value, filled[j].value)
                      <==> Apart(PlaceOf(env, start, base, root, p), Size(env, root, p),
                                 PlaceOf(env, start, base, root, q), Size(env, root, q))))
  {
    var names := AddNames(map[], Entries(env, m, root));
    AllFit(env, m, root, columns, ms);
    var r := FillAllRuns(env, start, cellType, base, root, ms, dest);
    ColumnFilled(env, m, root, columns, ms, start, base, cellType, dest, r, i);
    ColumnFilled(env, m, root, columns, ms, start, base, cellType, dest, r, j);
    ColumnsDiffer(env, m, root, start, base, columns, cellType, i, j);
    hide Real, Apart, NoSharedByte, WellTyped, Typed, GoodEnv, Entries, AddNames, PlaceOf, FillAll, Runs, Fitting,
         Filed, OncePerColumn, Reached;
    var h := FillAll(start, base, ms, cellType, dest).0;
    var p, q := ColumnPlace(env, start, base, root, names, columns, i),
                ColumnPlace(env, start, base, root, names, columns, j);
    DestsShare(env, start, cellType, r, h, p, ColumnType(env, root, names, columns, cellType, i),
               q, ColumnType(env, root, names, columns, cellType, j));
  }

  lemma DestsShare(env: Env, start: Heap, cellType: TypeId, r: Renaming, h: Heap, p: Place, t: TypeId,
                   q: Place, u: TypeId)
    requires GoodEnv(env) && Runs(env, start, cellType, r, h) && p.obj in r.ids && q.obj in r.ids
    requires t in env && u in env
    ensures NoSharedByte(env, Dest(Real(r, p), t), Dest(Real(r, q), u)) <==> Apart(p, env[t].size, q, env[u].size)
  {
    RealApart(env, start, cellType, r, h, p, env[t].size, q, env[u].size);
    hide GoodEnv, Runs;
  }

  /** A discard cell is no place on a path, and each column has its own. */
  lemma ColumnsDiffer(env: Env, m: Mapper, root: TypeId, start: Heap, base: Addr, columns: seq<string>,
                      cellType: TypeId, i: nat, j: nat)
    requires GoodEnv(env) && i < |columns| && j < |columns| && i != j
    ensures var names := AddNames(map[], Entries(env, m, root));
            && (columns[i] in names ==> GoodPath(env, root, names[columns[i]].index))
            && (columns[j] in names ==> GoodPath(env, root, names[columns[j]].index))
            && (!(columns[i] in names && columns[j] in names) ==> forall n, k ::
                  Apart(ColumnPlace(env, start, base, root, names, columns, i), n,
                        ColumnPlace(env, start, base, root, names, columns, j), k))
  {
    PathsHaveNoCells(env, m, root, start, base, columns, i);
    PathsHaveNoCells(env, m, root, start, base, columns, j);
    hide GoodEnv, Entries, AddNames, PlaceOf, Reached;
  }

  lemma PathsHaveNoCells(env: Env, m: Mapper, root: TypeId, start: Heap, base: Addr, columns: seq<string>, i: nat)
    requires GoodEnv(env) && i < |columns|
    ensures var names := AddNames(map[], Entries(env, m, root));
            columns[i] in names ==>
              && GoodPath(env, root, names[columns[i]].index)
              && !PlaceOf(env, start, base, root, names[columns[i]].index).obj.Cell?
  {
    var log := Entries(env, m, root);
    var names := AddNames(map[], log);
    if columns[i] in names {
      EntriesPlaced(env, m, root);
      NamesComeFromLog(log, columns[i]);
      var index := names[columns[i]].index;
      EndIsMet(env, start, base, root, index);
      NoCellsOnPaths(env, start, base, root, index, PlaceOf(env, start, base, root, index).obj);
    }
  }

  /** No two columns are read into the same byte: in a new row, whichever order the columns
      are filled in, the destinations of two columns are disjoint unless one names a field
      that contains the other's. */
  lemma DestinationsApart(env: Env, m: Mapper, root: TypeId, columns: seq<string>, ms: seq<FieldMeta>, start: Heap,
                          base: Addr, cellType: TypeId, dest: seq<Option<Dest>>, i: nat, j: nat)
    requires GoodEnv(env) && cellType in env && WellTyped(env, start) && Typed(env, start, base, root)
    requires root in env ==> Unset(env, start, base, root)
    requires |dest| == |columns| && i < |columns| && j < |columns| && i != j
    requires OncePerColumn(AddNames(map[], Entries(env, m, root)), columns, ms)
    requires Unrelated(AddNames(map[], Entries(env, m, root)), columns, i, j)
    ensures InRange(ms, |dest|)
    ensures var filled := FillAll(start, base, ms, cellType, dest).1;
            filled[i].Some? && filled[j].Some? && NoSharedByte(env, filled[i].value, filled[j].value)
  {
    var names := AddNames(map[], Entries(env, m, root));
    RootKnown(env, start, base, root);
    DestinationsShareExactly(env, m, root, columns, ms, start, base, cellType, dest, i, j);
    hide WellTyped, Typed, GoodEnv, Entries, AddNames, PlaceOf, FillAll, OncePerColumn, Unset, NoSharedByte, Apart,
         Size, Reached;
    if columns[i] in names && columns[j] in names {
      FieldsApart(env, start, base, root, names[columns[i]].index, names[columns[j]].index);
    }
  }

  // ---- row after row in one buffer ----------------------------------------------------------

  /** In a new row, the objects on a path hang off slots of the row or of other such objects. */
  lemma {:induction false} SlotsInRow(env: Env, start: Heap, base: Addr, root: TypeId, p: seq<nat>, o: Object)
    requires GoodEnv(env) && root in env && Unset(env, start, base, root) && GoodPath(env, root, p)
    requires o in ObjectsOn(env, start, base, root, p) && o.New?
    ensures o.slot.obj.New?
         || (o.slot.obj == Old(base.obj) && base.off <= o.slot.off < base.off + env[root].size)
  {
    hide GoodEnv, Reached;
    if p != [] {
      var up := p[..|p| - 1];
      FieldInLayout(env, root, p);
      UnsetStaysNew(env, start, base, root, 0, up);
      EndIsMet(env, start, base, root, up);
      var at, f := PlaceOf(env, start, base, root, up), LastField(env, root, p);
      if o in ObjectsOn(env, start, base, root, up) {
        SlotsInRow(env, start, base, root, up, o);
      } else {
        assert o == FieldPlace(env, start, at, f).obj;
        assert IsPointer(env, f.typ) && o == New(Moved(at, f.offset), f.typ);
      }
    }
  }

  /** Filling one row leaves other bytes of the buffer as they were: a row further on that
      was new is still new. */
  lemma OtherBytesStayNil(env: Env, start: Heap, cellType: TypeId, base: Addr, root: TypeId, ms: seq<FieldMeta>,
                          dest: seq<Option<Dest>>, other: nat, size: nat)
    requires GoodEnv(env) && root in env && WellTyped(env, start) && Typed(env, start, base, root)
    requires AllFitting(env, root, ms) && InRange(ms, |dest|) && DistinctColumns(ms)
    requires Unset(env, start, base, root) && NilBytes(start, Addr(base.obj, other), size)
    requires other + size <= base.off || base.off + env[root].size <= other
    ensures NilBytes(FillAll(start, base, ms, cellType, dest).0, Addr(base.obj, other), size)
  {
    hide GoodEnv, WellTyped, FillAll, Filed, Fitting, PlaceTyped;
    var r := FillAllRuns(env, start, cellType, base, root, ms, dest);
    var h := FillAll(start, base, ms, cellType, dest).0;
    forall s | s in h.slots && s.obj == base.obj && other <= s.off < other + size
      ensures false
    {
      BaseIsNamed(env, start, cellType, r, h, base, root);
      assert s !in start.slots;
      assert Explained(start, r, h, s);
      var o := r.names[h.slots[s].obj];
      assert o.slot == Place(Old(base.obj), s.off);
      NamedByPath(env, start, cellType, base, root, ms, r, h, o, h.slots[s].obj);
    }
  }

  lemma BaseIsNamed(env: Env, start: Heap, cellType: TypeId, r: Renaming, h: Heap, base: Addr, root: TypeId)
    requires GoodEnv(env) && Runs(env, start, cellType, r, h) && Typed(env, start, base, root)
    ensures base.obj in r.names && r.names[base.obj] == Old(base.obj)
  {
    hide GoodEnv, PlaceTyped, OccursAt;
    assert Sound(env, start, cellType, r, h, Old(base.obj));
  }

  lemma NamedByPath(env: Env, start: Heap, cellType: TypeId, base: Addr, root: TypeId, ms: seq<FieldMeta>, r: Renaming,
                    h: Heap, o: Object, id: nat)
    requires GoodEnv(env) && root in env && Unset(env, start, base, root) && AllFitting(env, root, ms)
    requires Runs(env, start, cellType, r, h)
    requires r.ids.Keys == (set id | id in start.objs :: Old(id)) + AllObjects(env, start, base, root, ms)
    requires id in h.objs && id in r.names && r.names[id] == o && o.New?
    ensures o.slot.obj.New?
         || (o.slot.obj == Old(base.obj) && base.off <= o.slot.off < base.off + env[root].size)
  {
    hide GoodEnv, PlaceTyped, Fitting, Sound, ObjectsOn, Unset;
    assert o in r.ids;
    assert o in AllObjects(env, start, base, root, ms);
    InAllObjects(env, start, base, root, ms, o);
    var k :| 0 <= k < |ms| && o in MetaObjects(env, start, base, root, ms[k]);
    SlotsInRow(env, start, base, root, PathOf(env, root, ms[k]), o);
  }

  /** Memory after `n` rows of a buffer, `base` its first, were filled one after the other. */
  ghost function RowsFilled(env: Env, start: Heap, base: Addr, root: TypeId, ms: seq<FieldMeta>, cellType: TypeId,
                            dest: seq<Option<Dest>>, n: nat): Heap
    requires root in env && InRange(ms, |dest|)
  {
    if n == 0 then start
    else FillAll(RowsFilled(env, start, base, root, ms, cellType, dest, n - 1),
                 RowAt(env, base, root, n - 1), ms, cellType, dest).0
  }

  function RowAt(env: Env, base: Addr, root: TypeId, i: nat): Addr
    requires root in env
  {
    Addr(base.obj, base.off + i * env[root].size)
  }

  lemma NextRowFits(size: nat, i: nat, n: nat)
    requires i < n
    ensures i * size + size <= n * size
  {
    var m := n - i - 1;
    assert m * size >= 0;
    assert n * size == (i + 1 + m) * size == i * size + size + m * size;
  }

  /** Decoding row after row into a buffer that held no pointer: when its turn comes, every
      row is still new, whatever pointers the rows before it were given, so that
      `DestinationsApart` holds of each. */
  lemma {:induction false} EveryRowIsNew(env: Env, start: Heap, base: Addr, root: TypeId, ms: seq<FieldMeta>,
                                         cellType: TypeId, dest: seq<Option<Dest>>, rows: nat, n: nat, i: nat)
    requires GoodEnv(env) && root in env && cellType in env && WellTyped(env, start)
    requires forall k :: 0 <= k < rows ==> Typed(env, start, RowAt(env, base, root, k), root)
    requires NilBytes(start, base, rows * env[root].size)
    requires AllFitting(env, root, ms) && InRange(ms, |dest|) && DistinctColumns(ms)
    requires n <= i < rows
    ensures var h := RowsFilled(env, start, base, root, ms, cellType, dest, n);
            && WellTyped(env, h) && Typed(env, h, RowAt(env, base, root, i), root)
            && Unset(env, h, RowAt(env, base, root, i), root)
  {
    hide GoodEnv, WellTyped, FillAll, Fitting, Typed, RowAt, Unset, NilBytes, InRange, AllFitting, DistinctColumns;
    if n == 0 {
      RowOfBuffer(env, start, base, root, i, rows);
    } else {
      var h := RowsFilled(env, start, base, root, ms, cellType, dest, n - 1);
      EveryRowIsNew(env, start, base, root, ms, cellType, dest, rows, n - 1, n - 1);
      EveryRowIsNew(env, start, base, root, ms, cellType, dest, rows, n - 1, i);
      RowsInOrder(env, base, root, n - 1, i);
      RowStaysNew(env, h, RowAt(env, base, root, n - 1), root, ms, cellType, dest, RowAt(env, base, root, i).off);
    }
  }

  lemma RowOfBuffer(env: Env, start: Heap, base: Addr, root: TypeId, i: nat, rows: nat)
    requires root in env && i < rows && NilBytes(start, base, rows * env[root].size)
    ensures Unset(env, start, RowAt(env, base, root, i), root)
  {
    NextRowFits(env[root].size, i, rows);
  }

  lemma RowsInOrder(env: Env, base: Addr, root: TypeId, i: nat, j: nat)
    requires root in env && i < j
    ensures var a, b := RowAt(env, base, root, i), RowAt(env, base, root, j);
            b == Addr(a.obj, b.off) && a.off + env[root].size <= b.off
  {
    NextRowFits(env[root].size, i, j);
  }

  lemma RowStaysNew(env: Env, h: Heap, row: Addr, root: TypeId, ms: seq<FieldMeta>, cellType: TypeId,
                    dest: seq<Option<Dest>>, next: nat)
    requires GoodEnv(env) && root in env && cellType in env && WellTyped(env, h)
    requires AllFitting(env, root, ms) && InRange(ms, |dest|) && DistinctColumns(ms)
    requires Typed(env, h, row, root) && Unset(env, h, row, root)
    requires Typed(env, h, Addr(row.obj, next), root) && Unset(env, h, Addr(row.obj, next), root)
    requires row.off + env[root].size <= next
    ensures var h' := FillAll(h, row, ms, cellType, dest).0;
            && WellTyped(env, h') && Typed(env, h', Addr(row.obj, next), root)
            && Unset(env, h', Addr(row.obj, next), root)
  {
    hide GoodEnv, WellTyped, FillAll, Fitting, OccursAt;
    FillAllSafe(env, root, h, row, ms, cellType, dest);
    OtherBytesStayNil(env, h, cellType, row, root, ms, dest, next, env[root].size);
  }

  // ---- why the pointers must be nil -----------------------------------------------------------

  /** `struct{ A, B *int }`. */
  const TWO_POINTERS: Env := map[
    0 := TypeInfo(Struct([Field("A", 2, 0, true, false, NoTag), Field("B", 2, 8, true, false, NoTag)]), 16, false, 1),
    1 := TypeInfo(Plain, 8, false, 0),
    2 := TypeInfo(Pointer(1), 8, false, 0)]

  const ALIASED: Heap := Heap(map[0 := 0, 1 := 1], map[Addr(0, 0) := Addr(1, 0), Addr(0, 8) := Addr(1, 0)], 2)

  /** A destination, supplied by the caller, whose two pointers point to one `int`: memory is
      well typed, and both columns are read into the same bytes. */
  lemma AliasedPointersOverlap(m: Mapper, columns: seq<string>)
    requires m == Mapper((s: string) => s, None) && columns == ["A", "B"]
    ensures GoodEnv(TWO_POINTERS) && WellTyped(TWO_POINTERS, ALIASED) && Typed(TWO_POINTERS, ALIASED, Addr(0, 0), 0)
    ensures var names := AddNames(map[], Entries(TWO_POINTERS, m, 0));
            var filled := FillAll(ALIASED, Addr(0, 0), ColumnMetas(names, columns), 1, [None, None]);
            filled == (ALIASED, [Some(Dest(Addr(1, 0), 1)), Some(Dest(Addr(1, 0), 1))])
  {
    TwoPointersGood();
    AliasedTyped();
    hide GoodEnv, Entries, AddNames, WellTyped, Typed, FillAll, ColumnMetas, Traversed;
    var fields := TWO_POINTERS[0].shape.fields;
    TwoFieldTable(TWO_POINTERS, m, 0, fields[0], fields[1]);
    var names := AddNames(map[], Entries(TWO_POINTERS, m, 0));
    var ms := ColumnMetas(names, columns);
    FollowsTo(0);
    FollowsTo(8);
    assert columns[0] == "A" && columns[1] == "B";
    assert ms[0] == FieldMeta(PointerSteps(0), 1, 0, true, 0) && ms[1] == FieldMeta(PointerSteps(8), 1, 0, true, 1);
    TwoFilled(ms);
  }

  function PointerSteps(off: nat): seq<Step> {
    [Step(off, None), Step(0, Some(1))]
  }

  lemma FollowsTo(off: nat)
    requires off == 0 || off == 8
    ensures Traversed(ALIASED, Addr(0, 0), PointerSteps(off)) == (ALIASED, Addr(1, 0))
    ensures [] + [Step(off, None)] + [Step(0, Some(1))] == PointerSteps(off)
  {
    assert PointerSteps(off)[..1] == [Step(off, None)] && [Step(off, None)][..0] == [];
    assert Traversed(ALIASED, Addr(0, 0), [Step(off, None)]) == (ALIASED, Addr(0, off));
  }

  lemma TwoFilled(ms: seq<FieldMeta>)
    requires ms == [FieldMeta(PointerSteps(0), 1, 0, true, 0), FieldMeta(PointerSteps(8), 1, 0, true, 1)]
    ensures FillAll(ALIASED, Addr(0, 0), ms, 1, [None, None])
         == (ALIASED, [Some(Dest(Addr(1, 0), 1)), Some(Dest(Addr(1, 0), 1))])
  {
    FollowsTo(0);
    FollowsTo(8);
    hide Traversed;
    var d := Dest(Addr(1, 0), 1);
    assert ms[..1] == [ms[0]] && [ms[0]][..0] == [];
    assert FillOne(ALIASED, Addr(0, 0), ms[0], 1) == (ALIASED, d);
    assert FillOne(ALIASED, Addr(0, 0), ms[1], 1) == (ALIASED, d);
    hide FillOne;
    assert FillAll(ALIASED, Addr(0, 0), [], 1, [None, None]) == (ALIASED, [None, None]);
    assert [None, None][0 := Some(d)] == [Some(d), None] && [Some(d), None][1 := Some(d)] == [Some(d), Some(d)];
    assert FillAll(ALIASED, Addr(0, 0), [ms[0]], 1, [None, None]) == (ALIASED, [Some(d), None]);
  }

  lemma TwoPointersGood()
    ensures GoodEnv(TWO_POINTERS)
  {
  }

  lemma AliasedTyped()
    ensures GoodEnv(TWO_POINTERS) && WellTyped(TWO_POINTERS, ALIASED) && Typed(TWO_POINTERS, ALIASED, Addr(0, 0), 0)
  {
    TwoPointersGood();
    assert OccursAt(TWO_POINTERS, 0, 0, 0) && OccursAt(TWO_POINTERS, 1, 0, 1);
    hide GoodEnv, OccursAt;
    assert forall t :: IsPointer(TWO_POINTERS, t) ==> t == 2;
  }
}
