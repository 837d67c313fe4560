/** Reading and writing, where they meet and where they do not. Binding `:name` from a struct
    and scanning a column `name` into it go through the same table, one along the index path
    and one along the steps; what a scan fills is what a later binding reads, except where
    the reflection library refuses: at unexported fields. */
module BindScan {
  import opened Text
  import opened Types
  import opened Flatten
  import opened FlattenLaws
  import opened Memory
  import opened MemoryLaws
  import opened ScanMeta
  import opened ScanLaws
  import SliceBind
  import NamedQuery
  import NamedQueryLaws

  // ---- read-only fields ------------------------------------------------------------------

  lemma {:induction false} OpenedUnsticky(env: Env, root: TypeId, index: seq<nat>)
    requires Opened(env, root, index)
    ensures !Sticky(env, root, index)
  {
    if index != [] {
      OpenedUnsticky(env, root, index[..|index| - 1]);
    }
  }

  /** On the path of an entry only embedded fields can be unexported, so a value is
      read-only exactly if its own field is. */
  lemma EntryRestricted(env: Env, m: Mapper, root: TypeId, fi: FieldInfo, p: seq<nat>)
    requires GoodEnv(env) && fi in Entries(env, m, root) && p <= fi.index && p != []
    ensures GoodPath(env, root, p) && (Restricted(env, root, p) <==> !LastField(env, root, p).exported)
  {
    var index := fi.index;
    EntriesListed(env, m, root, index);
    assert HasEntry(Entries(env, m, root), index);
    PrefixIsGood(env, root, p, index);
    var up := index[..|index| - 1];
    if p == index {
      OpenedUnsticky(env, root, up);
    } else {
      assert p <= up;
      PrefixOpened(env, root, p, up);
      OpenedUnsticky(env, root, p);
    }
  }

  // ---- steps against the walk ------------------------------------------------------------

  /** For every entry of a type: the reflective walk of its index path panics if and only
      if some field of the path is an unexported pointer or map that is nil, or lies behind
      a nil pointer. Otherwise it leaves the heap that following the steps leaves, but for
      a map at the end, and meets it at the same location, one dereference short of a
      pointer field's target. */
  lemma EntryTraversal(env: Env, m: Mapper, root: TypeId, fi: FieldInfo, h: Heap, base: Addr)
    requires GoodEnv(env) && fi in Entries(env, m, root) && Closed(h) && base.obj in h.objs
    ensures fi.index != [] && GoodPath(env, root, fi.index)
    ensures var (h1, a) := Traversed(h, base, fi.traversal);
            var (h2, at) := ByIndexes(env, h, base, root, fi.index);
            && (at == None <==> SomeUnexported(env, h, base, root, fi.index))
            && (at != None ==>
                  && h2 == WithMap(env, h1, root, fi.index, at.value)
                  && (if IsPointer(env, LastField(env, root, fi.index).typ)
                      then at.value in h1.slots && a == h1.slots[at.value]
                      else a == at.value))
  {
    EntriesPlaced(env, m, root);
    TraversalIsByIndexes(env, h, base, root, fi.index);
    hide Entries, GoodEnv, ReadOnly, Restricted, ByIndexes, Traversed;
    forall p | p <= fi.index && p != [] && GoodPath(env, root, p)
      ensures Restricted(env, root, p) <==> !LastField(env, root, p).exported
    {
      EntryRestricted(env, m, root, fi, p);
    }
  }

  /** Some field on the path is unexported and a pointer or map that is nil, or behind a nil
      pointer. */
  ghost predicate SomeUnexported(env: Env, h: Heap, base: Addr, root: TypeId, index: seq<nat>)
    requires GoodPath(env, root, index)
  {
    exists p :: p <= index && p != [] && GoodPath(env, root, p)
      && !LastField(env, root, p).exported && Made(env, LastField(env, root, p).typ)
      && match ReadOnly(env, h, base, root, p)
         case Zero => true
         case Found(a) => a !in h.slots
  }

  /** `type base struct{ ID int }` and `type User struct{ *base }`. */
  const EMBEDDED: Env := map[
    0 := TypeInfo(Struct([Field("base", 1, 0, false, true, NoTag)]), 8, false, 1),
    1 := TypeInfo(Pointer(2), 8, false, 0),
    2 := TypeInfo(Struct([Field("ID", 3, 0, true, false, NoTag)]), 8, false, 1),
    3 := TypeInfo(Plain, 8, false, 0)]

  /** A new `User`: field `ID` has an entry, the column is given a destination in a new
      object, and the reflective walk to the same field panics. */
  lemma EmbeddedPointerPanics(m: Mapper)
    ensures GoodEnv(EMBEDDED) && GoodPath(EMBEDDED, 0, [0, 0])
    ensures HasEntry(Entries(EMBEDDED, m, 0), [0, 0])
    ensures var user := Heap(map[0 := 0], map[], 1);
            && Traversed(user, Addr(0, 0), StepsTo(EMBEDDED, 0, [0, 0])).1 == Addr(1, 0)
            && ByIndexes(EMBEDDED, user, Addr(0, 0), 0, [0, 0]) == (user, None)
  {
    EmbeddedGood();
    EmbeddedPath();
    hide GoodEnv;
    EntriesListed(EMBEDDED, m, 0, [0, 0]);
    EmbeddedWalks();
  }

  lemma EmbeddedGood()
    ensures GoodEnv(EMBEDDED)
  {
  }

  lemma EmbeddedPath()
    ensures Listed(EMBEDDED, 0, [0, 0]) && GoodPath(EMBEDDED, 0, []) && GoodPath(EMBEDDED, 0, [0])
    ensures LastField(EMBEDDED, 0, [0]) == Field("base", 1, 0, false, true, NoTag)
    ensures LastField(EMBEDDED, 0, [0, 0]) == Field("ID", 3, 0, true, false, NoTag)
  {
    assert [0, 0][..1] == [0] && [0][..0] == [];
    assert Reached(EMBEDDED, 0, []) == Some(0);
    assert Reached(EMBEDDED, 0, [0]) == Some(2);
    assert Reached(EMBEDDED, 0, [0, 0]) == Some(3);
    assert Opened(EMBEDDED, 0, []);
  }

  lemma EmbeddedWalks()
    ensures GoodPath(EMBEDDED, 0, [0, 0])
    ensures var user := Heap(map[0 := 0], map[], 1);
            && Traversed(user, Addr(0, 0), StepsTo(EMBEDDED, 0, [0, 0])).1 == Addr(1, 0)
            && ByIndexes(EMBEDDED, user, Addr(0, 0), 0, [0, 0]) == (user, None)
  {
    EmbeddedPath();
    hide Reached, Opened, Listed;
    var user := Heap(map[0 := 0], map[], 1);
    assert [0, 0][..1] == [0] && [0][..0] == [];
    assert ByIndexes(EMBEDDED, user, Addr(0, 0), 0, []) == (user, Some(Addr(0, 0)));
    assert ByIndexes(EMBEDDED, user, Addr(0, 0), 0, [0]) == (user, None);
    TraversalIsSlot(EMBEDDED, user, Addr(0, 0), 0, [0, 0]);
    assert SlotOf(EMBEDDED, user, Addr(0, 0), 0, []) == (user, Addr(0, 0));
    assert SlotOf(EMBEDDED, user, Addr(0, 0), 0, [0]).1 == Addr(0, 0);
  }

  /** Location `v`, as a binding reads it, is the one destination `d` fills: the field
      itself, or the pointer to it. */
  ghost predicate Meets(env: Env, root: TypeId, index: seq<nat>, h: Heap, v: Addr, d: Dest)
    requires index != [] && GoodPath(env, root, index)
  {
    if IsPointer(env, LastField(env, root, index).typ) then v in h.slots && h.slots[v] == d.addr else v == d.addr
  }

  /** Once a column was given its destination, in every later heap that keeps the pointers
      the read-only walk for the same name finds that very location. */
  lemma BindReadsWhatScanFills(env: Env, m: Mapper, root: TypeId, name: string, i: nat, h: Heap, base: Addr,
                               cellType: TypeId, later: Heap)
    requires GoodEnv(env) && name in AddNames(map[], Entries(env, m, root))
    requires Closed(later) && base.obj in later.objs
    requires var names := AddNames(map[], Entries(env, m, root));
             KeepsPointers(FillOne(h, base, MetaFor(names, name, i), cellType).0, later)
    ensures var names := AddNames(map[], Entries(env, m, root));
            var index, d := names[name].index, FillOne(h, base, MetaFor(names, name, i), cellType).1;
            && index != [] && GoodPath(env, root, index)
            && ReadOnly(env, later, base, root, index).Found?
            && Meets(env, root, index, later, ReadOnly(env, later, base, root, index).a, d)
  {
    var log := Entries(env, m, root);
    var names := AddNames(map[], log);
    NamesComeFromLog(log, name);
    FlattenedFits(env, m, root, name, i);
    var fi := names[name];
    EntriesPlaced(env, m, root);
    hide GoodEnv, Entries, AddNames, Closed;
    if !fi.isPtrPath {
      StraightTraversal(env, h, base, root, fi.index);
    }
    AddressesStayValid(h, base, fi.traversal, later);
    TraversalIsSlot(env, later, base, root, fi.index);
    ReadOnlyAgrees(env, later, base, root, fi.index);
  }

  // ---- binding -----------------------------------------------------------------------------

  /** The record a struct offers to a binding: each name of its table, read where the
      read-only walk of that name ends, unless the value there is read-only. */
  function RecordOf<V>(env: Env, h: Heap, base: Addr, root: TypeId, names: NameTable, read: Value -> V)
    : (rec: SliceBind.Record<V>)
    requires forall n :: n in names ==> GoodPath(env, root, names[n].index)
  {
    SliceBind.Fields(map n | n in names ::
      if Restricted(env, root, names[n].index) then SliceBind.Sealed
      else SliceBind.Readable(read(ReadOnly(env, h, base, root, names[n].index))))
  }

  /** The name resolves, to an exported field. */
  predicate GivenOut(env: Env, root: TypeId, names: NameTable, n: string)
    requires n in names ==> names[n].index != [] && GoodPath(env, root, names[n].index)
  {
    n in names && LastField(env, root, names[n].index).exported
  }

  ghost predicate AllGivenOut(env: Env, root: TypeId, names: NameTable, ns: seq<string>)
    requires forall n :: n in names ==> names[n].index != [] && GoodPath(env, root, names[n].index)
  {
    forall k :: 0 <= k < |ns| ==> GivenOut(env, root, names, ns[k])
  }

  /** Some name resolves to an unexported field, and every name before it to an exported
      one. */
  ghost predicate MeetsUnexported(env: Env, root: TypeId, names: NameTable, ns: seq<string>)
    requires forall n :: n in names ==> names[n].index != [] && GoodPath(env, root, names[n].index)
  {
    exists k :: 0 <= k < |ns| && ns[k] in names && !GivenOut(env, root, names, ns[k])
      && AllGivenOut(env, root, names, ns[..k])
  }

  lemma TablePaths(env: Env, m: Mapper, root: TypeId)
    requires GoodEnv(env)
    ensures var names := AddNames(map[], Entries(env, m, root));
            forall n :: n in names ==>
              && names[n].index != [] && GoodPath(env, root, names[n].index)
              && (Restricted(env, root, names[n].index) <==> !GivenOut(env, root, names, n))
  {
    EntriesPlaced(env, m, root);
    forall n | n in AddNames(map[], Entries(env, m, root))
      ensures var fi := AddNames(map[], Entries(env, m, root))[n];
              && fi.index != [] && GoodPath(env, root, fi.index)
              && (Restricted(env, root, fi.index) <==> !LastField(env, root, fi.index).exported)
    {
      NamesComeFromLog(Entries(env, m, root), n);
      var fi := AddNames(map[], Entries(env, m, root))[n];
      EntryRestricted(env, m, root, fi, fi.index);
    }
  }

  /** What is wrong with a struct as a record, in terms of its type. */
  lemma RecordFaults<V>(env: Env, m: Mapper, root: TypeId, h: Heap, base: Addr, read: Value -> V, ns: seq<string>)
    requires GoodEnv(env)
    ensures var names := AddNames(map[], Entries(env, m, root));
            forall n :: n in names ==> names[n].index != [] && GoodPath(env, root, names[n].index)
    ensures var names := AddNames(map[], Entries(env, m, root));
            var rec := RecordOf(env, h, base, root, names, read);
            var fault := SliceBind.FirstFault(rec, ns);
            && (fault == None <==> AllGivenOut(env, root, names, ns))
            && (SliceBind.Offers(rec, ns) <==> AllGivenOut(env, root, names, ns))
            && fault != Some(SliceBind.NilPanics)
            && (fault.Some? && fault.value.FieldPanics? <==> MeetsUnexported(env, root, names, ns))
  {
    var names := AddNames(map[], Entries(env, m, root));
    TablePaths(env, m, root);
    RecordGives(env, m, root, h, base, read);
    hide GoodEnv, Entries, AddNames, Restricted, RecordOf, SliceBind.FirstFault, SliceBind.Offers;
    var rec := RecordOf(env, h, base, root, names, read);
    OffersGiven(env, root, names, rec, ns);
    if !SliceBind.Offers(rec, ns) {
      var i := SliceBind.DecidingName(rec, ns);
      OffersGiven(env, root, names, rec, ns[..i]);
      OffersGiven(env, root, names, rec, [ns[i]]);
      if k :| 0 <= k < |ns| && ns[k] in names && !GivenOut(env, root, names, ns[k])
              && AllGivenOut(env, root, names, ns[..k]) {
        OffersGiven(env, root, names, rec, ns[..k]);
        SliceBind.FirstFaultAt(rec, ns, k);
      }
    }
  }

  lemma RecordGives<V>(env: Env, m: Mapper, root: TypeId, h: Heap, base: Addr, read: Value -> V)
    requires GoodEnv(env)
    ensures var names := AddNames(map[], Entries(env, m, root));
            forall n :: n in names ==> names[n].index != [] && GoodPath(env, root, names[n].index)
    ensures var names := AddNames(map[], Entries(env, m, root));
            Gives(env, root, names, RecordOf(env, h, base, root, names, read))
  {
    TablePaths(env, m, root);
    hide GoodEnv, Entries, AddNames, Restricted, ReadOnly;
  }

  /** The record has the names of the table, and those of unexported fields are sealed. */
  ghost predicate Gives<V>(env: Env, root: TypeId, names: NameTable, rec: SliceBind.Record<V>)
    requires forall n :: n in names ==> names[n].index != [] && GoodPath(env, root, names[n].index)
  {
    && rec.Fields? && rec.values.Keys == names.Keys
    && forall n :: n in names ==> (rec.values[n].Readable? <==> GivenOut(env, root, names, n))
  }

  lemma OffersGiven<V>(env: Env, root: TypeId, names: NameTable, rec: SliceBind.Record<V>, ns: seq<string>)
    requires forall n :: n in names ==> names[n].index != [] && GoodPath(env, root, names[n].index)
    requires Gives(env, root, names, rec)
    ensures SliceBind.Offers(rec, ns) <==> AllGivenOut(env, root, names, ns)
  {
    forall k | 0 <= k < |ns|
      ensures GivenOut(env, root, names, ns[k]) <==> ns[k] in rec.values && rec.values[ns[k]].Readable?
    {
      assert ns[k] in rec.values.Keys <==> ns[k] in names.Keys;
    }
  }

  /** Binding a struct. It succeeds if and only if the query compiles and every name
      resolves to an exported field; argument `k` is then read where a scan of the column
      of that name would have put it. It panics if and only if the query compiles, some
      name resolves to an unexported field, and every name before it to an exported one. */
  lemma StructBindingReads<V>(env: Env, m: Mapper, root: TypeId, h: Heap, base: Addr, read: Value -> V,
                              bt: Text.BindType, q: string)
    requires GoodEnv(env)
    ensures var names := AddNames(map[], Entries(env, m, root));
            forall n :: n in names ==> names[n].index != [] && GoodPath(env, root, names[n].index)
    ensures var names := AddNames(map[], Entries(env, m, root));
            var b := SliceBind.StructSpec(bt, q, RecordOf(env, h, base, root, names, read));
            var c := NamedQuery.Compile(q, bt);
            && (b.Bound? <==> c.Compiled? && AllGivenOut(env, root, names, c.names))
            && (b.Refused? && b.e.FieldPanics? <==> c.Compiled? && MeetsUnexported(env, root, names, c.names))
            && (b.Bound? ==>
                  && b.query == c.query && |b.args| == |c.names|
                  && forall k :: 0 <= k < |c.names| ==>
                       && c.names[k] in names
                       && b.args[k] == read(ReadOnly(env, h, base, root, names[c.names[k]].index)))
  {
    TablePaths(env, m, root);
    RecordFaults(env, m, root, h, base, read, NamedQuery.Compile(q, bt).names);
    hide GoodEnv, Entries, AddNames, NamedQuery.Compile, ReadOnly, Restricted;
  }

  // ---- a slice of structs ------------------------------------------------------------------

  /** The elements of a slice of structs, or of pointers to structs, some of them nil. */
  function RecordsOf<V>(env: Env, h: Heap, bases: seq<Option<Addr>>, root: TypeId, names: NameTable, read: Value -> V)
    : (rows: seq<SliceBind.Record<V>>)
    requires forall n :: n in names ==> GoodPath(env, root, names[n].index)
  {
    seq(|bases|, i requires 0 <= i < |bases| =>
      if bases[i].None? then SliceBind.NilPointer else RecordOf(env, h, bases[i].value, root, names, read))
  }

  ghost predicate NoNil(bases: seq<Option<Addr>>) {
    forall i :: 0 <= i < |bases| ==> bases[i].Some?
  }

  /** A record of the slice, and what is wrong with it, if anything is. */
  ghost predicate RowTold<V>(env: Env, root: TypeId, names: NameTable, rec: SliceBind.Record<V>, ns: seq<string>)
    requires forall n :: n in names ==> names[n].index != [] && GoodPath(env, root, names[n].index)
  {
    var fault := SliceBind.FirstFault(rec, ns);
    if rec.NilPointer? then fault == Some(SliceBind.NilPanics) && !SliceBind.Offers(rec, ns)
    else
      && (SliceBind.Offers(rec, ns) <==> AllGivenOut(env, root, names, ns))
      && (fault == None <==> AllGivenOut(env, root, names, ns))
      && fault != Some(SliceBind.NilPanics)
      && (fault.Some? && fault.value.FieldPanics? <==> MeetsUnexported(env, root, names, ns))
  }

  lemma RowsAreTold<V>(env: Env, m: Mapper, root: TypeId, h: Heap, bases: seq<Option<Addr>>, read: Value -> V,
                       ns: seq<string>, i: nat)
    requires GoodEnv(env) && i < |bases|
    ensures var names := AddNames(map[], Entries(env, m, root));
            forall n :: n in names ==> names[n].index != [] && GoodPath(env, root, names[n].index)
    ensures var names := AddNames(map[], Entries(env, m, root));
            var rec := RecordsOf(env, h, bases, root, names, read)[i];
            (rec.NilPointer? <==> bases[i].None?) && RowTold(env, root, names, rec, ns)
  {
    TablePaths(env, m, root);
    if bases[i].Some? {
      RecordFaults(env, m, root, h, bases[i].value, read, ns);
    }
    hide GoodEnv, Entries, AddNames, SliceBind.Offers, MeetsUnexported, AllGivenOut, ReadOnly, Restricted;
  }

  /** The element that decides is the first nil one or, if the names are not all given out,
      the first of all. */
  lemma RowFaults<V>(env: Env, m: Mapper, root: TypeId, h: Heap, bases: seq<Option<Addr>>, read: Value -> V,
                     ns: seq<string>)
    requires GoodEnv(env) && bases != []
    ensures var names := AddNames(map[], Entries(env, m, root));
            forall n :: n in names ==> names[n].index != [] && GoodPath(env, root, names[n].index)
    ensures var names := AddNames(map[], Entries(env, m, root));
            var fault := SliceBind.FirstFaultInRows(RecordsOf(env, h, bases, root, names, read), ns);
            && (fault == None <==> NoNil(bases) && AllGivenOut(env, root, names, ns))
            && (fault == Some(SliceBind.NilPanics) <==>
                  bases[0].None? || (!NoNil(bases) && AllGivenOut(env, root, names, ns)))
            && (fault.Some? && fault.value.FieldPanics? <==>
                  bases[0].Some? && MeetsUnexported(env, root, names, ns))
  {
    TablePaths(env, m, root);
    NotBoth(env, m, root, ns);
    hide GoodEnv, Entries, AddNames, RecordsOf, SliceBind.Offers, MeetsUnexported, AllGivenOut, SliceBind.FirstFault,
         SliceBind.FirstFaultInRows;
    var names := AddNames(map[], Entries(env, m, root));
    var rows := RecordsOf(env, h, bases, root, names, read);
    SameLength(env, h, bases, root, names, read);
    forall i | 0 <= i < |bases|
      ensures (rows[i].NilPointer? <==> bases[i].None?) && RowTold(env, root, names, rows[i], ns)
    {
      RowsAreTold(env, m, root, h, bases, read, ns, i);
    }
    if bases[0].None? || !AllGivenOut(env, root, names, ns) {
      FaultOfRow(rows, ns, 0);
    } else if !NoNil(bases) {
      var i := FirstNil(bases);
      FaultOfRow(rows, ns, i);
    }
  }

  lemma SameLength<V>(env: Env, h: Heap, bases: seq<Option<Addr>>, root: TypeId, names: NameTable, read: Value -> V)
    requires forall n :: n in names ==> GoodPath(env, root, names[n].index)
    ensures |RecordsOf(env, h, bases, root, names, read)| == |bases|
  {
    hide Restricted, ReadOnly;
  }

  lemma NotBoth(env: Env, m: Mapper, root: TypeId, ns: seq<string>)
    requires GoodEnv(env)
    ensures var names := AddNames(map[], Entries(env, m, root));
            forall n :: n in names ==> names[n].index != [] && GoodPath(env, root, names[n].index)
    ensures var names := AddNames(map[], Entries(env, m, root));
            MeetsUnexported(env, root, names, ns) ==> !AllGivenOut(env, root, names, ns)
  {
    TablePaths(env, m, root);
  }

  lemma {:induction false} FirstNil(bases: seq<Option<Addr>>) returns (i: nat)
    requires !NoNil(bases)
    ensures i < |bases| && bases[i].None? && forall k :: 0 <= k < i ==> bases[k].Some?
  {
    i := 0;
    while bases[i].Some?
      invariant i < |bases| && forall k :: 0 <= k < i ==> bases[k].Some?
      decreases |bases| - i
    {
      assert exists k :: i < k < |bases| && bases[k].None?;
      i := i + 1;
    }
  }

  lemma FaultOfRow<V>(rows: seq<SliceBind.Record<V>>, ns: seq<string>, i: nat)
    requires i < |rows| && SliceBind.FirstFault(rows[i], ns).Some?
    requires forall k :: 0 <= k < i ==> SliceBind.Offers(rows[k], ns)
    ensures SliceBind.FirstFaultInRows(rows, ns) == SliceBind.FirstFault(rows[i], ns)
  {
    SliceBind.FirstFaultInRowsAt(rows, ns, i);
  }

  /** Binding a slice of structs. After the checks on the query it panics on an unexported
      field if and only if its first element is not nil and the names meet one; it panics on
      a nil element if and only if that is the first, or the names are all given out. It
      succeeds if and only if no element is nil, every name resolves to an exported field,
      and the placeholders are in parentheses. */
  lemma SliceBindingReads<V>(env: Env, m: Mapper, root: TypeId, h: Heap, bases: seq<Option<Addr>>, read: Value -> V,
                             bt: Text.BindType, q: string)
    requires GoodEnv(env)
    ensures var names := AddNames(map[], Entries(env, m, root));
            forall n :: n in names ==> names[n].index != [] && GoodPath(env, root, names[n].index)
    ensures var names := AddNames(map[], Entries(env, m, root));
            var b, c := SliceBind.SliceSpec(bt, q, RecordsOf(env, h, bases, root, names, read)),
                        NamedQuery.Compile(q, Text.Question);
            var checked := bases != [] && c.Compiled? && c.names != [];
            && (b.Bound? <==>
                  checked && NoNil(bases) && AllGivenOut(env, root, names, c.names) && SliceBind.HasGroup(c.query))
            && (b == SliceBind.Refused(SliceBind.NilPanics) <==>
                  checked && (bases[0].None? || (!NoNil(bases) && AllGivenOut(env, root, names, c.names))))
            && (b.Refused? && b.e.FieldPanics? <==>
                  checked && bases[0].Some? && MeetsUnexported(env, root, names, c.names))
  {
    TablePaths(env, m, root);
    if bases != [] {
      RowFaults(env, m, root, h, bases, read, NamedQuery.Compile(q, Text.Question).names);
    }
    hide GoodEnv, Entries, AddNames, NamedQuery.Compile, RecordOf, MeetsUnexported, AllGivenOut, SliceBind.Offers,
         SliceBind.FirstFaultInRows, SliceBind.HasGroup, SliceBind.Cloned, SliceBind.RowValues;
  }

  /** A slice element that is itself a Go map has a type without fields, so it offers no
      name: a binding with a parameter refuses it. */
  lemma MapElementsOfferNothing<V>(env: Env, m: Mapper, root: TypeId, h: Heap, base: Addr, read: Value -> V,
                                   names: seq<string>)
    requires GoodEnv(env) && !IsStruct(env, root) && names != []
    ensures AddNames(map[], Entries(env, m, root)) == map[]
    ensures SliceBind.FirstFaultInRows([RecordOf(env, h, base, root, map[], read)], names)
         == Some(SliceBind.NotFound(names[0]))
  {
  }

  // ---- a struct that can be scanned but not bound -----------------------------------------

  /** `type code string` and `type Row struct{ code }`. */
  const CODE: Env := map[
    0 := TypeInfo(Struct([Field("code", 1, 0, false, true, NoTag)]), 16, false, 1),
    1 := TypeInfo(Plain, 16, false, 0)]

  /** The column `code` is read into the field, and binding `:code` panics. */
  lemma EmbeddedValuePanics(h: Heap, base: Addr)
    ensures GoodEnv(CODE) && GoodPath(CODE, 0, [0])
    ensures var names := AddNames(map[], Entries(CODE, Mapper((s: string) => s, None), 0));
            && names.Keys == {"code"} && names["code"].index == [0]
            && FillOne(h, base, MetaFor(names, "code", 0), 1) == (h, Dest(Shift(base, 0), 1))
            && SliceBind.StructSpec(Text.Question, ":code", RecordOf(CODE, h, base, 0, names, (v: Value) => v))
               == SliceBind.Refused(SliceBind.FieldPanics("code"))
  {
    CodeGood();
    var m := Mapper((s: string) => s, None);
    var names := AddNames(map[], Entries(CODE, m, 0));
    CodeEntries(m);
    hide GoodEnv, Entries, AddNames;
    assert [0][..0] == [];
    assert Reached(CODE, 0, []) == Some(0);
    assert LastField(CODE, 0, [0]) == Field("code", 1, 0, false, true, NoTag);
    NameCompiles();
    var rec := RecordOf(CODE, h, base, 0, names, (v: Value) => v);
    SliceBind.FirstFaultAt(rec, ["code"], 0);
  }

  lemma CodeGood()
    ensures GoodEnv(CODE)
  {
  }

  lemma CodeEntries(m: Mapper)
    requires m == Mapper((s: string) => s, None)
    ensures GoodEnv(CODE)
    ensures AddNames(map[], Entries(CODE, m, 0))
         == map["code" := FieldInfo([0], "code", "code", false, [Step(0, None)], 0, 1, false)]
  {
    CodeGood();
    hide GoodEnv, Entries, AddNames;
    var f := CODE[0].shape.fields[0];
    assert [] + [0] == [0] && [] + [Step(0, None)] == [Step(0, None)];
    OneFieldTable(CODE, m, 0, f);
  }

  lemma NameCompiles()
    ensures NamedQuery.Compile(":code", Text.Question) == NamedQuery.Compiled("?", ["code"])
  {
    var ps := [NamedQueryLaws.Name("code")];
    assert ps[1..] == [];
    assert NamedQueryLaws.TemplateSource(ps) == ":" + "code" + "" == ":code";
    NamedQueryLaws.TemplateRoundTrip(ps, Text.Question);
  }
}
