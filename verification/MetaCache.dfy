/** The metadata cache. Its key holds the type, a hash of the column bytes and the unsafe
    flag; the columns stored with an entry decide whether it may be used. */
module MetaCache {
  import opened Text
  import opened Types
  import opened Flatten
  import opened FlattenLaws
  import opened ScanMeta
  import opened ScanLaws

  const FNV_OFFSET: bv64 := 14695981039346656037
  const FNV_PRIME: bv64 := 1099511628211

  function Mix(hash: bv64, c: char): bv64 {
    (hash ^ (c as bv64)) * FNV_PRIME
  }

  function HashBytes(hash: bv64, s: string): bv64 {
    if s == "" then hash else Mix(HashBytes(hash, s[..|s| - 1]), s[|s| - 1])
  }

  function Joined(columns: seq<string>): string {
    if columns == [] then "" else Joined(columns[..|columns| - 1]) + columns[|columns| - 1]
  }

  lemma {:induction false} HashConcat(hash: bv64, s: string, t: string)
    ensures HashBytes(hash, s + t) == HashBytes(HashBytes(hash, s), t)
  {
    hide Mix;
    if t == "" {
      assert s + t == s;
    } else {
      HashConcat(hash, s, t[..|t| - 1]);
      assert (s + t)[..|s + t| - 1] == s + t[..|t| - 1];
    }
  }

  /** The hash sees only the bytes, not where one column ends and the next begins. */
  method HashColumns(columns: seq<string>) returns (hash: bv64)
    ensures hash == HashBytes(FNV_OFFSET, Joined(columns))
  {
    hide Mix;
    hash := FNV_OFFSET;
    for k := 0 to |columns|
      invariant hash == HashBytes(FNV_OFFSET, Joined(columns[..k]))
    {
      var col := columns[k];
      ghost var before := hash;
      for i := 0 to |col|
        invariant hash == HashBytes(before, col[..i])
      {
        assert col[..i + 1][..i] == col[..i];
        hash := Mix(hash, col[i]);
      }
      assert col[..|col|] == col && columns[..k + 1][..k] == columns[..k];
      HashConcat(FNV_OFFSET, Joined(columns[..k]), col);
    }
    assert columns[..|columns|] == columns;
  }

  /** The hash is FNV-1a: its published value for the one-byte text `a`. */
  lemma HashOfA()
    ensures HashBytes(FNV_OFFSET, Joined(["a"])) == 0xaf63dc4c8601ec8c
  {
    assert ["a"][..0] == [] && "" + "a" == "a" && "a"[..0] == "";
    assert Joined(["a"]) == "a";
    assert ('a' as bv64) == 97;
    assert HashBytes(FNV_OFFSET, "") == FNV_OFFSET;
    assert (FNV_OFFSET ^ 97) * FNV_PRIME == 0xaf63dc4c8601ec8c;
  }

  /** Different column lists really collide. */
  lemma ColumnsCollide()
    ensures ["ab", "c"] != ["a", "bc"]
    ensures HashBytes(FNV_OFFSET, Joined(["ab", "c"])) == HashBytes(FNV_OFFSET, Joined(["a", "bc"]))
  {
    assert ["ab", "c"][..1] == ["ab"] && ["a", "bc"][..1] == ["a"] && ["ab"][..0] == [] && ["a"][..0] == [];
    assert Joined(["ab", "c"]) == "" + "ab" + "c" == "abc" == "" + "a" + "bc" == Joined(["a", "bc"]);
    assert |["ab", "c"][0]| != |["a", "bc"][0]|;
  }

  datatype Key = Key(t: TypeId, hash: bv64, isUnsafe: bool)

  datatype Entry = Entry(columns: seq<string>, ms: seq<FieldMeta>)

  type Store = map<Key, Entry>

  /** One call: the type, its name table, the columns and the unsafe flag. */
  datatype Call = Call(t: TypeId, names: NameTable, columns: seq<string>, isUnsafe: bool)

  function KeyOf(c: Call): Key {
    Key(c.t, HashBytes(FNV_OFFSET, Joined(c.columns)), c.isUnsafe)
  }

  predicate Hit(cache: Store, c: Call) {
    KeyOf(c) in cache && cache[KeyOf(c)].columns == c.columns
  }

  function Answer(cache: Store, c: Call): MetaResult {
    if Hit(cache, c) then Meta(cache[KeyOf(c)].ms) else Uncached(c.names, c.columns, c.isUnsafe)
  }

  /** A miss stores its result, replacing an entry that collides; an error is not stored. */
  function After(cache: Store, c: Call): Store {
    match Uncached(c.names, c.columns, c.isUnsafe)
    case Meta(ms) => if Hit(cache, c) then cache else cache[KeyOf(c) := Entry(c.columns, ms)]
    case Missing(_) => cache
  }

  method SameColumns(a: seq<string>, b: seq<string>) returns (same: bool)
    ensures same <==> a == b
  {
    if |a| != |b| {
      return false;
    }
    for i := 0 to |b|
      invariant forall k :: 0 <= k < i ==> a[k] == b[k]
    {
      if a[i] != b[i] {
        return false;
      }
    }
    same := true;
  }

  class MetaCache {
    var entries: Store

    constructor ()
      ensures entries == map[]
    {
      entries := map[];
    }

    /** What the cached metadata of a type was computed from. */
    ghost predicate Valid(tables: TypeId -> NameTable)
      reads this
    {
      Faithful(entries, tables)
    }

    method BuildMeta(t: TypeId, columns: seq<string>, names: NameTable, isUnsafe: bool,
                     ghost tables: TypeId -> NameTable)
      returns (r: MetaResult)
      requires Valid(tables) && names == tables(t)
      modifies this
      ensures Valid(tables) && r == Uncached(names, columns, isUnsafe)
      ensures r == Answer(old(entries), Call(t, names, columns, isUnsafe))
      ensures entries == After(old(entries), Call(t, names, columns, isUnsafe))
    {
      FaithfulStep(entries, tables, Call(t, names, columns, isUnsafe));
      hide Uncached, Faithful;
      var hash := HashColumns(columns);
      var key := Key(t, hash, isUnsafe);
      if key in entries {
        var cached := entries[key];
        var same := SameColumns(cached.columns, columns);
        if same {
          return Meta(cached.ms);
        }
      }
      r := ComputeMeta(names, columns, isUnsafe);
      if r.Meta? {
        entries := entries[key := Entry(columns, r.ms)];
      }
    }
  }

  // ---- transparency over whole runs --------------------------------------------------------

  /** Every entry is what the one name table of its type gives for its columns. */
  ghost predicate Faithful(cache: Store, tables: TypeId -> NameTable) {
    forall k :: k in cache ==> Meta(cache[k].ms) == Uncached(tables(k.t), cache[k].columns, k.isUnsafe)
  }

  lemma FaithfulStep(cache: Store, tables: TypeId -> NameTable, c: Call)
    requires Faithful(cache, tables) && c.names == tables(c.t)
    ensures Answer(cache, c) == Uncached(c.names, c.columns, c.isUnsafe)
    ensures Faithful(After(cache, c), tables)
  {
  }

  function Answers(cache: Store, calls: seq<Call>): seq<MetaResult>
    decreases |calls|
  {
    if calls == [] then [] else [Answer(cache, calls[0])] + Answers(After(cache, calls[0]), calls[1..])
  }

  /** In any run in which each type always comes with the same name table, every answer,
      errors included, is the one no cache would have given, whatever collides. */
  lemma {:induction false} CacheIsTransparent(cache: Store, tables: TypeId -> NameTable, calls: seq<Call>)
    requires Faithful(cache, tables)
    requires forall i :: 0 <= i < |calls| ==> calls[i].names == tables(calls[i].t)
    ensures |Answers(cache, calls)| == |calls|
    ensures forall i :: 0 <= i < |calls| ==>
              Answers(cache, calls)[i] == Uncached(calls[i].names, calls[i].columns, calls[i].isUnsafe)
    decreases |calls|
  {
    hide Uncached, Answer, After, KeyOf;
    if calls != [] {
      FaithfulStep(cache, tables, calls[0]);
      CacheIsTransparent(After(cache, calls[0]), tables, calls[1..]);
      forall i | 0 <= i < |calls|
        ensures Answers(cache, calls)[i] == Uncached(calls[i].names, calls[i].columns, calls[i].isUnsafe)
      {
        if i > 0 {
          assert calls[i] == calls[1..][i - 1];
        }
      }
    }
  }

  // ---- two mappers ---------------------------------------------------------------------------

  /** Two name tables give the columns the same metadata. */
  ghost predicate AgreeOn(first: NameTable, second: NameTable, columns: seq<string>) {
    forall i :: 0 <= i < |columns| ==> MetaFor(first, columns[i], i) == MetaFor(second, columns[i], i)
  }

  /** Sorting forgets nothing: from the sorted metadata each column's can be read off. */
  lemma SortedDetermines(first: NameTable, second: NameTable, columns: seq<string>)
    requires Sorted(ColumnMetas(first, columns)) == Sorted(ColumnMetas(second, columns))
    ensures AgreeOn(first, second, columns)
  {
    hide Sorted, ColumnMetas;
    ColumnsOnce(first, columns);
    ColumnsOnce(second, columns);
    var ms := Sorted(ColumnMetas(first, columns));
    forall i | 0 <= i < |columns|
      ensures MetaFor(first, columns[i], i) == MetaFor(second, columns[i], i)
    {
      assert MetaFor(first, columns[i], i) in ms;
      var k :| 0 <= k < |ms| && ms[k] == MetaFor(first, columns[i], i);
      assert ms[k].colIndex == i;
    }
  }

  lemma AgreeingMetas(first: NameTable, second: NameTable, columns: seq<string>)
    requires AgreeOn(first, second, columns)
    ensures ColumnMetas(first, columns) == ColumnMetas(second, columns)
  {
  }

  /** The key holds no mapper. After a first call that succeeds, a second call for the same
      type and columns with another name table is answered right if and only if the two
      tables give every column the same metadata and, in safe mode, the second knows every
      column. */
  lemma TwoMappersShareEntries(t: TypeId, columns: seq<string>, isUnsafe: bool, first: NameTable, second: NameTable)
    requires Uncached(first, columns, isUnsafe).Meta?
    ensures var calls := [Call(t, first, columns, isUnsafe), Call(t, second, columns, isUnsafe)];
            && |Answers(map[], calls)| == 2
            && (Answers(map[], calls)[1] == Uncached(second, columns, isUnsafe)
                <==> AgreeOn(first, second, columns)
                     && (isUnsafe || forall i :: 0 <= i < |columns| ==> columns[i] in second))
  {
    SecondAnswer(t, columns, isUnsafe, first, second);
    hide Answers, Sorted, ColumnMetas;
    if isUnsafe || Known(second, columns) == |columns| {
      if AgreeOn(first, second, columns) {
        AgreeingMetas(first, second, columns);
      }
      if Sorted(ColumnMetas(first, columns)) == Sorted(ColumnMetas(second, columns)) {
        SortedDetermines(first, second, columns);
      }
    }
  }

  lemma SecondAnswer(t: TypeId, columns: seq<string>, isUnsafe: bool, first: NameTable, second: NameTable)
    requires Uncached(first, columns, isUnsafe).Meta?
    ensures var calls := [Call(t, first, columns, isUnsafe), Call(t, second, columns, isUnsafe)];
            |Answers(map[], calls)| == 2 && Answers(map[], calls)[1] == Uncached(first, columns, isUnsafe)
  {
    hide Uncached;
    var a, b := Call(t, first, columns, isUnsafe), Call(t, second, columns, isUnsafe);
    var calls := [a, b];
    assert calls[1..] == [b] && [b][1..] == [];
    assert KeyOf(a) == KeyOf(b);
    var cache := After(map[], a);
    assert Answers(map[], calls) == [Answer(map[], a)] + ([Answer(cache, b)] + Answers(After(cache, b), []));
    assert Hit(cache, b);
  }

  /** A struct of two fields `A` and `B`. */
  const TWO_FIELDS: Env := map[
    0 := TypeInfo(Struct([Field("A", 1, 0, true, false, NoTag), Field("B", 1, 8, true, false, NoTag)]), 16, false, 1),
    1 := TypeInfo(Plain, 8, false, 0)]

  const STRAIGHT := Mapper((s: string) => if s == "A" then "a" else "b", None)
  const SWAPPED := Mapper((s: string) => if s == "A" then "b" else "a", None)

  lemma TwoFieldsGood()
    ensures GoodEnv(TWO_FIELDS)
  {
  }

  lemma FieldOfA(m: Mapper)
    requires m == STRAIGHT || m == SWAPPED
    ensures GoodEnv(TWO_FIELDS)
    ensures var names := AddNames(map[], Entries(TWO_FIELDS, m, 0));
            "a" in names && names["a"].offset == if m == STRAIGHT then 0 else 8
  {
    TwoFieldsGood();
    hide GoodEnv, Entries, AddNames;
    var fields := TWO_FIELDS[0].shape.fields;
    TwoFieldTable(TWO_FIELDS, m, 0, fields[0], fields[1]);
  }

  /** One struct flattened under two mappers that swap its names: the second caller, who
      asks for column `a`, reads into the field the first one calls `a`. */
  lemma TwoMappersDisagree()
    ensures GoodEnv(TWO_FIELDS)
    ensures var f := AddNames(map[], Entries(TWO_FIELDS, STRAIGHT, 0));
            var g := AddNames(map[], Entries(TWO_FIELDS, SWAPPED, 0));
            var calls := [Call(0, f, ["a"], false), Call(0, g, ["a"], false)];
            |Answers(map[], calls)| == 2 && Answers(map[], calls)[1] != Uncached(g, ["a"], false)
  {
    FieldOfA(STRAIGHT);
    FieldOfA(SWAPPED);
    assert STRAIGHT != SWAPPED by {
      assert STRAIGHT.mapName("A") != SWAPPED.mapName("A");
    }
    hide GoodEnv, Entries, AddNames;
    var f, g := AddNames(map[], Entries(TWO_FIELDS, STRAIGHT, 0)), AddNames(map[], Entries(TWO_FIELDS, SWAPPED, 0));
    assert Known(f, ["a"]) == 1;
    TwoMappersShareEntries(0, ["a"], false, f, g);
    assert MetaFor(f, ["a"][0], 0) != MetaFor(g, ["a"][0], 0);
  }

  // ---- without a lock ------------------------------------------------------------------------

  /** Where a caller stands between the cache's atomic loads and stores. */
  datatype Pc =
    | Loading(c: Call)
    | Computing(c: Call)
    | Storing(c: Call, ms: seq<FieldMeta>)
    | Done(c: Call, r: MetaResult)

  datatype State = State(cache: Store, pcs: map<nat, Pc>)

  /** The next step of caller `p`: one load, one computation, or one store. */
  function Moved(s: State, p: nat): Option<State>
    requires p in s.pcs
  {
    match s.pcs[p]
    case Loading(c) =>
      Some(s.(pcs := s.pcs[p := if Hit(s.cache, c) then Done(c, Meta(s.cache[KeyOf(c)].ms)) else Computing(c)]))
    case Computing(c) =>
      Some(s.(pcs := s.pcs[p := match Uncached(c.names, c.columns, c.isUnsafe)
                                case Meta(ms) => Storing(c, ms)
                                case Missing(col) => Done(c, Missing(col))]))
    case Storing(c, ms) =>
      Some(State(s.cache[KeyOf(c) := Entry(c.columns, ms)], s.pcs[p := Done(c, Meta(ms))]))
    case Done(_, _) => None
  }

  ghost predicate Stepped(tables: TypeId -> NameTable, s: State, s': State) {
    || (exists p :: p in s.pcs && Moved(s, p) == Some(s'))
    || (exists p: nat, c: Call :: p !in s.pcs && c.names == tables(c.t) && s' == s.(pcs := s.pcs[p := Loading(c)]))
  }

  /** A run: any number of callers, their steps interleaved in any way. */
  ghost predicate IsRun(tables: TypeId -> NameTable, run: seq<State>) {
    && run != [] && run[0] == State(map[], map[])
    && forall i :: 0 < i < |run| ==> Stepped(tables, run[i - 1], run[i])
  }

  ghost predicate PcFaithful(tables: TypeId -> NameTable, pc: Pc) {
    && pc.c.names == tables(pc.c.t)
    && (pc.Storing? ==> Meta(pc.ms) == Uncached(pc.c.names, pc.c.columns, pc.c.isUnsafe))
    && (pc.Done? ==> pc.r == Uncached(pc.c.names, pc.c.columns, pc.c.isUnsafe))
  }

  ghost predicate StateFaithful(tables: TypeId -> NameTable, s: State) {
    Faithful(s.cache, tables) && forall p :: p in s.pcs ==> PcFaithful(tables, s.pcs[p])
  }

  lemma MoveKeepsFaithful(tables: TypeId -> NameTable, s: State, p: nat, s': State)
    requires StateFaithful(tables, s) && p in s.pcs && Moved(s, p) == Some(s')
    ensures StateFaithful(tables, s')
  {
    hide Uncached;
    assert PcFaithful(tables, s.pcs[p]);
  }

  /** In every interleaving in which each type always comes with the same name table, every
      caller that is done holds the answer no cache would have given. */
  lemma {:induction false} RacesAreTransparent(tables: TypeId -> NameTable, run: seq<State>, i: nat)
    requires IsRun(tables, run) && i < |run|
    ensures StateFaithful(tables, run[i])
    ensures forall p :: p in run[i].pcs && run[i].pcs[p].Done? ==>
              var pc := run[i].pcs[p];
              pc.r == Uncached(pc.c.names, pc.c.columns, pc.c.isUnsafe)
  {
    hide Uncached;
    if i > 0 {
      RacesAreTransparent(tables, run, i - 1);
      var s := run[i - 1];
      assert Stepped(tables, s, run[i]);
      if p :| p in s.pcs && Moved(s, p) == Some(run[i]) {
        MoveKeepsFaithful(tables, s, p, run[i]);
      }
    }
    assert forall p :: p in run[i].pcs ==> PcFaithful(tables, run[i].pcs[p]);
  }
}
