/** What tags, flags and types of fields do to the tables of a type, told by the fields
    themselves: which fields are listed, below which nothing is, and what they are called. */
module TagLaws {
  import opened Text
  import opened Types
  import opened Flatten
  import opened FlattenLaws

  /** The field's name is the one in its tag, or what the tag mapping makes of it; without
      such a name, what the naming function makes of its Go name. */
  ghost predicate NamedBy(m: Mapper, f: Field, name: string) {
    match f.tag
    case Tagged(s) =>
      if s == "" then name == m.mapName(f.name)
      else if m.tagMap.None? then name == s
      else if m.tagMap.value(s) == "" then name == m.mapName(f.name)
      else name == m.tagMap.value(s)
    case _ => name == m.mapName(f.name)
  }

  /** The type is a struct that does not scan itself. */
  predicate OpenStruct(env: Env, t: TypeId) {
    t in env && env[t].shape.Struct? && !env[t].scanner
  }

  /** What a field is or points to. */
  predicate Opens(env: Env, f: Field) {
    if f.typ in env && env[f.typ].shape.Pointer? then OpenStruct(env, env[f.typ].shape.elem) else OpenStruct(env, f.typ)
  }

  /** An embedded open struct without a tag gives its fields to the struct around it and has
      no name of its own. */
  predicate Dissolved(env: Env, f: Field) {
    f.anonymous && f.tag == NoTag && Opens(env, f)
  }

  predicate Shown(f: Field) {
    f.tag != Dash && (f.exported || f.anonymous)
  }

  // ---- which fields ------------------------------------------------------------------------

  /** Field `index` can be looked up: every field on its path is shown, every one above it
      opens, no type is met twice above it, and it is not dissolved itself. */
  ghost predicate Visible(env: Env, root: TypeId, index: seq<nat>) {
    && index != [] && GoodPath(env, root, index) && IsStruct(env, root)
    && (forall p :: p <= index && p != [] && GoodPath(env, root, p) ==> Shown(LastField(env, root, p)))
    && (forall p :: p < index && p != [] && GoodPath(env, root, p) ==> Opens(env, LastField(env, root, p)))
    && (forall p, q :: p < q < index && GoodPath(env, root, p) && GoodPath(env, root, q) ==>
          TypeAt(env, root, p) != TypeAt(env, root, q))
    && !Dissolved(env, LastField(env, root, index))
  }

  /** The same for what lies above: all fields up to `index` are shown and open. */
  ghost predicate OpenPath(env: Env, root: TypeId, index: seq<nat>) {
    && GoodPath(env, root, index) && IsStruct(env, root)
    && (forall p :: p <= index && p != [] && GoodPath(env, root, p) ==>
          Shown(LastField(env, root, p)) && Opens(env, LastField(env, root, p)))
    && (forall p, q :: p < q <= index && GoodPath(env, root, p) && GoodPath(env, root, q) ==>
          TypeAt(env, root, p) != TypeAt(env, root, q))
  }

  lemma {:induction false} TypesAlongAre(env: Env, root: TypeId, index: seq<nat>, t: TypeId)
    requires GoodPath(env, root, index)
    ensures t in TypesAlong(env, root, index)
       <==> exists p :: p <= index && GoodPath(env, root, p) && TypeAt(env, root, p) == t
  {
    if index == [] {
      assert index <= index;
      assert forall p :: p <= [] && GoodPath(env, root, p) ==> p == [];
    } else {
      var up := index[..|index| - 1];
      TypesAlongAre(env, root, up, t);
      PrefixesOf(env, root, index);
      if t in TypesAlong(env, root, index) && t !in TypesAlong(env, root, up) {
        assert index <= index && TypeAt(env, root, index) == t;
      }
    }
  }

  /** The prefixes of a path are itself and those of the path above. */
  lemma PrefixesOf(env: Env, root: TypeId, index: seq<nat>)
    requires GoodPath(env, root, index) && index != []
    ensures forall p :: GoodPath(env, root, p) ==> (p <= index <==> p == index || p <= index[..|index| - 1])
  {
    var up := index[..|index| - 1];
    forall p | GoodPath(env, root, p)
      ensures p <= index <==> p == index || p <= up
    {
      if p <= index && |p| < |index| {
        assert p == up[..|p|];
      }
    }
  }

  lemma {:induction false} OpenedIsOpenPath(env: Env, root: TypeId, index: seq<nat>)
    ensures Opened(env, root, index) <==> OpenPath(env, root, index)
  {
    if GoodPath(env, root, index) {
      if index == [] {
        assert forall p :: p <= [] && GoodPath(env, root, p) ==> p == [];
      } else {
        var up := index[..|index| - 1];
        OpenedIsOpenPath(env, root, up);
        PrefixesOf(env, root, index);
        TypesAlongAre(env, root, up, TypeAt(env, root, index));
        NestedOpens(env, LastField(env, root, index));
        OpenPathStep(env, root, index);
      }
    }
  }

  lemma NestedOpens(env: Env, f: Field)
    ensures Nested(env, f) <==> Opens(env, f)
    ensures Embedded(env, f) <==> Dissolved(env, f)
    ensures Skipped(f) <==> !Shown(f)
  {
  }

  lemma OpenPathStep(env: Env, root: TypeId, index: seq<nat>)
    requires GoodPath(env, root, index) && index != []
    ensures var up, f := index[..|index| - 1], LastField(env, root, index);
            OpenPath(env, root, index)
            <==> OpenPath(env, root, up) && Shown(f) && Opens(env, f)
                 && forall p :: p <= up && GoodPath(env, root, p) ==> TypeAt(env, root, p) != TypeAt(env, root, index)
  {
    hide Shown, Opens, TypeAt, Reached;
    var up := index[..|index| - 1];
    PrefixIsGood(env, root, up, index);
    PrefixesOf(env, root, index);
    assert index <= index;
    assert forall p :: p <= up && GoodPath(env, root, p) ==> p < index;
    assert forall p: seq<nat> :: p < index && GoodPath(env, root, p) ==> p <= up;
  }

  /** A field has an entry if and only if it is visible. */
  lemma ListedExactly(env: Env, m: Mapper, root: TypeId, index: seq<nat>)
    requires GoodEnv(env)
    ensures HasEntry(Entries(env, m, root), index) <==> Visible(env, root, index)
  {
    EntriesListed(env, m, root, index);
    if index != [] && GoodPath(env, root, index) {
      var up := index[..|index| - 1];
      PrefixIsGood(env, root, up, index);
      OpenedIsOpenPath(env, root, up);
      NestedOpens(env, LastField(env, root, index));
      PrefixesOf(env, root, index);
      assert forall p: seq<nat> :: GoodPath(env, root, p) ==> (p < index <==> p <= up);
    }
  }

  // ---- what they are called ------------------------------------------------------------------

  /** `path` is made of the names along `index`, joined by dots. */
  ghost predicate Spelled(env: Env, m: Mapper, root: TypeId, index: seq<nat>, path: string)
    requires GoodPath(env, root, index)
  {
    if index == [] then path == ""
    else
      var up, f := index[..|index| - 1], LastField(env, root, index);
      if Dissolved(env, f) then Spelled(env, m, root, up, path)
      else exists before, name :: Spelled(env, m, root, up, before) && NamedBy(m, f, name)
                                  && path == if before == "" then name else before + "." + name
  }

  lemma OwnNameIs(m: Mapper, f: Field)
    ensures forall name :: NamedBy(m, f, name) <==> name == OwnName(m, f)
  {
  }

  lemma {:induction false} SpelledIs(env: Env, m: Mapper, root: TypeId, index: seq<nat>, path: string)
    requires GoodPath(env, root, index)
    ensures Spelled(env, m, root, index, path) <==> path == Dotted(NamesAlong(env, m, root, index))
  {
    if index != [] {
      var up, f := index[..|index| - 1], LastField(env, root, index);
      var above := NamesAlong(env, m, root, up);
      var before, name := Dotted(above), OwnName(m, f);
      NestedOpens(env, f);
      OwnNameIs(m, f);
      SpelledIs(env, m, root, up, path);
      SpelledIs(env, m, root, up, before);
      hide NamedBy, OwnName, Dissolved, Embedded;
      if Embedded(env, f) {
        assert above + [] == above;
      } else {
        assert (above + [name])[..|above|] == above;
        forall b
          ensures Spelled(env, m, root, up, b) <==> b == before
        {
          SpelledIs(env, m, root, up, b);
        }
        SpelledDeeper(env, m, root, up, index, before, name, path);
      }
    }
  }

  lemma SpelledDeeper(env: Env, m: Mapper, root: TypeId, up: seq<nat>, index: seq<nat>, before: string, name: string,
                      path: string)
    requires GoodPath(env, root, index) && index != [] && !Dissolved(env, LastField(env, root, index))
    requires up == index[..|index| - 1] && GoodPath(env, root, up)
    requires forall b :: Spelled(env, m, root, up, b) <==> b == before
    requires forall n :: NamedBy(m, LastField(env, root, index), n) <==> n == name
    ensures Spelled(env, m, root, index, path) <==> path == if before == "" then name else before + "." + name
  {
    hide NamedBy, Dissolved;
    assert Spelled(env, m, root, up, before) && NamedBy(m, LastField(env, root, index), name);
  }

  /** The tables of a type, told by its fields. Every name in the first finds a visible
      field, and is that field's own name or its path; every visible field's own name and
      path are found; and the second table has exactly the paths. */
  ghost predicate TablesTell(env: Env, m: Mapper, root: TypeId, names: map<string, FieldInfo>,
                             paths: map<string, FieldInfo>) {
    && (forall n :: n in names ==> Tells(env, m, root, n, names[n]))
    && (forall index :: Visible(env, root, index) ==> Found(env, m, root, index, names, paths))
    && (forall n :: n in paths ==> n in names && paths[n] == names[n] && paths[n].path == n)
  }

  /** Entry `fi`, found under `n`. */
  ghost predicate Tells(env: Env, m: Mapper, root: TypeId, n: string, fi: FieldInfo) {
    && Visible(env, root, fi.index)
    && NamedBy(m, LastField(env, root, fi.index), fi.name) && Spelled(env, m, root, fi.index, fi.path)
    && (n == fi.name || n == fi.path)
  }

  /** What field `index` is called is in the tables. */
  ghost predicate Found(env: Env, m: Mapper, root: TypeId, index: seq<nat>, names: map<string, FieldInfo>,
                        paths: map<string, FieldInfo>)
    requires Visible(env, root, index)
  {
    && (forall n :: NamedBy(m, LastField(env, root, index), n) ==> n in names)
    && (forall n :: Spelled(env, m, root, index, n) ==> n in names && n in paths)
  }

  lemma EntryTells(env: Env, m: Mapper, root: TypeId, fi: FieldInfo)
    requires GoodEnv(env) && fi in Entries(env, m, root)
    ensures Visible(env, root, fi.index)
    ensures forall n :: NamedBy(m, LastField(env, root, fi.index), n) <==> n == fi.name
    ensures forall n :: Spelled(env, m, root, fi.index, n) <==> n == fi.path
  {
    var log := Entries(env, m, root);
    var k :| 0 <= k < |log| && log[k] == fi;
    assert HasEntry(log, fi.index);
    ListedExactly(env, m, root, fi.index);
    EntriesCalled(env, m, root);
    assert Called(env, m, root, log[k]);
    OwnNameIs(m, LastField(env, root, fi.index));
    forall n
      ensures Spelled(env, m, root, fi.index, n) <==> n == fi.path
    {
      SpelledIs(env, m, root, fi.index, n);
    }
  }

  lemma {:induction false} EveryNameAdded(log: seq<FieldInfo>, fi: FieldInfo)
    requires fi in log
    ensures fi.name in AddNames(map[], log) && fi.path in AddNames(map[], log) && fi.path in AddPaths(map[], log)
  {
    var n := |log| - 1;
    if fi != log[n] {
      assert fi in log[..n];
      EveryNameAdded(log[..n], fi);
    }
  }

  lemma {:induction false} PathsHold(log: seq<FieldInfo>, n: string)
    requires n in AddPaths(map[], log)
    ensures AddPaths(map[], log)[n].path == n
  {
    var k := |log| - 1;
    if log[k].path != n {
      PathsHold(log[..k], n);
    }
  }

  /** The tables that mapping a type gives are told by its fields. */
  lemma TablesAreTold(env: Env, m: Mapper, root: TypeId)
    requires GoodEnv(env)
    ensures TablesTell(env, m, root, AddNames(map[], Entries(env, m, root)), AddPaths(map[], Entries(env, m, root)))
  {
    hide Entries, Tells, Found, Visible, AddNames, AddPaths;
    AllNamesTell(env, m, root);
    AllVisibleFound(env, m, root);
    PathsTell(Entries(env, m, root));
  }

  lemma AllNamesTell(env: Env, m: Mapper, root: TypeId)
    requires GoodEnv(env)
    ensures var names := AddNames(map[], Entries(env, m, root));
            forall n :: n in names ==> Tells(env, m, root, n, names[n])
  {
    hide Entries, Tells, AddNames;
    forall n | n in AddNames(map[], Entries(env, m, root))
      ensures Tells(env, m, root, n, AddNames(map[], Entries(env, m, root))[n])
    {
      NameTells(env, m, root, n);
    }
  }

  lemma AllVisibleFound(env: Env, m: Mapper, root: TypeId)
    requires GoodEnv(env)
    ensures var log := Entries(env, m, root);
            forall index :: Visible(env, root, index) ==>
              Found(env, m, root, index, AddNames(map[], log), AddPaths(map[], log))
  {
    hide Entries, Visible, Found, AddNames, AddPaths;
    var log := Entries(env, m, root);
    forall index | Visible(env, root, index)
      ensures Found(env, m, root, index, AddNames(map[], log), AddPaths(map[], log))
    {
      VisibleIsFound(env, m, root, index);
    }
  }

  lemma PathsTell(log: seq<FieldInfo>)
    ensures var names, paths := AddNames(map[], log), AddPaths(map[], log);
            forall n :: n in paths ==> n in names && paths[n] == names[n] && paths[n].path == n
  {
    hide AddNames, AddPaths;
    forall n | n in AddPaths(map[], log)
      ensures n in AddNames(map[], log) && AddPaths(map[], log)[n] == AddNames(map[], log)[n]
      ensures AddPaths(map[], log)[n].path == n
    {
      PathsAgree(log, n);
      PathsHold(log, n);
    }
  }

  lemma NameTells(env: Env, m: Mapper, root: TypeId, n: string)
    requires GoodEnv(env) && n in AddNames(map[], Entries(env, m, root))
    ensures Tells(env, m, root, n, AddNames(map[], Entries(env, m, root))[n])
  {
    hide GoodEnv, Entries, Visible, NamedBy, Spelled, AddNames;
    var log := Entries(env, m, root);
    var k := NamesResolveOnly(log, n);
    NamesResolve(log, n, k);
    EntryTells(env, m, root, log[k]);
  }

  lemma VisibleIsFound(env: Env, m: Mapper, root: TypeId, index: seq<nat>)
    requires GoodEnv(env) && Visible(env, root, index)
    ensures var log := Entries(env, m, root);
            Found(env, m, root, index, AddNames(map[], log), AddPaths(map[], log))
  {
    var log := Entries(env, m, root);
    ListedExactly(env, m, root, index);
    hide GoodEnv, Entries, Visible, NamedBy, Spelled, AddNames, AddPaths;
    var k :| 0 <= k < |log| && log[k].index == index;
    EntryTells(env, m, root, log[k]);
    EveryNameAdded(log, log[k]);
  }

  // ---- the fields of the struct itself --------------------------------------------------------

  /** Entry `fi` is field number `j` of the struct, dissolved or with its name. */
  ghost predicate MemberTells(env: Env, m: Mapper, t: TypeId, fi: FieldInfo, j: nat)
    requires IsStruct(env, t)
  {
    && j < |env[t].shape.fields| && fi.index == [j]
    && var f := env[t].shape.fields[j];
       && Shown(f) && (fi.embedded <==> Dissolved(env, f))
       && (!fi.embedded ==> NamedBy(m, f, fi.name) && fi.path == fi.name)
  }

  /** `ms` lists the shown fields from number `i` on, each once, in the order of the struct. */
  ghost predicate MembersTell(env: Env, m: Mapper, t: TypeId, i: nat, ms: seq<FieldInfo>)
    requires IsStruct(env, t)
  {
    OnlyShown(env, m, t, i, ms) && Ascending(ms) && AllShown(env, t, i, ms)
  }

  ghost predicate OnlyShown(env: Env, m: Mapper, t: TypeId, i: nat, ms: seq<FieldInfo>)
    requires IsStruct(env, t)
  {
    forall k :: 0 <= k < |ms| ==>
      ms[k].index != [] && ms[k].index[0] >= i && MemberTells(env, m, t, ms[k], ms[k].index[0])
  }

  ghost predicate Ascending(ms: seq<FieldInfo>) {
    forall j, k :: 0 <= j < k < |ms| ==> ms[j].index != [] && ms[k].index != [] && ms[j].index[0] < ms[k].index[0]
  }

  ghost predicate AllShown(env: Env, t: TypeId, i: nat, ms: seq<FieldInfo>)
    requires IsStruct(env, t)
  {
    forall j :: i <= j < |env[t].shape.fields| && Shown(env[t].shape.fields[j]) ==> HasEntry(ms, [j])
  }

  lemma {:induction false} MembersAreTold(env: Env, m: Mapper, t: TypeId, i: nat)
    requires IsStruct(env, t) && i <= |env[t].shape.fields|
    ensures MembersTell(env, m, t, i, Members(env, m, t, i, ROOT, ""))
    decreases |env[t].shape.fields| - i
  {
    if i < |env[t].shape.fields| {
      var f := env[t].shape.fields[i];
      MembersAreTold(env, m, t, i + 1);
      MemberIsTold(env, m, t, i);
      hide Member, MemberTells, Shown;
      OneMoreMember(env, m, t, i, Member(env, m, f, i, ROOT, ""), Members(env, m, t, i + 1, ROOT, ""));
    }
  }

  lemma MemberIsTold(env: Env, m: Mapper, t: TypeId, i: nat)
    requires IsStruct(env, t) && i < |env[t].shape.fields|
    ensures var f := env[t].shape.fields[i];
            var member := Member(env, m, f, i, ROOT, "");
            && (!Shown(f) ==> member == [])
            && (Shown(f) ==> |member| == 1 && MemberTells(env, m, t, member[0], i))
  {
    var f := env[t].shape.fields[i];
    NestedOpens(env, f);
    OwnNameIs(m, f);
    assert [] + [i] == [i];
  }

  lemma OneMoreMember(env: Env, m: Mapper, t: TypeId, i: nat, member: seq<FieldInfo>, rest: seq<FieldInfo>)
    requires IsStruct(env, t) && i < |env[t].shape.fields| && MembersTell(env, m, t, i + 1, rest)
    requires !Shown(env[t].shape.fields[i]) ==> member == []
    requires Shown(env[t].shape.fields[i]) ==> |member| == 1 && MemberTells(env, m, t, member[0], i)
    ensures MembersTell(env, m, t, i, member + rest)
  {
    hide Shown, HasEntry;
    var ms := member + rest;
    if member == [] {
      assert ms == rest;
    } else {
      assert Shown(env[t].shape.fields[i]);
      MemberInFront(env, m, t, i, member[0], rest);
      assert member == [member[0]];
    }
  }

  lemma MemberInFront(env: Env, m: Mapper, t: TypeId, i: nat, fi: FieldInfo, rest: seq<FieldInfo>)
    requires IsStruct(env, t) && MembersTell(env, m, t, i + 1, rest) && MemberTells(env, m, t, fi, i)
    ensures MembersTell(env, m, t, i, [fi] + rest)
  {
    FrontIndex(env, m, t, i, fi);
    hide MemberTells, HasEntry, Shown;
    var ms := [fi] + rest;
    assert ms[0] == fi && forall k :: 0 < k < |ms| ==> ms[k] == rest[k - 1];
    assert OnlyShown(env, m, t, i, ms);
    assert Ascending(ms);
    forall j | i <= j < |env[t].shape.fields| && Shown(env[t].shape.fields[j])
      ensures HasEntry(ms, [j])
    {
      HasEntryConcat([fi], rest, [j]);
      FrontEntry(fi, i);
    }
  }

  lemma FrontEntry(fi: FieldInfo, i: nat)
    ensures fi.index == [i] ==> HasEntry([fi], [i])
  {
    assert [fi][0] == fi;
  }

  lemma FrontIndex(env: Env, m: Mapper, t: TypeId, i: nat, fi: FieldInfo)
    requires IsStruct(env, t) && MemberTells(env, m, t, fi, i)
    ensures fi.index == [i]
  {
  }

  /** So are the tables, and the list of fields, that the walk itself builds. */
  method MapTypeTold(env: Env, m: Mapper, root: TypeId) returns (sm: StructMap)
    requires GoodEnv(env)
    ensures fresh(sm) && TablesTell(env, m, root, sm.names, sm.paths)
    ensures IsStruct(env, root) ==> MembersTell(env, m, root, 0, sm.index)
    ensures !IsStruct(env, root) ==> sm.index == [] && sm.names == map[] && sm.paths == map[]
  {
    sm := MapType(env, m, root);
    TablesAreTold(env, m, root);
    if IsStruct(env, root) {
      MembersAreTold(env, m, root, 0);
    }
  }
}
