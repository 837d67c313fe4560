/** Flattening: every field a struct type offers by name, with its index path, its
    steps, its flat offset, and the two name tables built along the way. */
module Flatten {
  import opened Text
  import opened Types

  /** How untagged fields are named, and what is done to the name in a tag. */
  datatype Mapper = Mapper(mapName: string -> string, tagMap: Option<string -> string>)

  datatype FieldInfo = FieldInfo(
    index: seq<nat>, path: string, name: string, embedded: bool,
    traversal: seq<Step>, offset: nat, target: TypeId, isPtrPath: bool)

  /** The root of the tree of fields. */
  const ROOT := FieldInfo([], "", "", false, [], 0, 0, false)

  /** Where field `f`, number `i` of the struct `parent` leads to, is found. */
  function Located(env: Env, parent: FieldInfo, f: Field, i: nat): FieldInfo {
    var isPtrPath := |parent.traversal| > 0 && parent.isPtrPath;
    var offset := if !isPtrPath then parent.offset + f.offset else 0;
    var moved := parent.traversal + [Step(f.offset, None)];
    if IsPointer(env, f.typ) then
      var elem := env[f.typ].shape.elem;
      FieldInfo(parent.index + [i], "", "", false, moved + [Step(0, Some(elem))], 0, elem, true)
    else
      FieldInfo(parent.index + [i], "", "", false, moved, offset, f.typ, isPtrPath)
  }

  predicate Skipped(f: Field) {
    (!f.exported && !f.anonymous) || f.tag == Dash
  }

  /** Fields of this type are flattened in turn. */
  predicate Nested(env: Env, f: Field) {
    IsStruct(env, Deref(env, f.typ)) && !env[Deref(env, f.typ)].scanner
  }

  predicate Embedded(env: Env, f: Field) {
    Nested(env, f) && f.tag == NoTag && f.anonymous
  }

  function OwnName(m: Mapper, f: Field): string {
    var tagged :=
      if !f.tag.Tagged? then ""
      else if f.tag.name != "" && m.tagMap.Some? then m.tagMap.value(f.tag.name)
      else f.tag.name;
    if tagged == "" then m.mapName(f.name) else tagged
  }

  /** A named field's entry. */
  function NamedInfo(env: Env, m: Mapper, parent: FieldInfo, prefix: string, f: Field, i: nat): FieldInfo {
    var name := OwnName(m, f);
    Located(env, parent, f, i).(name := name, path := if prefix != "" then prefix + "." + name else name)
  }

  function EmbeddedInfo(env: Env, parent: FieldInfo, f: Field, i: nat): FieldInfo {
    Located(env, parent, f, i).(embedded := true)
  }

  // ---- the specification: entries in the order they are inserted --------------------

  /** The entries of the struct `t`. A type already on the current path has none. */
  function StructLog(env: Env, m: Mapper, t: TypeId, parent: FieldInfo, prefix: string, onPath: set<TypeId>)
    : seq<FieldInfo>
    requires GoodEnv(env) && IsStruct(env, t)
    decreases |env.Keys - onPath|, 1, 0
  {
    if t in onPath then []
    else
      Shrinks(env, t, onPath);
      FieldsLog(env, m, t, 0, parent, prefix, onPath + {t})
  }

  /** The entries of fields `i` and up of `t`, which is itself on the path. */
  function FieldsLog(env: Env, m: Mapper, t: TypeId, i: nat, parent: FieldInfo, prefix: string, onPath: set<TypeId>)
    : seq<FieldInfo>
    requires GoodEnv(env) && IsStruct(env, t) && i <= |env[t].shape.fields|
    decreases |env.Keys - onPath|, 2, |env[t].shape.fields| - i
  {
    if i == |env[t].shape.fields| then []
    else FieldLog(env, m, t, i, parent, prefix, onPath) + FieldsLog(env, m, t, i + 1, parent, prefix, onPath)
  }

  /** The entries of field `i` of `t`: what is nested in it, then the field itself. */
  function FieldLog(env: Env, m: Mapper, t: TypeId, i: nat, parent: FieldInfo, prefix: string, onPath: set<TypeId>)
    : seq<FieldInfo>
    requires GoodEnv(env) && IsStruct(env, t) && i < |env[t].shape.fields|
    decreases |env.Keys - onPath|, 2, 0
  {
    var f := env[t].shape.fields[i];
    if Skipped(f) then []
    else if Embedded(env, f) then
      StructLog(env, m, Deref(env, f.typ), EmbeddedInfo(env, parent, f, i), prefix, onPath)
    else
      var fi := NamedInfo(env, m, parent, prefix, f, i);
      (if Nested(env, f) then StructLog(env, m, Deref(env, f.typ), fi, fi.path, onPath) else []) + [fi]
  }

  /** The fields of one struct, without what is nested in them. */
  function Members(env: Env, m: Mapper, t: TypeId, i: nat, parent: FieldInfo, prefix: string): seq<FieldInfo>
    requires IsStruct(env, t) && i <= |env[t].shape.fields|
    decreases |env[t].shape.fields| - i
  {
    if i == |env[t].shape.fields| then []
    else
      var f := env[t].shape.fields[i];
      Member(env, m, f, i, parent, prefix) + Members(env, m, t, i + 1, parent, prefix)
  }

  function Member(env: Env, m: Mapper, f: Field, i: nat, parent: FieldInfo, prefix: string): seq<FieldInfo> {
    if Skipped(f) then []
    else if Embedded(env, f) then [EmbeddedInfo(env, parent, f, i)]
    else [NamedInfo(env, m, parent, prefix, f, i)]
  }

  lemma Shrinks(env: Env, t: TypeId, onPath: set<TypeId>)
    requires t in env && t !in onPath
    ensures |env.Keys - (onPath + {t})| < |env.Keys - onPath|
  {
    assert env.Keys - (onPath + {t}) == (env.Keys - onPath) - {t};
  }

  /** All entries of a type. */
  function Entries(env: Env, m: Mapper, root: TypeId): seq<FieldInfo>
    requires GoodEnv(env)
  {
    if IsStruct(env, root) then StructLog(env, m, root, ROOT, "", {}) else []
  }

  /** One insertion into the table by name: the path always wins, the own name only if
      it is still free. */
  function AddName(names: map<string, FieldInfo>, fi: FieldInfo): map<string, FieldInfo> {
    var withPath := names[fi.path := fi];
    if fi.name in withPath then withPath else withPath[fi.name := fi]
  }

  function AddNames(names: map<string, FieldInfo>, log: seq<FieldInfo>): map<string, FieldInfo> {
    if log == [] then names else AddName(AddNames(names, log[..|log| - 1]), log[|log| - 1])
  }

  function AddPaths(paths: map<string, FieldInfo>, log: seq<FieldInfo>): map<string, FieldInfo> {
    if log == [] then paths
    else AddPaths(paths, log[..|log| - 1])[log[|log| - 1].path := log[|log| - 1]]
  }

  lemma {:induction false} AddConcat(names: map<string, FieldInfo>, a: seq<FieldInfo>, b: seq<FieldInfo>)
    ensures AddNames(names, a + b) == AddNames(AddNames(names, a), b)
    ensures AddPaths(names, a + b) == AddPaths(AddPaths(names, a), b)
  {
    if b == [] {
      assert a + b == a;
    } else {
      AddConcat(names, a, b[..|b| - 1]);
      assert (a + b)[..|a + b| - 1] == a + b[..|b| - 1];
    }
  }

  lemma NothingAdded(table: map<string, FieldInfo>)
    ensures AddNames(table, []) == table && AddPaths(table, []) == table
  {
  }

  lemma AlreadyOnPath(env: Env, m: Mapper, t: TypeId, parent: FieldInfo, prefix: string, onPath: set<TypeId>,
                      table: map<string, FieldInfo>)
    requires GoodEnv(env) && IsStruct(env, t) && t in onPath
    ensures AddNames(table, StructLog(env, m, t, parent, prefix, onPath)) == table
    ensures AddPaths(table, StructLog(env, m, t, parent, prefix, onPath)) == table
  {
  }

  lemma LogUnfolds(env: Env, m: Mapper, t: TypeId, i: nat, parent: FieldInfo, prefix: string, onPath: set<TypeId>)
    requires GoodEnv(env) && IsStruct(env, t) && i <= |env[t].shape.fields| && t !in onPath
    ensures StructLog(env, m, t, parent, prefix, onPath) == FieldsLog(env, m, t, 0, parent, prefix, onPath + {t})
    ensures i == |env[t].shape.fields| ==>
              && FieldsLog(env, m, t, i, parent, prefix, onPath + {t}) == []
              && Members(env, m, t, i, parent, prefix) == []
    ensures i < |env[t].shape.fields| ==>
              && FieldsLog(env, m, t, i, parent, prefix, onPath + {t})
                 == FieldLog(env, m, t, i, parent, prefix, onPath + {t})
                    + FieldsLog(env, m, t, i + 1, parent, prefix, onPath + {t})
              && Members(env, m, t, i, parent, prefix)
                 == Member(env, m, env[t].shape.fields[i], i, parent, prefix)
                    + Members(env, m, t, i + 1, parent, prefix)
  {
  }

  // ---- the recursive walk -------------------------------------------------------------

  /** The types on the current path, shared by all levels of the walk. */
  class Visited {
    var types: set<TypeId>

    constructor ()
      ensures types == {}
    {
      types := {};
    }
  }

  class StructMap {
    var index: seq<FieldInfo>
    var paths: map<string, FieldInfo>
    var names: map<string, FieldInfo>

    constructor ()
      ensures index == [] && paths == map[] && names == map[]
    {
      index, paths, names := [], map[], map[];
    }

    /** Flattens struct `t` into the tables. The path of types is put back on return,
        so a type used by two sibling fields is flattened for both. */
    method FlattenFields(env: Env, m: Mapper, t: TypeId, parent: FieldInfo, prefix: string, visited: Visited)
      returns (fields: seq<FieldInfo>)
      requires GoodEnv(env) && IsStruct(env, t)
      modifies this, visited
      ensures visited.types == old(visited.types) && index == old(index)
      ensures var log := StructLog(env, m, t, parent, prefix, old(visited.types));
              names == AddNames(old(names), log) && paths == AddPaths(old(paths), log)
      ensures fields == if t in old(visited.types) then [] else Members(env, m, t, 0, parent, prefix)
      decreases |env.Keys - visited.types|, 0
    {
      if t in visited.types {
        AlreadyOnPath(env, m, t, parent, prefix, visited.types, names);
        AlreadyOnPath(env, m, t, parent, prefix, visited.types, paths);
        return [];
      }
      hide AddNames, AddPaths, StructLog, FieldsLog, FieldLog, Members, Member, GoodEnv;
      ghost var onPath, names0, paths0 := visited.types, names, paths;
      visited.types := visited.types + {t};
      Shrinks(env, t, onPath);
      ghost var log: seq<FieldInfo> := [];
      NothingAdded(names0);
      NothingAdded(paths0);
      fields := [];
      var i := 0;
      while i < |env[t].shape.fields|
        invariant 0 <= i <= |env[t].shape.fields|
        invariant visited.types == onPath + {t} && index == old(index)
        invariant log + FieldsLog(env, m, t, i, parent, prefix, onPath + {t})
               == FieldsLog(env, m, t, 0, parent, prefix, onPath + {t})
        invariant names == AddNames(names0, log) && paths == AddPaths(paths0, log)
        invariant fields + Members(env, m, t, i, parent, prefix) == Members(env, m, t, 0, parent, prefix)
      {
        ghost var part := FieldLog(env, m, t, i, parent, prefix, onPath + {t});
        LogUnfolds(env, m, t, i, parent, prefix, onPath);
        AddConcat(names0, log, part);
        AddConcat(paths0, log, part);
        Assoc(log, part, FieldsLog(env, m, t, i + 1, parent, prefix, onPath + {t}));
        var member := FlattenField(env, m, t, i, parent, prefix, visited);
        Assoc(fields, member, Members(env, m, t, i + 1, parent, prefix));
        fields := fields + member;
        log := log + part;
        i := i + 1;
      }
      LogUnfolds(env, m, t, i, parent, prefix, onPath);
      assert log + [] == log && fields + [] == fields;
      visited.types := visited.types - {t};
    }

    /** One turn of that loop: field `i` of `t`. */
    method FlattenField(env: Env, m: Mapper, t: TypeId, i: nat, parent: FieldInfo, prefix: string, visited: Visited)
      returns (member: seq<FieldInfo>)
      requires GoodEnv(env) && IsStruct(env, t) && i < |env[t].shape.fields|
      modifies this, visited
      ensures visited.types == old(visited.types) && index == old(index)
      ensures var log := FieldLog(env, m, t, i, parent, prefix, old(visited.types));
              names == AddNames(old(names), log) && paths == AddPaths(old(paths), log)
      ensures member == Member(env, m, env[t].shape.fields[i], i, parent, prefix)
      decreases |env.Keys - visited.types|, 1
    {
      var f := env[t].shape.fields[i];
      if Skipped(f) {
        return [];
      }
      if Embedded(env, f) {
        var fi := EmbeddedInfo(env, parent, f, i);
        var _ := FlattenFields(env, m, Deref(env, f.typ), fi, prefix, visited);
        return [fi];
      }
      var fi := NamedInfo(env, m, parent, prefix, f, i);
      ghost var log := FieldLog(env, m, t, i, parent, prefix, visited.types);
      if Nested(env, f) {
        var _ := FlattenFields(env, m, Deref(env, f.typ), fi, fi.path, visited);
      }
      assert names == AddNames(old(names), log[..|log| - 1]);
      paths := paths[fi.path := fi];
      names := names[fi.path := fi];
      if fi.name !in names {
        names := names[fi.name := fi];
      }
      member := [fi];
    }
  }

  /** Maps a type: anything but a struct has no fields. */
  method MapType(env: Env, m: Mapper, root: TypeId) returns (sm: StructMap)
    requires GoodEnv(env)
    ensures fresh(sm)
    ensures sm.index == if IsStruct(env, root) then Members(env, m, root, 0, ROOT, "") else []
    ensures sm.names == AddNames(map[], Entries(env, m, root))
    ensures sm.paths == AddPaths(map[], Entries(env, m, root))
  {
    sm := new StructMap();
    if !IsStruct(env, root) {
      return;
    }
    var visited := new Visited();
    var fields := sm.FlattenFields(env, m, root, ROOT, "", visited);
    sm.index := fields;
  }
}
