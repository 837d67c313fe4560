/** What flattening produces: which fields get an entry, where each entry says its field
    is, in which order entries are inserted, and which entry a name ends up with. */
module FlattenLaws {
  import opened Text
  import opened Types
  import opened Flatten

  // ---- every entry knows where its field is ------------------------------------------

  /** The entry's steps, flat offset, target and pointer flag are those of its path. */
  ghost predicate Placed(env: Env, root: TypeId, fi: FieldInfo) {
    && GoodPath(env, root, fi.index)
    && fi.traversal == StepsTo(env, root, fi.index)
    && fi.isPtrPath == ThroughPointer(env, root, fi.index)
    && fi.offset == (if fi.isPtrPath then 0 else OffsetOf(env, root, fi.index))
    && (fi.index != [] ==> fi.target == TypeAt(env, root, fi.index))
  }

  ghost predicate AllPlaced(env: Env, root: TypeId, log: seq<FieldInfo>) {
    forall k :: 0 <= k < |log| ==> log[k].index != [] && Placed(env, root, log[k])
  }

  lemma LocatedIsPlaced(env: Env, root: TypeId, parent: FieldInfo, i: nat)
    requires Placed(env, root, parent)
    requires IsStruct(env, TypeAt(env, root, parent.index))
    requires i < |env[TypeAt(env, root, parent.index)].shape.fields|
    ensures Placed(env, root, Located(env, parent, env[TypeAt(env, root, parent.index)].shape.fields[i], i))
    ensures Located(env, parent, env[TypeAt(env, root, parent.index)].shape.fields[i], i).index == parent.index + [i]
    ensures GoodPath(env, root, parent.index + [i])
    ensures TypeAt(env, root, parent.index + [i])
         == Deref(env, env[TypeAt(env, root, parent.index)].shape.fields[i].typ)
  {
    var index, f := parent.index + [i], env[TypeAt(env, root, parent.index)].shape.fields[i];
    assert index[..|index| - 1] == parent.index;
    assert LastField(env, root, index) == f;
    if parent.index != [] {
      assert |FieldSteps(env, LastField(env, root, parent.index))| > 0;
    }
    Assoc(parent.traversal, [Step(f.offset, None)],
          if IsPointer(env, f.typ) then [Step(0, Some(env[f.typ].shape.elem))] else []);
  }

  /** Where an entry is does not depend on what it is called. */
  lemma NameDoesNotMove(env: Env, root: TypeId, a: FieldInfo, b: FieldInfo)
    requires Placed(env, root, a)
    requires b == a.(path := b.path, name := b.name, embedded := b.embedded)
    ensures Placed(env, root, b)
  {
  }

  lemma {:induction false} StructLogPlaced(env: Env, m: Mapper, root: TypeId, t: TypeId, parent: FieldInfo,
                                           prefix: string, onPath: set<TypeId>)
    requires GoodEnv(env) && Placed(env, root, parent) && TypeAt(env, root, parent.index) == t && IsStruct(env, t)
    ensures AllPlaced(env, root, StructLog(env, m, t, parent, prefix, onPath))
    decreases |env.Keys - onPath|, 1, 0
  {
    if t !in onPath {
      Shrinks(env, t, onPath);
      FieldsLogPlaced(env, m, root, t, 0, parent, prefix, onPath + {t});
    }
  }

  lemma {:induction false} FieldsLogPlaced(env: Env, m: Mapper, root: TypeId, t: TypeId, i: nat, parent: FieldInfo,
                                           prefix: string, onPath: set<TypeId>)
    requires GoodEnv(env) && Placed(env, root, parent) && TypeAt(env, root, parent.index) == t && IsStruct(env, t)
    requires i <= |env[t].shape.fields|
    ensures AllPlaced(env, root, FieldsLog(env, m, t, i, parent, prefix, onPath))
    decreases |env.Keys - onPath|, 2, |env[t].shape.fields| - i
  {
    if i < |env[t].shape.fields| {
      FieldsLogPlaced(env, m, root, t, i + 1, parent, prefix, onPath);
      FieldLogPlaced(env, m, root, t, i, parent, prefix, onPath);
    }
  }

  lemma {:induction false} FieldLogPlaced(env: Env, m: Mapper, root: TypeId, t: TypeId, i: nat, parent: FieldInfo,
                                          prefix: string, onPath: set<TypeId>)
    requires GoodEnv(env) && Placed(env, root, parent) && TypeAt(env, root, parent.index) == t && IsStruct(env, t)
    requires i < |env[t].shape.fields|
    ensures AllPlaced(env, root, FieldLog(env, m, t, i, parent, prefix, onPath))
    decreases |env.Keys - onPath|, 2, 0
  {
    hide GoodEnv, Placed, Located, OwnName, Skipped, StructLog;
    var f := env[t].shape.fields[i];
    LocatedIsPlaced(env, root, parent, i);
    var fi := if Embedded(env, f) then EmbeddedInfo(env, parent, f, i) else NamedInfo(env, m, parent, prefix, f, i);
    NameDoesNotMove(env, root, Located(env, parent, f, i), fi);
    if !Skipped(f) && Nested(env, f) {
      StructLogPlaced(env, m, root, Deref(env, f.typ), fi, if Embedded(env, f) then prefix else fi.path, onPath);
    }
  }

  /** For every entry of a type: its steps, target, pointer flag and flat offset are
      those of its index path. */
  lemma EntriesPlaced(env: Env, m: Mapper, root: TypeId)
    requires GoodEnv(env)
    ensures AllPlaced(env, root, Entries(env, m, root))
  {
    if IsStruct(env, root) {
      StructLogPlaced(env, m, root, root, ROOT, "", {});
    }
  }

  // ---- and what it is called ------------------------------------------------------------

  /** The own names of the fields along a path, without those that embedding dissolves. */
  function NamesAlong(env: Env, m: Mapper, root: TypeId, index: seq<nat>): seq<string>
    requires GoodPath(env, root, index)
  {
    if index == [] then []
    else
      var f := LastField(env, root, index);
      NamesAlong(env, m, root, index[..|index| - 1]) + (if Embedded(env, f) then [] else [OwnName(m, f)])
  }

  /** Names joined by dots. A dot follows only a non-empty text. */
  function Dotted(names: seq<string>): string {
    if names == [] then ""
    else
      var before, name := Dotted(names[..|names| - 1]), names[|names| - 1];
      if before != "" then before + "." + name else name
  }

  /** The entry's path is the names along its index path joined by dots, and its name is
      that of its last field. */
  ghost predicate Called(env: Env, m: Mapper, root: TypeId, fi: FieldInfo) {
    && fi.index != [] && GoodPath(env, root, fi.index)
    && fi.path == Dotted(NamesAlong(env, m, root, fi.index))
    && fi.name == OwnName(m, LastField(env, root, fi.index))
  }

  ghost predicate AllCalled(env: Env, m: Mapper, root: TypeId, log: seq<FieldInfo>) {
    forall k :: 0 <= k < |log| ==> Called(env, m, root, log[k])
  }

  /** Names are handed down as the prefix of the fields below. */
  ghost predicate Prefixed(env: Env, m: Mapper, root: TypeId, t: TypeId, index: seq<nat>, prefix: string) {
    && GoodPath(env, root, index) && TypeAt(env, root, index) == t && IsStruct(env, t)
    && prefix == Dotted(NamesAlong(env, m, root, index))
  }

  /** One field deeper: what the prefix becomes below it. */
  lemma PrefixBelow(env: Env, m: Mapper, root: TypeId, t: TypeId, i: nat, parent: FieldInfo, prefix: string)
    requires Prefixed(env, m, root, t, parent.index, prefix) && i < |env[t].shape.fields|
    ensures var f := env[t].shape.fields[i];
            var fi := NamedInfo(env, m, parent, prefix, f, i);
            && fi.index == EmbeddedInfo(env, parent, f, i).index == parent.index + [i]
            && (!Embedded(env, f) ==> Called(env, m, root, fi))
            && (Nested(env, f) ==>
                  Prefixed(env, m, root, Deref(env, f.typ), fi.index, if Embedded(env, f) then prefix else fi.path))
  {
    var p, f := parent.index, env[t].shape.fields[i];
    FieldPath(env, root, p, i);
    var above := NamesAlong(env, m, root, p);
    assert NamesAlong(env, m, root, p + [i]) == above + (if Embedded(env, f) then [] else [OwnName(m, f)]);
    hide NamesAlong, Reached;
    if Embedded(env, f) {
      assert above + [] == above;
    } else {
      assert (above + [OwnName(m, f)])[..|above|] == above;
    }
  }

  lemma {:induction false} StructLogCalled(env: Env, m: Mapper, root: TypeId, t: TypeId, parent: FieldInfo,
                                           prefix: string, onPath: set<TypeId>)
    requires GoodEnv(env) && Prefixed(env, m, root, t, parent.index, prefix)
    ensures AllCalled(env, m, root, StructLog(env, m, t, parent, prefix, onPath))
    decreases |env.Keys - onPath|, 1, 0
  {
    hide Called, Prefixed;
    assert IsStruct(env, t) by {
      StructBelow(env, m, root, t, parent.index, prefix);
    }
    if t !in onPath {
      Shrinks(env, t, onPath);
      FieldsLogCalled(env, m, root, t, 0, parent, prefix, onPath + {t});
    }
  }

  lemma StructBelow(env: Env, m: Mapper, root: TypeId, t: TypeId, index: seq<nat>, prefix: string)
    requires Prefixed(env, m, root, t, index, prefix)
    ensures IsStruct(env, t)
  {
  }

  lemma {:induction false} FieldsLogCalled(env: Env, m: Mapper, root: TypeId, t: TypeId, i: nat, parent: FieldInfo,
                                           prefix: string, onPath: set<TypeId>)
    requires GoodEnv(env) && Prefixed(env, m, root, t, parent.index, prefix) && IsStruct(env, t)
    requires i <= |env[t].shape.fields|
    ensures AllCalled(env, m, root, FieldsLog(env, m, t, i, parent, prefix, onPath))
    decreases |env.Keys - onPath|, 2, |env[t].shape.fields| - i
  {
    hide Called, Prefixed;
    if i < |env[t].shape.fields| {
      FieldsLogCalled(env, m, root, t, i + 1, parent, prefix, onPath);
      FieldLogCalled(env, m, root, t, i, parent, prefix, onPath);
    }
  }

  lemma {:induction false} FieldLogCalled(env: Env, m: Mapper, root: TypeId, t: TypeId, i: nat, parent: FieldInfo,
                                          prefix: string, onPath: set<TypeId>)
    requires GoodEnv(env) && Prefixed(env, m, root, t, parent.index, prefix) && IsStruct(env, t)
    requires i < |env[t].shape.fields|
    ensures AllCalled(env, m, root, FieldLog(env, m, t, i, parent, prefix, onPath))
    decreases |env.Keys - onPath|, 2, 0
  {
    hide GoodEnv, Called, Prefixed, NamedInfo, EmbeddedInfo, Skipped, StructLog;
    var f := env[t].shape.fields[i];
    PrefixBelow(env, m, root, t, i, parent, prefix);
    var fi := if Embedded(env, f) then EmbeddedInfo(env, parent, f, i) else NamedInfo(env, m, parent, prefix, f, i);
    if !Skipped(f) && Nested(env, f) {
      StructLogCalled(env, m, root, Deref(env, f.typ), fi, if Embedded(env, f) then prefix else fi.path, onPath);
    }
  }

  /** For every entry of a type: its path is the own names of the fields along its index
      path joined by dots, those dissolved by embedding left out, and its name is its last
      field's own. */
  lemma EntriesCalled(env: Env, m: Mapper, root: TypeId)
    requires GoodEnv(env)
    ensures AllCalled(env, m, root, Entries(env, m, root))
  {
    if IsStruct(env, root) {
      StructLogCalled(env, m, root, root, ROOT, "", {});
    }
  }

  /** Two entries off every pointer path, neither containing the other, occupy disjoint
      bytes of the struct, and both stay inside it. */
  lemma EntriesDisjoint(env: Env, m: Mapper, root: TypeId, a: FieldInfo, b: FieldInfo)
    requires GoodEnv(env) && a in Entries(env, m, root) && b in Entries(env, m, root)
    requires !a.isPtrPath && !b.isPtrPath && !(a.index <= b.index) && !(b.index <= a.index)
    ensures root in env && a.target in env && b.target in env
    ensures a.offset + env[a.target].size <= b.offset || b.offset + env[b.target].size <= a.offset
    ensures a.offset + env[a.target].size <= env[root].size
  {
    EntriesPlaced(env, m, root);
    DisjointFields(env, root, a.index, b.index);
    InsideParent(env, root, [], a.index);
  }

  // ---- which fields get an entry ---------------------------------------------------------

  /** The types of the structs a path goes through, its last included. */
  ghost function TypesAlong(env: Env, root: TypeId, index: seq<nat>): set<TypeId>
    requires GoodPath(env, root, index)
  {
    (if index == [] then {} else TypesAlong(env, root, index[..|index| - 1])) + {TypeAt(env, root, index)}
  }

  /** The struct at the end of the path is flattened: no field on the way is skipped,
      each holds or points to a struct that is no scanner, and no type is met twice. */
  ghost predicate Opened(env: Env, root: TypeId, index: seq<nat>) {
    GoodPath(env, root, index) &&
    if index == [] then IsStruct(env, root)
    else
      var up := index[..|index| - 1];
      && Opened(env, root, up)
      && !Skipped(LastField(env, root, index))
      && Nested(env, LastField(env, root, index))
      && TypeAt(env, root, index) !in TypesAlong(env, root, up)
  }

  /** The field at the end of the path is listed: its struct is flattened, and it is
      neither skipped nor dissolved by embedding. */
  ghost predicate Listed(env: Env, root: TypeId, index: seq<nat>) {
    && index != [] && GoodPath(env, root, index)
    && Opened(env, root, index[..|index| - 1])
    && !Skipped(LastField(env, root, index))
    && !Embedded(env, LastField(env, root, index))
  }

  ghost predicate HasEntry(log: seq<FieldInfo>, index: seq<nat>) {
    exists k :: 0 <= k < |log| && log[k].index == index
  }

  lemma HasEntryConcat(a: seq<FieldInfo>, b: seq<FieldInfo>, index: seq<nat>)
    ensures HasEntry(a + b, index) <==> HasEntry(a, index) || HasEntry(b, index)
  {
    if HasEntry(a, index) {
      var k :| 0 <= k < |a| && a[k].index == index;
      assert (a + b)[k].index == index;
    }
    if HasEntry(b, index) {
      var k :| 0 <= k < |b| && b[k].index == index;
      assert (a + b)[|a| + k].index == index;
    }
  }

  /** Strictly below `p`, at field number `i` or later. */
  predicate Below(p: seq<nat>, i: nat, index: seq<nat>) {
    |p| < |index| && p == index[..|p|] && index[|p|] >= i
  }

  lemma {:induction false} PrefixOpened(env: Env, root: TypeId, p: seq<nat>, q: seq<nat>)
    requires Opened(env, root, q) && p <= q
    ensures Opened(env, root, p)
  {
    if |p| < |q| {
      PrefixOpened(env, root, p, q[..|q| - 1]);
    } else {
      assert p == q;
    }
  }

  lemma {:induction false} StructLogListed(env: Env, m: Mapper, root: TypeId, t: TypeId, parent: FieldInfo,
                                           prefix: string, onPath: set<TypeId>, index: seq<nat>)
    requires GoodEnv(env) && GoodPath(env, root, parent.index)
    requires TypeAt(env, root, parent.index) == t && IsStruct(env, t)
    requires onPath + {t} == TypesAlong(env, root, parent.index)
    requires t !in onPath <==> Opened(env, root, parent.index)
    ensures HasEntry(StructLog(env, m, t, parent, prefix, onPath), index)
       <==> Listed(env, root, index) && Below(parent.index, 0, index)
    decreases |env.Keys - onPath|, 1, 0
  {
    if t in onPath {
      if Listed(env, root, index) && Below(parent.index, 0, index) {
        PrefixOpened(env, root, parent.index, index[..|index| - 1]);
      }
    } else {
      Shrinks(env, t, onPath);
      FieldsLogListed(env, m, root, t, 0, parent, prefix, onPath + {t}, index);
    }
  }

  lemma {:induction false} FieldsLogListed(env: Env, m: Mapper, root: TypeId, t: TypeId, i: nat, parent: FieldInfo,
                                           prefix: string, onPath: set<TypeId>, index: seq<nat>)
    requires GoodEnv(env) && Opened(env, root, parent.index)
    requires TypeAt(env, root, parent.index) == t && IsStruct(env, t) && i <= |env[t].shape.fields|
    requires onPath == TypesAlong(env, root, parent.index)
    ensures HasEntry(FieldsLog(env, m, t, i, parent, prefix, onPath), index)
       <==> Listed(env, root, index) && Below(parent.index, i, index)
    decreases |env.Keys - onPath|, 2, |env[t].shape.fields| - i
  {
    hide Reached, TypeAt, FieldLog, GoodEnv;
    var p := parent.index;
    if i == |env[t].shape.fields| {
      if Listed(env, root, index) && Below(p, i, index) {
        NextInRange(env, root, p, index);
      }
    } else {
      FieldsLogListed(env, m, root, t, i + 1, parent, prefix, onPath, index);
      FieldLogListed(env, m, root, t, i, parent, prefix, onPath, index);
      HasEntryConcat(FieldLog(env, m, t, i, parent, prefix, onPath),
                     FieldsLog(env, m, t, i + 1, parent, prefix, onPath), index);
    }
  }

  lemma NextInRange(env: Env, root: TypeId, p: seq<nat>, index: seq<nat>)
    requires GoodPath(env, root, index) && Below(p, 0, index)
    ensures GoodPath(env, root, p) && IsStruct(env, TypeAt(env, root, p))
    ensures index[|p|] < |env[TypeAt(env, root, p)].shape.fields|
  {
    PrefixIsGood(env, root, index[..|p| + 1], index);
    assert index[..|p| + 1][..|p|] == p;
  }

  lemma {:induction false} FieldLogListed(env: Env, m: Mapper, root: TypeId, t: TypeId, i: nat, parent: FieldInfo,
                                          prefix: string, onPath: set<TypeId>, index: seq<nat>)
    requires GoodEnv(env) && Opened(env, root, parent.index)
    requires TypeAt(env, root, parent.index) == t && IsStruct(env, t) && i < |env[t].shape.fields|
    requires onPath == TypesAlong(env, root, parent.index)
    ensures HasEntry(FieldLog(env, m, t, i, parent, prefix, onPath), index)
       <==> Listed(env, root, index) && Below(parent.index, 0, index) && index[|parent.index|] == i
    decreases |env.Keys - onPath|, 2, 0
  {
    hide Listed, GoodPath, Reached, TypeAt, StructLog;
    var p, f := parent.index, env[t].shape.fields[i];
    var q := p + [i];
    FieldPath(env, root, p, i);
    ListedBelow(env, root, p, i, index);
    if !Skipped(f) {
      var fi := if Embedded(env, f) then EmbeddedInfo(env, parent, f, i) else NamedInfo(env, m, parent, prefix, f, i);
      var prefix' := if Embedded(env, f) then prefix else fi.path;
      assert fi.index == q;
      if Nested(env, f) {
        StructLogListed(env, m, root, Deref(env, f.typ), fi, prefix', onPath, index);
        HasEntryConcat(StructLog(env, m, Deref(env, f.typ), fi, prefix', onPath), [fi], index);
      } else {
        assert [] + [fi] == [fi];
      }
      assert HasEntry([fi], index) <==> index == q by {
        assert [fi][0].index == q;
      }
    }
  }

  /** The listed fields at or below field `i` of the struct at `p`: that field, and those
      below it if it is flattened. */
  lemma ListedBelow(env: Env, root: TypeId, p: seq<nat>, i: nat, index: seq<nat>)
    requires Opened(env, root, p) && IsStruct(env, TypeAt(env, root, p))
    requires i < |env[TypeAt(env, root, p)].shape.fields|
    ensures var q, f := p + [i], env[TypeAt(env, root, p)].shape.fields[i];
            Listed(env, root, index) && Below(p, 0, index) && index[|p|] == i
            <==>
            || (index == q && !Skipped(f) && !Embedded(env, f))
            || (Listed(env, root, index) && Below(q, 0, index) && !Skipped(f) && Nested(env, f))
  {
    var q := p + [i];
    FieldPath(env, root, p, i);
    if Below(p, 0, index) && index[|p|] == i {
      assert q <= index;
      if |index| > |q| && Listed(env, root, index) {
        PrefixOpened(env, root, q, index[..|index| - 1]);
      }
    }
    if Below(q, 0, index) {
      assert index[..|p|] == index[..|q|][..|p|] && index[|p|] == index[..|q|][|p|];
    }
  }

  lemma FieldPath(env: Env, root: TypeId, p: seq<nat>, i: nat)
    requires GoodPath(env, root, p) && IsStruct(env, TypeAt(env, root, p))
    requires i < |env[TypeAt(env, root, p)].shape.fields|
    ensures GoodPath(env, root, p + [i]) && (p + [i])[..|p|] == p
    ensures LastField(env, root, p + [i]) == env[TypeAt(env, root, p)].shape.fields[i]
    ensures TypeAt(env, root, p + [i]) == Deref(env, env[TypeAt(env, root, p)].shape.fields[i].typ)
    ensures TypesAlong(env, root, p + [i]) == TypesAlong(env, root, p) + {TypeAt(env, root, p + [i])}
  {
    assert (p + [i])[..|p|] == p;
  }

  /** A field has an entry if and only if every struct above it is flattened, no type
      being met twice on the way, and it is neither skipped nor dissolved by embedding.
      A type used by two sibling fields is therefore flattened below both. */
  lemma EntriesListed(env: Env, m: Mapper, root: TypeId, index: seq<nat>)
    requires GoodEnv(env)
    ensures HasEntry(Entries(env, m, root), index) <==> Listed(env, root, index)
  {
    if IsStruct(env, root) {
      StructLogListed(env, m, root, root, ROOT, "", {}, index);
    } else if Listed(env, root, index) {
      PrefixOpened(env, root, [], index[..|index| - 1]);
    }
  }

  // ---- the order of insertion -----------------------------------------------------------

  /** No entry comes before an entry below it, and no path is entered twice. */
  ghost predicate ChildrenFirst(log: seq<FieldInfo>) {
    forall j, k :: 0 <= j < k < |log| ==> !(log[j].index <= log[k].index)
  }

  ghost predicate AllBelow(p: seq<nat>, i: nat, log: seq<FieldInfo>) {
    forall k :: 0 <= k < |log| ==> Below(p, i, log[k].index)
  }

  lemma {:induction false} StructLogOrder(env: Env, m: Mapper, t: TypeId, parent: FieldInfo, prefix: string,
                                          onPath: set<TypeId>)
    requires GoodEnv(env) && IsStruct(env, t)
    ensures ChildrenFirst(StructLog(env, m, t, parent, prefix, onPath))
    ensures AllBelow(parent.index, 0, StructLog(env, m, t, parent, prefix, onPath))
    decreases |env.Keys - onPath|, 1, 0
  {
    if t !in onPath {
      Shrinks(env, t, onPath);
      FieldsLogOrder(env, m, t, 0, parent, prefix, onPath + {t});
    }
  }

  lemma {:induction false} FieldsLogOrder(env: Env, m: Mapper, t: TypeId, i: nat, parent: FieldInfo, prefix: string,
                                          onPath: set<TypeId>)
    requires GoodEnv(env) && IsStruct(env, t) && i <= |env[t].shape.fields|
    ensures ChildrenFirst(FieldsLog(env, m, t, i, parent, prefix, onPath))
    ensures AllBelow(parent.index, i, FieldsLog(env, m, t, i, parent, prefix, onPath))
    decreases |env.Keys - onPath|, 2, |env[t].shape.fields| - i
  {
    if i < |env[t].shape.fields| {
      var a := FieldLog(env, m, t, i, parent, prefix, onPath);
      var b := FieldsLog(env, m, t, i + 1, parent, prefix, onPath);
      FieldsLogOrder(env, m, t, i + 1, parent, prefix, onPath);
      FieldLogOrder(env, m, t, i, parent, prefix, onPath);
      OrderConcat(parent.index, i, a, b);
    }
  }

  lemma OrderConcat(p: seq<nat>, i: nat, a: seq<FieldInfo>, b: seq<FieldInfo>)
    requires ChildrenFirst(a) && ChildrenFirst(b) && AllBelow(p, i, a) && AllBelow(p, i + 1, b)
    requires forall k :: 0 <= k < |a| ==> a[k].index[|p|] == i
    ensures ChildrenFirst(a + b) && AllBelow(p, i, a + b)
  {
    forall j, k | 0 <= j < k < |a + b|
      ensures !((a + b)[j].index <= (a + b)[k].index)
    {
      if j < |a| <= k {
        assert a[j].index[|p|] == i && b[k - |a|].index[|p|] > i;
      }
    }
  }

  lemma {:induction false} FieldLogOrder(env: Env, m: Mapper, t: TypeId, i: nat, parent: FieldInfo, prefix: string,
                                         onPath: set<TypeId>)
    requires GoodEnv(env) && IsStruct(env, t) && i < |env[t].shape.fields|
    ensures var log := FieldLog(env, m, t, i, parent, prefix, onPath);
            ChildrenFirst(log) && AllBelow(parent.index, i, log)
            && forall k :: 0 <= k < |log| ==> log[k].index[|parent.index|] == i
    decreases |env.Keys - onPath|, 2, 0
  {
    hide GoodEnv, OwnName, Skipped, StructLog;
    var p, f := parent.index, env[t].shape.fields[i];
    if !Skipped(f) && Nested(env, f) {
      var fi := if Embedded(env, f) then EmbeddedInfo(env, parent, f, i) else NamedInfo(env, m, parent, prefix, f, i);
      assert fi.index == p + [i];
      var prefix' := if Embedded(env, f) then prefix else fi.path;
      StructLogOrder(env, m, Deref(env, f.typ), fi, prefix', onPath);
      NestedOrder(p, i, StructLog(env, m, Deref(env, f.typ), fi, prefix', onPath), fi);
    }
  }

  /** What is nested in field `i` comes before it and lies below it. */
  lemma NestedOrder(p: seq<nat>, i: nat, nested: seq<FieldInfo>, fi: FieldInfo)
    requires fi.index == p + [i] && ChildrenFirst(nested) && AllBelow(fi.index, 0, nested)
    ensures ChildrenFirst(nested + [fi]) && AllBelow(p, i, nested + [fi])
    ensures AllBelow(p, i, nested)
    ensures forall k :: 0 <= k < |nested + [fi]| ==> (nested + [fi])[k].index[|p|] == i
  {
    forall k | 0 <= k < |nested|
      ensures Below(p, i, nested[k].index) && nested[k].index[|p|] == i && !(nested[k].index <= fi.index)
    {
      assert Below(fi.index, 0, nested[k].index);
      assert nested[k].index[..|p| + 1] == p + [i];
      assert nested[k].index[..|p|] == nested[k].index[..|p| + 1][..|p|] == p;
      assert nested[k].index[|p|] == nested[k].index[..|p| + 1][|p|] == i;
    }
  }

  lemma EntriesInOrder(env: Env, m: Mapper, root: TypeId)
    requires GoodEnv(env)
    ensures ChildrenFirst(Entries(env, m, root))
  {
    if IsStruct(env, root) {
      StructLogOrder(env, m, root, ROOT, "", {});
    }
  }

  // ---- which entry a name gets ------------------------------------------------------------

  /** Entry `k` is the last inserted under path `name`. */
  ghost predicate LastWithPath(log: seq<FieldInfo>, name: string, k: nat) {
    k < |log| && log[k].path == name && forall j :: k < j < |log| ==> log[j].path != name
  }

  /** Entry `k` is the first inserted whose own name is `name`, no path being `name`. */
  ghost predicate FirstWithName(log: seq<FieldInfo>, name: string, k: nat) {
    && k < |log| && log[k].name == name
    && (forall j :: 0 <= j < |log| ==> log[j].path != name)
    && (forall j :: 0 <= j < k ==> log[j].name != name)
  }

  /** A name resolves to the last entry with that full path; failing that, to the first
      entry with that own name. */
  lemma {:induction false} NamesResolve(log: seq<FieldInfo>, name: string, k: nat)
    requires LastWithPath(log, name, k) || FirstWithName(log, name, k)
    ensures name in AddNames(map[], log) && AddNames(map[], log)[name] == log[k]
  {
    var n := |log| - 1;
    var before, fi := log[..n], log[n];
    if k < n {
      assert before[k] == log[k] && fi.path != name;
      NamesResolve(before, name, k);
    } else if fi.path != name {
      assert forall j :: 0 <= j < |before| ==> before[j] == log[j];
      NamesResolveNothing(before, name);
    }
  }

  /** A name that is no path and no own name resolves to nothing. */
  lemma {:induction false} NamesResolveNothing(log: seq<FieldInfo>, name: string)
    requires forall j :: 0 <= j < |log| ==> log[j].path != name && log[j].name != name
    ensures name !in AddNames(map[], log)
  {
    if log != [] {
      assert forall j :: 0 <= j < |log| - 1 ==> log[..|log| - 1][j] == log[j];
      NamesResolveNothing(log[..|log| - 1], name);
      assert log[|log| - 1].path != name && log[|log| - 1].name != name;
    }
  }

  /** The table by path agrees with the table by name wherever it is defined. */
  lemma {:induction false} PathsAgree(log: seq<FieldInfo>, name: string)
    ensures name in AddPaths(map[], log) ==>
              name in AddNames(map[], log) && AddNames(map[], log)[name] == AddPaths(map[], log)[name]
    ensures name in AddPaths(map[], log) <==> exists k :: 0 <= k < |log| && log[k].path == name
  {
    if log != [] {
      var n := |log| - 1;
      PathsAgree(log[..n], name);
      if k :| 0 <= k < n && log[k].path == name {
        assert log[..n][k].path == name;
      }
    }
  }

  /** Every name that any lookup finds is found for one of the two reasons. */
  lemma {:induction false} NamesResolveOnly(log: seq<FieldInfo>, name: string) returns (k: nat)
    requires name in AddNames(map[], log)
    ensures LastWithPath(log, name, k) || FirstWithName(log, name, k)
  {
    var n := |log| - 1;
    var before, fi := log[..n], log[n];
    assert forall j :: 0 <= j < n ==> before[j] == log[j];
    if fi.path == name {
      k := n;
    } else if name in AddNames(map[], before) {
      k := NamesResolveOnly(before, name);
    } else {
      forall j | 0 <= j < n
        ensures before[j].path != name && before[j].name != name
      {
        NotResolved(before, name, j);
      }
      k := n;
    }
  }

  lemma {:induction false} NotResolved(log: seq<FieldInfo>, name: string, j: nat)
    requires name !in AddNames(map[], log) && j < |log|
    ensures log[j].path != name && log[j].name != name
  {
    if j < |log| - 1 {
      NotResolved(log[..|log| - 1], name, j);
    }
  }

  /** Looking a name up in a type's table finds a field whose dotted path it is, or whose own
      name it is. */
  lemma FoundByItsName(env: Env, m: Mapper, root: TypeId, name: string)
    requires GoodEnv(env) && name in AddNames(map[], Entries(env, m, root))
    ensures var index := AddNames(map[], Entries(env, m, root))[name].index;
            && Listed(env, root, index)
            && (name == Dotted(NamesAlong(env, m, root, index)) || name == OwnName(m, LastField(env, root, index)))
  {
    var log := Entries(env, m, root);
    var k := NamesResolveOnly(log, name);
    NamesResolve(log, name, k);
    EntriesCalled(env, m, root);
    EntriesListed(env, m, root, log[k].index);
    hide Entries, AddNames, GoodEnv;
    assert Called(env, m, root, log[k]) && HasEntry(log, log[k].index);
  }

  // ---- a small table -------------------------------------------------------------------------

  /** The table of a struct of two fields that are not flattened further. */
  lemma TwoFieldTable(env: Env, m: Mapper, root: TypeId, f: Field, g: Field)
    requires GoodEnv(env) && IsStruct(env, root) && env[root].shape.fields == [f, g]
    requires !Skipped(f) && !Skipped(g) && !Nested(env, f) && !Nested(env, g) && OwnName(m, f) != OwnName(m, g)
    ensures AddNames(map[], Entries(env, m, root))
         == map[OwnName(m, f) := NamedInfo(env, m, ROOT, "", f, 0), OwnName(m, g) := NamedInfo(env, m, ROOT, "", g, 1)]
  {
    hide GoodEnv, NamedInfo;
    var a, b, path := NamedInfo(env, m, ROOT, "", f, 0), NamedInfo(env, m, ROOT, "", g, 1), {} + {root};
    assert FieldsLog(env, m, root, 2, ROOT, "", path) == [];
    assert FieldLog(env, m, root, 0, ROOT, "", path) == [a] && FieldLog(env, m, root, 1, ROOT, "", path) == [b] by {
      assert [] + [a] == [a] && [] + [b] == [b];
    }
    assert FieldsLog(env, m, root, 1, ROOT, "", path) == [b] + [];
    assert FieldsLog(env, m, root, 0, ROOT, "", path) == [a] + ([b] + []) == [a, b];
    assert Entries(env, m, root) == [a, b];
    OwnPath(env, m, f, 0);
    OwnPath(env, m, g, 1);
    TwoAdded(a, b);
  }

  /** The table of a struct of one such field. */
  lemma OneFieldTable(env: Env, m: Mapper, root: TypeId, f: Field)
    requires GoodEnv(env) && IsStruct(env, root) && env[root].shape.fields == [f] && !Skipped(f) && !Nested(env, f)
    ensures AddNames(map[], Entries(env, m, root)) == map[OwnName(m, f) := NamedInfo(env, m, ROOT, "", f, 0)]
  {
    hide GoodEnv, NamedInfo;
    var a, path := NamedInfo(env, m, ROOT, "", f, 0), {} + {root};
    assert FieldsLog(env, m, root, 1, ROOT, "", path) == [];
    assert FieldLog(env, m, root, 0, ROOT, "", path) == [a] by {
      assert [] + [a] == [a];
    }
    assert FieldsLog(env, m, root, 0, ROOT, "", path) == [a] + [] == [a];
    assert Entries(env, m, root) == [a];
    OwnPath(env, m, f, 0);
    assert [a][..0] == [] && AddNames(map[], [a]) == AddName(AddNames(map[], []), a);
  }

  lemma OwnPath(env: Env, m: Mapper, f: Field, i: nat)
    ensures var fi := NamedInfo(env, m, ROOT, "", f, i);
            fi.path == OwnName(m, f) && fi.name == OwnName(m, f)
  {
  }

  lemma TwoAdded(a: FieldInfo, b: FieldInfo)
    requires a.path == a.name && b.path == b.name
    ensures AddNames(map[], [a, b]) == map[a.path := a][b.path := b]
  {
    assert [a, b][..1] == [a] && [a][..0] == [];
    assert AddNames(map[], [a]) == AddName(AddNames(map[], []), a);
  }
}
