/** Go types as the mapper sees them, with their memory layout, and what an index path
    into a struct type stands for. */
module Types {
  import opened Text

  type TypeId = nat

  /** A field's tag under the mapper's key: absent, `-`, or a name and options of which
      only the name matters here (it may be empty). */
  datatype Tag = NoTag | Dash | Tagged(name: string)

  datatype Field = Field(name: string, typ: TypeId, offset: nat, exported: bool, anonymous: bool, tag: Tag)

  datatype Shape = Struct(fields: seq<Field>) | Pointer(elem: TypeId) | Map | Plain

  /** `rank` bounds how deep a type contains other types by value: the compiler rejects
      a struct that contains itself other than through a pointer. */
  datatype TypeInfo = TypeInfo(shape: Shape, size: nat, scanner: bool, rank: nat)

  type Env = map<TypeId, TypeInfo>

  /** Fields lie inside their struct, in declaration order, without overlap. */
  ghost predicate GoodLayout(env: Env, fields: seq<Field>, size: nat, rank: nat) {
    && (forall i :: 0 <= i < |fields| ==>
          && fields[i].typ in env
          && env[fields[i].typ].rank < rank
          && fields[i].offset + env[fields[i].typ].size <= size)
    && (forall i, j :: 0 <= i < j < |fields| ==>
          fields[i].typ in env && fields[i].offset + env[fields[i].typ].size <= fields[j].offset)
  }

  /** A closed, well laid out family of types. It may be cyclic through pointers. */
  ghost predicate GoodEnv(env: Env) {
    forall t :: t in env ==>
      match env[t].shape
      case Struct(fields) => GoodLayout(env, fields, env[t].size, env[t].rank)
      case Pointer(elem) => elem in env && env[t].size > 0
      case Map => env[t].size > 0
      case Plain => true
  }

  predicate IsStruct(env: Env, t: TypeId) {
    t in env && env[t].shape.Struct?
  }

  predicate IsPointer(env: Env, t: TypeId) {
    t in env && env[t].shape.Pointer?
  }

  predicate IsMap(env: Env, t: TypeId) {
    t in env && env[t].shape.Map?
  }

  /** One level of indirection removed. */
  function Deref(env: Env, t: TypeId): TypeId {
    if IsPointer(env, t) then env[t].shape.elem else t
  }

  /** A move by an offset, followed through the pointer found there if `elem` is given. */
  datatype Step = Step(offset: nat, elem: Option<TypeId>)

  // ---- index paths ------------------------------------------------------------------

  /** The type a path leads to, pointers removed at every field, if every number of the
      path selects a field of the struct reached so far. */
  function Reached(env: Env, root: TypeId, index: seq<nat>): Option<TypeId> {
    if index == [] then Some(root)
    else
      var n := |index| - 1;
      match Reached(env, root, index[..n])
      case None => None
      case Some(t) =>
        if IsStruct(env, t) && index[n] < |env[t].shape.fields| then
          Some(Deref(env, env[t].shape.fields[index[n]].typ))
        else None
  }

  predicate GoodPath(env: Env, root: TypeId, index: seq<nat>) {
    Reached(env, root, index).Some?
  }

  function TypeAt(env: Env, root: TypeId, index: seq<nat>): TypeId
    requires GoodPath(env, root, index)
  {
    Reached(env, root, index).value
  }

  function LastField(env: Env, root: TypeId, index: seq<nat>): Field
    requires GoodPath(env, root, index) && index != []
  {
    var n := |index| - 1;
    env[TypeAt(env, root, index[..n])].shape.fields[index[n]]
  }

  function FieldSteps(env: Env, f: Field): seq<Step> {
    [Step(f.offset, None)]
    + (if IsPointer(env, f.typ) then [Step(0, Some(env[f.typ].shape.elem))] else [])
  }

  /** The steps from the struct to the field, the last pointer included. */
  function StepsTo(env: Env, root: TypeId, index: seq<nat>): seq<Step>
    requires GoodPath(env, root, index)
  {
    if index == [] then []
    else StepsTo(env, root, index[..|index| - 1]) + FieldSteps(env, LastField(env, root, index))
  }

  predicate ThroughPointer(env: Env, root: TypeId, index: seq<nat>)
    requires GoodPath(env, root, index)
  {
    index != [] &&
    (ThroughPointer(env, root, index[..|index| - 1]) || IsPointer(env, LastField(env, root, index).typ))
  }

  /** The sum of the field offsets along the path. */
  function OffsetOf(env: Env, root: TypeId, index: seq<nat>): nat
    requires GoodPath(env, root, index)
  {
    if index == [] then 0
    else OffsetOf(env, root, index[..|index| - 1]) + LastField(env, root, index).offset
  }

  /** A path through an unexported field that is not embedded: the reflection library marks
      every value further down as read-only. An embedded one marks only itself. */
  predicate Sticky(env: Env, root: TypeId, index: seq<nat>)
    requires GoodPath(env, root, index)
  {
    index != [] &&
    (Sticky(env, root, index[..|index| - 1])
     || (!LastField(env, root, index).exported && !LastField(env, root, index).anonymous))
  }

  /** The value at the end of the path is read-only: it can be neither set nor handed out. */
  predicate Restricted(env: Env, root: TypeId, index: seq<nat>)
    requires GoodPath(env, root, index)
  {
    index != [] && (Sticky(env, root, index) || !LastField(env, root, index).exported)
  }

  /** The size of what the path leads to. */
  ghost function SizeAt(env: Env, root: TypeId, index: seq<nat>): nat
    requires GoodPath(env, root, index) && TypeAt(env, root, index) in env
  {
    env[TypeAt(env, root, index)].size
  }

  lemma {:induction false} PathsStayTyped(env: Env, root: TypeId, index: seq<nat>)
    requires GoodEnv(env) && root in env && GoodPath(env, root, index)
    ensures TypeAt(env, root, index) in env
  {
    if index != [] {
      var t := TypeAt(env, root, index[..|index| - 1]);
      assert GoodLayout(env, env[t].shape.fields, env[t].size, env[t].rank);
    }
  }

  lemma {:induction false} PrefixIsGood(env: Env, root: TypeId, p: seq<nat>, q: seq<nat>)
    requires GoodPath(env, root, q) && p <= q
    ensures GoodPath(env, root, p)
    ensures ThroughPointer(env, root, p) ==> ThroughPointer(env, root, q)
  {
    if |p| < |q| {
      PrefixIsGood(env, root, p, q[..|q| - 1]);
    } else {
      assert p == q;
    }
  }

  /** A field lies inside every field it is reached through without a pointer. */
  lemma {:induction false} InsideParent(env: Env, root: TypeId, p: seq<nat>, q: seq<nat>)
    requires GoodEnv(env) && root in env && GoodPath(env, root, q) && p <= q
    requires !ThroughPointer(env, root, q)
    ensures GoodPath(env, root, p)
    ensures TypeAt(env, root, p) in env && TypeAt(env, root, q) in env
    ensures OffsetOf(env, root, p) <= OffsetOf(env, root, q)
    ensures OffsetOf(env, root, q) + SizeAt(env, root, q) <= OffsetOf(env, root, p) + SizeAt(env, root, p)
  {
    PathsStayTyped(env, root, q);
    if |p| < |q| {
      var up := q[..|q| - 1];
      InsideParent(env, root, p, up);
      var t := TypeAt(env, root, up);
      assert GoodLayout(env, env[t].shape.fields, env[t].size, env[t].rank);
      assert LastField(env, root, q) == env[t].shape.fields[q[|q| - 1]];
    } else {
      assert p == q;
    }
  }

  /** The longest common prefix of two paths. */
  ghost function Common(p: seq<nat>, q: seq<nat>): (c: seq<nat>)
    ensures c <= p && c <= q
    ensures |c| < |p| && |c| < |q| ==> p[|c|] != q[|c|]
  {
    if p != [] && q != [] && p[0] == q[0] then [p[0]] + Common(p[1..], q[1..]) else []
  }

  /** Different fields of one struct share no byte. */
  lemma DisjointSiblings(env: Env, root: TypeId, p: seq<nat>, q: seq<nat>)
    requires GoodEnv(env) && root in env && GoodPath(env, root, p) && GoodPath(env, root, q)
    requires !ThroughPointer(env, root, p) && !ThroughPointer(env, root, q)
    requires |p| == |q| > 0 && p[..|p| - 1] == q[..|q| - 1] && p[|p| - 1] < q[|q| - 1]
    ensures TypeAt(env, root, p) in env
    ensures OffsetOf(env, root, p) + SizeAt(env, root, p) <= OffsetOf(env, root, q)
  {
    PathsStayTyped(env, root, p);
    var t := TypeAt(env, root, p[..|p| - 1]);
    assert GoodLayout(env, env[t].shape.fields, env[t].size, env[t].rank);
    var f, g := env[t].shape.fields[p[|p| - 1]], env[t].shape.fields[q[|q| - 1]];
    assert LastField(env, root, p) == f && LastField(env, root, q) == g;
  }

  /** Two fields reached without pointers, neither inside the other, share no byte. */
  lemma DisjointFields(env: Env, root: TypeId, p: seq<nat>, q: seq<nat>)
    requires GoodEnv(env) && root in env && GoodPath(env, root, p) && GoodPath(env, root, q)
    requires !ThroughPointer(env, root, p) && !ThroughPointer(env, root, q)
    requires !(p <= q) && !(q <= p)
    ensures TypeAt(env, root, p) in env && TypeAt(env, root, q) in env
    ensures OffsetOf(env, root, p) + SizeAt(env, root, p) <= OffsetOf(env, root, q)
         || OffsetOf(env, root, q) + SizeAt(env, root, q) <= OffsetOf(env, root, p)
  {
    hide OffsetOf, Reached, SizeAt, ThroughPointer, GoodEnv, GoodPath, TypeAt, Common;
    var n := |Common(p, q)|;
    var p', q' := p[..n + 1], q[..n + 1];
    assert p'[..n] == Common(p, q) == q'[..n];
    InsideParent(env, root, p', p);
    InsideParent(env, root, q', q);
    PrefixIsGood(env, root, p', p);
    PrefixIsGood(env, root, q', q);
    if p[n] < q[n] {
      DisjointSiblings(env, root, p', q');
    } else {
      DisjointSiblings(env, root, q', p');
    }
  }
}
