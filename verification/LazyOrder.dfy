/** Lazy allocation does not depend on its order. A traversal is first read without any
    state: a nil slot is imagined to hold a pointer to an object named after the slot.
    Every real run then is that reading under a renaming, and two runs that follow the
    same steps in different orders rename the same imagined objects. */
module LazyOrder {
  import opened Text
  import opened Types
  import opened Memory
  import opened MemoryLaws

  /** An object of the starting heap, the object a nil slot will get, or the discard cell
      of a column. */
  datatype Object = Old(id: nat) | New(slot: Place, ptr: TypeId) | Cell(column: nat)

  datatype Place = Place(obj: Object, off: nat)

  function At(a: Addr): Place {
    Place(Old(a.obj), a.off)
  }

  function Moved(p: Place, offset: nat): Place {
    Place(p.obj, p.off + offset)
  }

  predicate SetAtStart(h: Heap, p: Place) {
    p.obj.Old? && Addr(p.obj.id, p.off) in h.slots
  }

  /** What slot `p`, of pointer type `ptr`, points to once filled. */
  function Followed(h: Heap, p: Place, ptr: TypeId): Place {
    if SetAtStart(h, p) then At(h.slots[Addr(p.obj.id, p.off)]) else Place(New(p, ptr), 0)
  }

  function FieldPlace(env: Env, h: Heap, p: Place, f: Field): Place {
    if IsPointer(env, f.typ) then Followed(h, Moved(p, f.offset), f.typ) else Moved(p, f.offset)
  }

  /** Where a path leads from `base` in the starting heap, no state involved. */
  function PlaceOf(env: Env, h: Heap, base: Addr, root: TypeId, index: seq<nat>): Place
    requires GoodPath(env, root, index)
  {
    if index == [] then At(base)
    else FieldPlace(env, h, PlaceOf(env, h, base, root, index[..|index| - 1]), LastField(env, root, index))
  }

  /** The objects met on the way there. */
  function ObjectsOn(env: Env, h: Heap, base: Addr, root: TypeId, index: seq<nat>): set<Object>
    requires GoodPath(env, root, index)
  {
    (if index == [] then {} else ObjectsOn(env, h, base, root, index[..|index| - 1]))
    + {PlaceOf(env, h, base, root, index).obj}
  }

  // ---- typing of imagined places --------------------------------------------------------

  ghost predicate PlaceTyped(env: Env, h: Heap, p: Place, t: TypeId)
    requires GoodEnv(env)
  {
    match p.obj
    case Old(id) => Typed(env, h, Addr(id, p.off), t)
    case New(_, ptr) =>
      IsPointer(env, ptr) && env[ptr].shape.elem in env && OccursAt(env, env[ptr].shape.elem, p.off, t)
    case Cell(_) => false
  }

  lemma FieldPlaceTyped(env: Env, h: Heap, p: Place, t: TypeId, i: nat)
    requires GoodEnv(env) && WellTyped(env, h) && PlaceTyped(env, h, p, t)
    requires IsStruct(env, t) && i < |env[t].shape.fields|
    ensures var f := env[t].shape.fields[i];
            && PlaceTyped(env, h, Moved(p, f.offset), f.typ)
            && PlaceTyped(env, h, FieldPlace(env, h, p, f), Deref(env, f.typ))
  {
    var f := env[t].shape.fields[i];
    match p.obj
    case Old(id) => FieldOccurs(env, h.objs[id], p.off, t, i);
    case New(_, ptr) => FieldOccurs(env, env[ptr].shape.elem, p.off, t, i);
    if IsPointer(env, f.typ) {
      var elem := env[f.typ].shape.elem;
      assert elem in env && OccursAt(env, elem, 0, elem);
    }
  }

  lemma {:induction false} PlaceOfTyped(env: Env, h: Heap, base: Addr, root: TypeId, index: seq<nat>)
    requires GoodEnv(env) && WellTyped(env, h) && Typed(env, h, base, root) && GoodPath(env, root, index)
    ensures PlaceTyped(env, h, PlaceOf(env, h, base, root, index), TypeAt(env, root, index))
  {
    if index != [] {
      var up := index[..|index| - 1];
      PlaceOfTyped(env, h, base, root, up);
      FieldPlaceTyped(env, h, PlaceOf(env, h, base, root, up), TypeAt(env, root, up), index[|index| - 1]);
    }
  }

  /** A place holds at most one pointer type. */
  lemma PlacePointerUnique(env: Env, h: Heap, p: Place, u: TypeId, v: TypeId)
    requires GoodEnv(env) && WellTyped(env, h) && PlaceTyped(env, h, p, u) && PlaceTyped(env, h, p, v)
    requires IsPointer(env, u) && IsPointer(env, v)
    ensures u == v
  {
    match p.obj
    case Old(id) => PointerUnique(env, h.objs[id], p.off, u, v);
    case New(_, ptr) => PointerUnique(env, env[ptr].shape.elem, p.off, u, v);
  }

  // ---- runs as renamings -------------------------------------------------------------------

  /** Imagined objects and the identities they got in a run, in both directions. */
  datatype Renaming = Renaming(ids: map<Object, nat>, names: map<nat, Object>)

  function Real(r: Renaming, p: Place): Addr
    requires p.obj in r.ids
  {
    Addr(r.ids[p.obj], p.off)
  }

  /** Object `o` of the renaming is what its name says: an object of the starting heap,
      a discard cell, or the target of a pointer slot that was nil at the start. */
  ghost predicate Sound(env: Env, start: Heap, cellType: TypeId, r: Renaming, h: Heap, o: Object)
    requires GoodEnv(env) && o in r.ids
  {
    && r.ids[o] in h.objs && r.ids[o] in r.names && r.names[r.ids[o]] == o
    && match o
       case Old(id) => id in start.objs && r.ids[o] == id && h.objs[id] == start.objs[id]
       case Cell(_) => h.objs[r.ids[o]] == cellType
       case New(slot, ptr) =>
         && slot.obj in r.ids && !SetAtStart(start, slot)
         && Real(r, slot) in h.slots && h.slots[Real(r, slot)] == Addr(r.ids[o], 0)
         && IsPointer(env, ptr) && PlaceTyped(env, start, slot, ptr)
         && h.objs[r.ids[o]] == env[ptr].shape.elem
  }

  /** A pointer slot set in the run was set at the start or belongs to a new object. */
  ghost predicate Explained(start: Heap, r: Renaming, h: Heap, p: Addr)
    requires p in h.slots
  {
    || (p in start.slots && h.slots[p] == start.slots[p])
    || (&& p.obj in r.names && h.slots[p].obj in r.names
        && var o := r.names[h.slots[p].obj];
           o.New? && o.slot == Place(r.names[p.obj], p.off))
  }

  ghost predicate AllSound(env: Env, start: Heap, cellType: TypeId, r: Renaming, h: Heap)
    requires GoodEnv(env)
  {
    forall o :: o in r.ids ==> Sound(env, start, cellType, r, h, o)
  }

  /** Every object of the run has a name. */
  ghost predicate AllNamed(start: Heap, r: Renaming, h: Heap) {
    && (forall id :: id in start.objs ==> Old(id) in r.ids)
    && (forall id :: id in h.objs ==> id in r.names && r.names[id] in r.ids && r.ids[r.names[id]] == id)
  }

  ghost predicate AllExplained(start: Heap, r: Renaming, h: Heap) {
    forall p :: p in h.slots ==> Explained(start, r, h, p)
  }

  /** Heap `h` is the starting heap with exactly the renamed objects filled in. */
  ghost predicate Runs(env: Env, start: Heap, cellType: TypeId, r: Renaming, h: Heap)
    requires GoodEnv(env)
  {
    && Closed(h) && KeepsPointers(start, h)
    && AllSound(env, start, cellType, r, h) && AllNamed(start, r, h) && AllExplained(start, r, h)
  }

  ghost predicate Grows(r: Renaming, r': Renaming) {
    forall o :: o in r.ids ==> o in r'.ids && r'.ids[o] == r.ids[o]
  }

  function Add(r: Renaming, o: Object, id: nat): Renaming {
    Renaming(r.ids[o := id], r.names[id := o])
  }

  /** The starting heap is a run that filled nothing. */
  lemma RunStarts(env: Env, start: Heap, cellType: TypeId) returns (r: Renaming)
    requires GoodEnv(env) && Closed(start)
    ensures Runs(env, start, cellType, r, start)
    ensures r.ids.Keys == set id | id in start.objs :: Old(id)
  {
    var ids := map o: Object | o in (set id | id in start.objs :: Old(id)) :: o.id;
    var names := map id | id in start.objs :: Old(id);
    r := Renaming(ids, names);
  }

  /** A slot that is nil at the start and already set in the run was set for this very
      imagined object: a place has at most one pointer type. */
  lemma FilledIsNamed(env: Env, start: Heap, cellType: TypeId, r: Renaming, h: Heap, p: Place, t: TypeId)
    requires GoodEnv(env) && WellTyped(env, start) && Runs(env, start, cellType, r, h)
    requires p.obj in r.ids && IsPointer(env, t) && PlaceTyped(env, start, p, t)
    requires Real(r, p) in h.slots && !SetAtStart(start, p)
    ensures New(p, t) in r.ids
    ensures h.slots[Real(r, p)] == Addr(r.ids[New(p, t)], 0)
  {
    hide GoodEnv, PlaceTyped, Followed;
    assert Sound(env, start, cellType, r, h, p.obj);
    var a := Real(r, p);
    assert a !in start.slots by {
      assert a.obj in start.objs ==> r.names[a.obj] == Old(a.obj) by {
        if a.obj in start.objs {
          assert Sound(env, start, cellType, r, h, Old(a.obj));
        }
      }
    }
    assert Explained(start, r, h, a);
    var o := r.names[h.slots[a].obj];
    assert h.slots[a].obj in h.objs;
    assert Sound(env, start, cellType, r, h, o);
    assert o.slot == p;
    PlacePointerUnique(env, start, p, t, o.ptr);
  }

  /** Following a pointer field in a run is following it in imagination. */
  lemma FollowRuns(env: Env, start: Heap, cellType: TypeId, r: Renaming, h: Heap, p: Place, t: TypeId)
    returns (r': Renaming)
    requires GoodEnv(env) && WellTyped(env, start) && Runs(env, start, cellType, r, h)
    requires p.obj in r.ids && IsPointer(env, t) && PlaceTyped(env, start, p, t)
    ensures var h', q := Filled(h, Real(r, p), env[t].shape.elem), Followed(start, p, t);
            && Runs(env, start, cellType, r', h') && Grows(r, r') && r'.ids.Keys == r.ids.Keys + {q.obj}
            && Target(h', Real(r, p)) == Real(r', q)
  {
    hide GoodEnv, PlaceTyped;
    if SetAtStart(start, p) {
      var a := Addr(p.obj.id, p.off);
      assert Sound(env, start, cellType, r, h, p.obj);
      var target := start.slots[a].obj;
      assert Old(target) in r.ids;
      assert Sound(env, start, cellType, r, h, Old(target));
      r' := r;
    } else if Real(r, p) in h.slots {
      FilledIsNamed(env, start, cellType, r, h, p, t);
      r' := r;
    } else {
      r' := Add(r, New(p, t), h.next);
      NewObjectRuns(env, start, cellType, r, h, p, t);
    }
  }

  /** `h'` is `h` with one new object, and perhaps one slot set. */
  ghost predicate OneMore(h: Heap, h': Heap) {
    && Closed(h') && KeepsPointers(h, h') && h'.next == h.next + 1
    && h'.objs.Keys == h.objs.Keys + {h.next}
    && forall id :: id in h.objs ==> h'.objs[id] == h.objs[id]
  }

  lemma StillSound(env: Env, start: Heap, cellType: TypeId, r: Renaming, h: Heap, o: Object, h': Heap)
    requires GoodEnv(env) && AllSound(env, start, cellType, r, h) && OneMore(h, h')
    requires o !in r.ids && Closed(h) && Sound(env, start, cellType, Add(r, o, h.next), h', o)
    ensures AllSound(env, start, cellType, Add(r, o, h.next), h')
  {
    hide GoodEnv, PlaceTyped;
    var r' := Add(r, o, h.next);
    forall x | x in r'.ids
      ensures Sound(env, start, cellType, r', h', x)
    {
      if x != o {
        assert Sound(env, start, cellType, r, h, x);
      }
    }
  }

  lemma StillNamed(start: Heap, r: Renaming, h: Heap, o: Object, h': Heap)
    requires AllNamed(start, r, h) && OneMore(h, h') && o !in r.ids && Closed(h)
    ensures AllNamed(start, Add(r, o, h.next), h')
  {
  }

  lemma StillExplained(start: Heap, r: Renaming, h: Heap, o: Object, h': Heap)
    requires AllExplained(start, r, h) && OneMore(h, h') && Closed(h)
    requires forall s :: s in h'.slots && s !in h.slots ==> Explained(start, Add(r, o, h.next), h', s)
    ensures AllExplained(start, Add(r, o, h.next), h')
  {
    var r' := Add(r, o, h.next);
    forall s | s in h'.slots
      ensures Explained(start, r', h', s)
    {
      if s in h.slots {
        assert Explained(start, r, h, s);
        assert s.obj in h.objs && h.slots[s].obj in h.objs;
      }
    }
  }

  /** A run with one more object, if the new object and slot are accounted for. */
  lemma StillRuns(env: Env, start: Heap, cellType: TypeId, r: Renaming, h: Heap, o: Object, h': Heap)
    requires GoodEnv(env) && Runs(env, start, cellType, r, h) && OneMore(h, h') && o !in r.ids
    requires Sound(env, start, cellType, Add(r, o, h.next), h', o)
    requires forall s :: s in h'.slots && s !in h.slots ==> Explained(start, Add(r, o, h.next), h', s)
    ensures Runs(env, start, cellType, Add(r, o, h.next), h') && Grows(r, Add(r, o, h.next))
  {
    hide GoodEnv, Sound, AllSound, AllNamed, AllExplained, Explained;
    StillSound(env, start, cellType, r, h, o, h');
    StillNamed(start, r, h, o, h');
    StillExplained(start, r, h, o, h');
  }

  lemma NamedIsFilled(env: Env, start: Heap, cellType: TypeId, r: Renaming, h: Heap, o: Object)
    requires GoodEnv(env) && o in r.ids && o.New? && Runs(env, start, cellType, r, h)
    ensures o.slot.obj in r.ids && Real(r, o.slot) in h.slots
  {
    assert Sound(env, start, cellType, r, h, o);
  }

  /** The object a nil slot gets is what its name says. */
  lemma NewIsSound(env: Env, start: Heap, cellType: TypeId, r: Renaming, h: Heap, p: Place, t: TypeId)
    requires GoodEnv(env) && Closed(h) && p.obj in r.ids && r.ids[p.obj] in h.objs
    requires IsPointer(env, t) && PlaceTyped(env, start, p, t)
    requires Real(r, p) !in h.slots && !SetAtStart(start, p) && New(p, t) !in r.ids
    ensures Sound(env, start, cellType, Add(r, New(p, t), h.next), Alloc(h, Real(r, p), env[t].shape.elem), New(p, t))
    ensures OneMore(h, Alloc(h, Real(r, p), env[t].shape.elem))
  {
    hide GoodEnv, PlaceTyped;
    assert Real(Add(r, New(p, t), h.next), p) == Real(r, p);
  }

  lemma NewObjectRuns(env: Env, start: Heap, cellType: TypeId, r: Renaming, h: Heap, p: Place, t: TypeId)
    requires GoodEnv(env) && Runs(env, start, cellType, r, h)
    requires p.obj in r.ids && IsPointer(env, t) && PlaceTyped(env, start, p, t)
    requires Real(r, p) !in h.slots && !SetAtStart(start, p)
    ensures New(p, t) !in r.ids
    ensures Runs(env, start, cellType, Add(r, New(p, t), h.next), Alloc(h, Real(r, p), env[t].shape.elem))
    ensures Grows(r, Add(r, New(p, t), h.next))
  {
    hide GoodEnv, PlaceTyped, AllExplained, AllNamed;
    var o := New(p, t);
    if o in r.ids {
      NamedIsFilled(env, start, cellType, r, h, o);
    }
    assert Sound(env, start, cellType, r, h, p.obj);
    hide AllSound, Sound;
    NewIsSound(env, start, cellType, r, h, p, t);
    StillRuns(env, start, cellType, r, h, o, Alloc(h, Real(r, p), env[t].shape.elem));
  }

  /** One field of a traversal. */
  lemma FieldRuns(env: Env, start: Heap, cellType: TypeId, r: Renaming, h: Heap, q: Place, t: TypeId, i: nat)
    returns (r': Renaming)
    requires GoodEnv(env) && WellTyped(env, start) && Runs(env, start, cellType, r, h)
    requires q.obj in r.ids && PlaceTyped(env, start, q, t)
    requires IsStruct(env, t) && i < |env[t].shape.fields|
    ensures var f := env[t].shape.fields[i];
            var (h', a) := Traversed(h, Real(r, q), FieldSteps(env, f));
            var q' := FieldPlace(env, start, q, f);
            && Runs(env, start, cellType, r', h') && Grows(r, r')
            && r'.ids.Keys == r.ids.Keys + {q'.obj}
            && a == Real(r', q')
  {
    hide GoodEnv, PlaceTyped, WellTyped, Runs, Followed, FieldSteps, Traversed, Filled, Target;
    var f := env[t].shape.fields[i];
    FieldTraversal(env, h, Real(r, q), f);
    FieldPlaceTyped(env, start, q, t, i);
    assert Real(r, Moved(q, f.offset)) == Shift(Real(r, q), f.offset);
    if IsPointer(env, f.typ) {
      r' := FollowRuns(env, start, cellType, r, h, Moved(q, f.offset), f.typ);
    } else {
      r' := r;
    }
  }

  lemma NothingTraversed(env: Env, start: Heap, cellType: TypeId, base: Addr, root: TypeId, r: Renaming, h: Heap)
    requires GoodEnv(env) && Typed(env, start, base, root) && Runs(env, start, cellType, r, h)
    ensures Traversed(h, base, []) == (h, base) && Grows(r, r)
    ensures Old(base.obj) in r.ids && Real(r, At(base)) == base
  {
    hide GoodEnv, OccursAt;
    assert Old(base.obj) in r.ids;
    assert Sound(env, start, cellType, r, h, Old(base.obj));
  }

  /** A real traversal reaches, under the renaming, the imagined place, and names exactly
      the objects on the way. */
  lemma {:induction false} TraversalRuns(env: Env, start: Heap, cellType: TypeId, base: Addr, root: TypeId,
                                         index: seq<nat>, r: Renaming, h: Heap) returns (r': Renaming)
    requires GoodEnv(env) && WellTyped(env, start) && Typed(env, start, base, root) && GoodPath(env, root, index)
    requires Runs(env, start, cellType, r, h)
    ensures var (h', a) := Traversed(h, base, StepsTo(env, root, index));
            var q := PlaceOf(env, start, base, root, index);
            && Runs(env, start, cellType, r', h') && Grows(r, r')
            && r'.ids.Keys == r.ids.Keys + ObjectsOn(env, start, base, root, index)
            && a == Real(r', q)
  {
    hide GoodEnv, PlaceTyped, WellTyped, FieldSteps, FieldPlace, Runs, Traversed, Typed;
    if index == [] {
      r' := r;
      NothingTraversed(env, start, cellType, base, root, r, h);
    } else {
      var up := index[..|index| - 1];
      var r1 := TraversalRuns(env, start, cellType, base, root, up, r, h);
      TraversalSplits(h, base, StepsTo(env, root, up), FieldSteps(env, LastField(env, root, index)));
      PlaceOfTyped(env, start, base, root, up);
      var h1 := Traversed(h, base, StepsTo(env, root, up)).0;
      var q1 := PlaceOf(env, start, base, root, up);
      r' := FieldRuns(env, start, cellType, r1, h1, q1, TypeAt(env, root, up), index[|index| - 1]);
    }
  }

  /** So does a new discard cell. */
  lemma CellRuns(env: Env, start: Heap, cellType: TypeId, column: nat, r: Renaming, h: Heap)
    requires GoodEnv(env) && Runs(env, start, cellType, r, h) && Cell(column) !in r.ids
    ensures Runs(env, start, cellType, Add(r, Cell(column), h.next), WithCell(h, cellType))
    ensures Grows(r, Add(r, Cell(column), h.next))
  {
    hide GoodEnv, PlaceTyped, AllSound, AllNamed, AllExplained, Sound;
    CellIsSound(env, start, cellType, column, r, h);
    StillRuns(env, start, cellType, r, h, Cell(column), WithCell(h, cellType));
  }

  lemma CellIsSound(env: Env, start: Heap, cellType: TypeId, column: nat, r: Renaming, h: Heap)
    requires GoodEnv(env) && Closed(h)
    ensures Sound(env, start, cellType, Add(r, Cell(column), h.next), WithCell(h, cellType), Cell(column))
    ensures OneMore(h, WithCell(h, cellType))
  {
    hide GoodEnv, PlaceTyped;
  }
}
