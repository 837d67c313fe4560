/** What lazy traversal promises: it reaches the field, changes no pointer that was set,
    fills nil ones with fresh zeroed objects, and keeps every address handed out valid. */
module MemoryLaws {
  import opened Text
  import opened Types
  import opened Memory

  /** Every pointer points into a known object, and identities are not reused. */
  ghost predicate Closed(h: Heap) {
    && (forall o :: o in h.objs ==> o < h.next)
    && (forall p :: p in h.slots ==> p.obj in h.objs && h.slots[p].obj in h.objs)
  }

  /** `h'` is `h` with some nil slots filled by pointers to new objects, one each. */
  ghost predicate Extends(h: Heap, h': Heap) {
    && h.next <= h'.next
    && (forall o :: o in h.objs ==> o in h'.objs && h'.objs[o] == h.objs[o])
    && (forall p :: p in h.slots ==> p in h'.slots && h'.slots[p] == h.slots[p])
    && (forall p :: p in h'.slots && p !in h.slots ==>
          h'.slots[p].off == 0 && h.next <= h'.slots[p].obj < h'.next && h'.slots[p].obj in h'.objs)
    && (forall p, q :: p in h'.slots && q in h'.slots && p !in h.slots && q !in h.slots && p != q ==>
          h'.slots[p] != h'.slots[q])
  }

  lemma FilledExtends(h: Heap, h1: Heap, p: Addr, elem: TypeId)
    requires Closed(h1) && Extends(h, h1) && p.obj in h1.objs
    ensures Closed(Filled(h1, p, elem)) && Extends(h, Filled(h1, p, elem))
    ensures Target(Filled(h1, p, elem), p).obj in Filled(h1, p, elem).objs
  {
  }

  /** Following steps changes no pointer that is set and fills nil ones with fresh
      objects only. */
  lemma {:induction false} TraversalExtends(h: Heap, base: Addr, steps: seq<Step>)
    requires Closed(h) && base.obj in h.objs
    ensures var (h', a) := Traversed(h, base, steps);
            Closed(h') && Extends(h, h') && a.obj in h'.objs
  {
    if steps != [] {
      var up, last := steps[..|steps| - 1], steps[|steps| - 1];
      TraversalExtends(h, base, up);
      var (h1, a) := Traversed(h, base, up);
      if last.elem.Some? {
        FilledExtends(h, h1, Shift(a, last.offset), last.elem.value);
      }
    }
  }

  /** Every pointer set in `h` is set to the same in `h'`. */
  ghost predicate KeepsPointers(h: Heap, h': Heap) {
    forall p :: p in h.slots ==> p in h'.slots && h'.slots[p] == h.slots[p]
  }

  lemma {:induction false} TraversalKeepsPointers(h: Heap, base: Addr, steps: seq<Step>)
    ensures KeepsPointers(h, Traversed(h, base, steps).0)
  {
    if steps != [] {
      TraversalKeepsPointers(h, base, steps[..|steps| - 1]);
    }
  }

  /** Addresses stay valid: after a traversal, in any later heap that keeps the pointers
      set so far, the same steps reach the same address and change nothing. */
  lemma {:induction false} AddressesStayValid(h: Heap, base: Addr, steps: seq<Step>, later: Heap)
    requires KeepsPointers(Traversed(h, base, steps).0, later)
    ensures Traversed(later, base, steps) == (later, Traversed(h, base, steps).1)
  {
    if steps != [] {
      var up, last := steps[..|steps| - 1], steps[|steps| - 1];
      AddressesStayValid(h, base, up, later);
    }
  }

  lemma {:induction false} TraversalSplits(h: Heap, base: Addr, s: seq<Step>, t: seq<Step>)
    ensures Traversed(h, base, s + t)
         == Traversed(Traversed(h, base, s).0, Traversed(h, base, s).1, t)
  {
    if t == [] {
      assert s + t == s;
    } else {
      TraversalSplits(h, base, s, t[..|t| - 1]);
      assert (s + t)[..|s + t| - 1] == s + t[..|t| - 1];
    }
  }

  /** Fields behind the same pointers end up in the same object: after one of them was
      traversed, the other continues from the same place. */
  lemma SharedPrefix(h: Heap, base: Addr, shared: seq<Step>, s: seq<Step>, t: seq<Step>)
    ensures var (h1, a) := Traversed(h, base, shared + s);
            Traversed(h1, base, shared + t) == Traversed(h1, Traversed(h, base, shared).1, t)
  {
    var h1 := Traversed(h, base, shared + s).0;
    TraversalSplits(h, base, shared, s);
    TraversalKeepsPointers(Traversed(h, base, shared).0, Traversed(h, base, shared).1, s);
    AddressesStayValid(h, base, shared, h1);
    TraversalSplits(h1, base, shared, t);
  }

  // ---- steps against index paths ---------------------------------------------------------

  lemma FieldTraversal(env: Env, h: Heap, a: Addr, f: Field)
    ensures Traversed(h, a, FieldSteps(env, f))
         == var p := Shift(a, f.offset);
            if IsPointer(env, f.typ) then
              var h' := Filled(h, p, env[f.typ].shape.elem);
              (h', Target(h', p))
            else (h, p)
  {
    var move := [Step(f.offset, None)];
    assert move[..0] == [];
    assert Traversed(h, a, move) == (h, Shift(a, f.offset));
    if IsPointer(env, f.typ) {
      var steps := FieldSteps(env, f);
      assert steps[..1] == move;
      assert Shift(Shift(a, f.offset), 0) == Shift(a, f.offset);
    } else {
      assert FieldSteps(env, f) == move;
    }
  }

  /** The steps of a path lead where its slot is, one dereference further for a pointer. */
  lemma {:induction false} TraversalIsSlot(env: Env, h: Heap, base: Addr, root: TypeId, index: seq<nat>)
    requires GoodPath(env, root, index)
    ensures var (h1, a) := Traversed(h, base, StepsTo(env, root, index));
            var (h2, v) := SlotOf(env, h, base, root, index);
            && h1 == h2
            && (if ByPointer(env, root, index) then v in h2.slots && a == h2.slots[v] else a == v)
  {
    if index != [] {
      var up, f := index[..|index| - 1], LastField(env, root, index);
      TraversalIsSlot(env, h, base, root, up);
      TraversalSplits(h, base, StepsTo(env, root, up), FieldSteps(env, f));
      var (h1, a) := Traversed(h, base, StepsTo(env, root, up));
      FieldTraversal(env, h1, a, f);
    }
  }

  /** The object a walk stands in after `index`: in an old object nothing was changed so
      far, and a new one has no slot set. */
  ghost predicate AtFrontier(h: Heap, h': Heap, at: nat) {
    && Closed(h') && Extends(h, h') && at in h'.objs
    && (at in h.objs ==> h' == h)
    && (at !in h.objs ==> at >= h.next && forall s :: s in h'.slots ==> s.obj != at)
  }

  lemma FilledFrontier(h: Heap, h1: Heap, p: Addr, elem: TypeId)
    requires Closed(h) && AtFrontier(h, h1, p.obj)
    ensures AtFrontier(h, Filled(h1, p, elem), Target(Filled(h1, p, elem), p).obj)
  {
    FilledExtends(h, h1, p, elem);
  }

  /** The read-only walk finds the slot of a path exactly when that slot lies in an object
      that already exists. Where it does not, the read-only walk reports a zero value. */
  lemma {:induction false} ReadOnlyAgrees(env: Env, h: Heap, base: Addr, root: TypeId, index: seq<nat>)
    requires GoodPath(env, root, index) && Closed(h) && base.obj in h.objs
    ensures var (h', v) := SlotOf(env, h, base, root, index);
            && (v.obj in h.objs ==> ReadOnly(env, h, base, root, index) == Found(v))
            && (v.obj !in h.objs ==> ReadOnly(env, h, base, root, index) == Zero && v.obj >= h.next)
            && AtFrontier(h, h', if ByPointer(env, root, index) then Target(h', v).obj else v.obj)
  {
    if index != [] {
      var up, f := index[..|index| - 1], LastField(env, root, index);
      ReadOnlyAgrees(env, h, base, root, up);
      TraversalIsSlot(env, h, base, root, up);
      var (h1, a) := SlotOf(env, h, base, root, up);
      var p := Shift(if ByPointer(env, root, up) then Target(h1, a) else a, f.offset);
      if IsPointer(env, f.typ) {
        FilledFrontier(h, h1, p, env[f.typ].shape.elem);
      }
    }
  }

  /** Which values are read-only: that of an unexported field, and everything reached through
      an unexported field that is not embedded. */
  lemma RestrictedExactly(env: Env, root: TypeId, index: seq<nat>)
    requires GoodPath(env, root, index) && index != []
    ensures Restricted(env, root, index)
       <==> || !LastField(env, root, index).exported
            || exists p :: p < index && p != [] && GoodPath(env, root, p)
                           && !LastField(env, root, p).exported && !LastField(env, root, p).anonymous
  {
    var up := index[..|index| - 1];
    StickyExactly(env, root, up);
    hide Sticky;
    assert forall p: seq<nat> :: GoodPath(env, root, p) ==> (p < index <==> p <= up) by {
      forall p | GoodPath(env, root, p)
        ensures p < index <==> p <= up
      {
        if p < index {
          assert p == up[..|p|];
        }
      }
    }
    StickyStep(env, root, index);
  }

  lemma StickyStep(env: Env, root: TypeId, index: seq<nat>)
    requires GoodPath(env, root, index) && index != []
    ensures Sticky(env, root, index)
       <==> || Sticky(env, root, index[..|index| - 1])
            || (!LastField(env, root, index).exported && !LastField(env, root, index).anonymous)
  {
  }

  lemma {:induction false} StickyExactly(env: Env, root: TypeId, index: seq<nat>)
    requires GoodPath(env, root, index)
    ensures Sticky(env, root, index)
       <==> exists p :: p <= index && p != [] && GoodPath(env, root, p)
                        && !LastField(env, root, p).exported && !LastField(env, root, p).anonymous
  {
    if index != [] {
      var up := index[..|index| - 1];
      StickyExactly(env, root, up);
      forall p | GoodPath(env, root, p)
        ensures p <= index <==> p == index || p <= up
      {
        if p <= index && |p| < |index| {
          assert p == up[..|p|];
        }
      }
    }
  }

  // ---- when the reflective walk panics -------------------------------------------------------

  /** The field at the end of `p` is read-only and would have to be set: it is a pointer or
      map that is nil, or lies behind a pointer that is. */
  predicate Refused(env: Env, h: Heap, base: Addr, root: TypeId, p: seq<nat>)
    requires GoodPath(env, root, p)
  {
    && p != [] && Restricted(env, root, p) && Made(env, LastField(env, root, p).typ)
    && match ReadOnly(env, h, base, root, p)
       case Zero => true
       case Found(a) => a !in h.slots
  }

  ghost predicate SomeRefused(env: Env, h: Heap, base: Addr, root: TypeId, index: seq<nat>)
    requires GoodPath(env, root, index)
  {
    exists p :: p <= index && GoodPath(env, root, p) && Refused(env, h, base, root, p)
  }

  lemma RefusedAbove(env: Env, h: Heap, base: Addr, root: TypeId, index: seq<nat>)
    requires GoodPath(env, root, index) && index != []
    ensures SomeRefused(env, h, base, root, index)
       <==> SomeRefused(env, h, base, root, index[..|index| - 1]) || Refused(env, h, base, root, index)
  {
    var up := index[..|index| - 1];
    forall p | p <= index && GoodPath(env, root, p)
      ensures p <= up || p == index
    {
      if |p| < |index| {
        assert p == up[..|p|];
      }
    }
    assert forall p :: p <= up && GoodPath(env, root, p) ==> p <= index;
  }

  /** What the reflective walk leaves behind: the heap of the steps, and a map it ended at. */
  function WithMap(env: Env, h: Heap, root: TypeId, index: seq<nat>, v: Addr): Heap
    requires GoodPath(env, root, index)
  {
    if index != [] && LastField(env, root, index).typ in env && env[LastField(env, root, index).typ].shape.Map?
    then Filled(h, v, LastField(env, root, index).typ) else h
  }

  /** The reflective walk panics if and only if some field on its path is refused.
      Otherwise it ends at the path's slot. */
  lemma {:induction false} WalkReachesSlot(env: Env, h: Heap, base: Addr, root: TypeId, index: seq<nat>)
    requires GoodPath(env, root, index) && Closed(h) && base.obj in h.objs
    ensures var (h1, v) := SlotOf(env, h, base, root, index);
            var (h2, at) := ByIndexes(env, h, base, root, index);
            && (at == None <==> SomeRefused(env, h, base, root, index))
            && (at != None ==> at == Some(v) && h2 == WithMap(env, h1, root, index, v))
  {
    hide SomeRefused, Restricted, AtFrontier, Extends, Closed;
    if index == [] {
      NothingRefused(env, h, base, root);
    } else {
      var up, f := index[..|index| - 1], LastField(env, root, index);
      WalkReachesSlot(env, h, base, root, up);
      RefusedAbove(env, h, base, root, index);
      var (h1, a) := SlotOf(env, h, base, root, up);
      NoMapAbove(env, h1, root, index, a);
      SlotSet(env, h, base, root, index);
    }
  }

  lemma NothingRefused(env: Env, h: Heap, base: Addr, root: TypeId)
    ensures GoodPath(env, root, []) && !SomeRefused(env, h, base, root, [])
  {
  }

  /** Only the last field of a path can be a map. */
  lemma NoMapAbove(env: Env, h: Heap, root: TypeId, index: seq<nat>, v: Addr)
    requires GoodPath(env, root, index) && index != []
    ensures GoodPath(env, root, index[..|index| - 1])
    ensures WithMap(env, h, root, index[..|index| - 1], v) == h
  {
    var up := index[..|index| - 1];
    assert IsStruct(env, TypeAt(env, root, up));
    if up != [] {
      assert TypeAt(env, root, up) == Deref(env, LastField(env, root, up).typ);
    }
  }

  /** Whether the slot of a path is set when the walk comes to it can be read off the
      starting heap. */
  lemma SlotSet(env: Env, h: Heap, base: Addr, root: TypeId, index: seq<nat>)
    requires GoodPath(env, root, index) && Closed(h) && base.obj in h.objs && index != []
    ensures GoodPath(env, root, index[..|index| - 1])
    ensures var (h1, a) := SlotOf(env, h, base, root, index[..|index| - 1]);
            SlotOf(env, h, base, root, index).1 in h1.slots
            <==> match ReadOnly(env, h, base, root, index)
                 case Zero => false
                 case Found(v) => v in h.slots
  {
    ReadOnlyAgrees(env, h, base, root, index[..|index| - 1]);
    ReadOnlyAgrees(env, h, base, root, index);
  }

  /** Steps against the reflective walk. The walk panics if and only if some field on its
      path is refused; if not, both leave the same heap, but for a map the walk ends at,
      and meet at the same location, the walk one dereference short of a pointer. */
  lemma TraversalIsByIndexes(env: Env, h: Heap, base: Addr, root: TypeId, index: seq<nat>)
    requires GoodPath(env, root, index) && Closed(h) && base.obj in h.objs
    ensures var (h1, a) := Traversed(h, base, StepsTo(env, root, index));
            var (h2, at) := ByIndexes(env, h, base, root, index);
            && (at == None <==> SomeRefused(env, h, base, root, index))
            && (at != None ==>
                  && h2 == WithMap(env, h1, root, index, at.value)
                  && (if ByPointer(env, root, index) then at.value in h1.slots && a == h1.slots[at.value]
                      else a == at.value))
  {
    TraversalIsSlot(env, h, base, root, index);
    WalkReachesSlot(env, h, base, root, index);
  }

  /** Off every pointer path the traversal is one addition. */
  lemma {:induction false} StraightTraversal(env: Env, h: Heap, base: Addr, root: TypeId, index: seq<nat>)
    requires GoodPath(env, root, index) && !ThroughPointer(env, root, index)
    ensures Traversed(h, base, StepsTo(env, root, index)) == (h, Shift(base, OffsetOf(env, root, index)))
  {
    if index != [] {
      var up, f := index[..|index| - 1], LastField(env, root, index);
      StraightTraversal(env, h, base, root, up);
      TraversalSplits(h, base, StepsTo(env, root, up), FieldSteps(env, f));
      FieldTraversal(env, h, Shift(base, OffsetOf(env, root, up)), f);
    }
  }

  // ---- types in memory ---------------------------------------------------------------------

  /** A value of type `u` lies `off` bytes into every value of type `t`. */
  ghost predicate OccursAt(env: Env, t: TypeId, off: nat, u: TypeId)
    requires GoodEnv(env)
    decreases if t in env then env[t].rank else 0
  {
    || (off == 0 && t == u)
    || (IsStruct(env, t) &&
        assert GoodLayout(env, env[t].shape.fields, env[t].size, env[t].rank);
        exists i :: 0 <= i < |env[t].shape.fields| && OccursInField(env, t, i, off, u))
  }

  ghost predicate OccursInField(env: Env, t: TypeId, i: nat, off: nat, u: TypeId)
    requires GoodEnv(env) && IsStruct(env, t) && i < |env[t].shape.fields|
    decreases env[t].rank, 0
  {
    var f := env[t].shape.fields[i];
    assert GoodLayout(env, env[t].shape.fields, env[t].size, env[t].rank);
    f.offset <= off && OccursAt(env, f.typ, off - f.offset, u)
  }

  /** Memory at `a` holds a value of type `t`. */
  ghost predicate Typed(env: Env, h: Heap, a: Addr, t: TypeId)
    requires GoodEnv(env)
  {
    a.obj in h.objs && OccursAt(env, h.objs[a.obj], a.off, t)
  }

  /** Slots hold pointers to values of the type their static type promises. */
  ghost predicate WellTyped(env: Env, h: Heap)
    requires GoodEnv(env)
  {
    && Closed(h)
    && (forall o :: o in h.objs ==> h.objs[o] in env)
    && (forall p, t :: p in h.slots && IsPointer(env, t) && Typed(env, h, p, t) ==>
          Typed(env, h, h.slots[p], env[t].shape.elem))
  }

  /** What occurs in a value lies inside it. */
  lemma {:induction false} OccursInside(env: Env, t: TypeId, off: nat, u: TypeId)
    requires GoodEnv(env) && t in env && OccursAt(env, t, off, u)
    ensures u in env && off + env[u].size <= env[t].size
    decreases env[t].rank
  {
    if !(off == 0 && t == u) {
      assert GoodLayout(env, env[t].shape.fields, env[t].size, env[t].rank);
      var i :| 0 <= i < |env[t].shape.fields| && OccursInField(env, t, i, off, u);
      OccursInside(env, env[t].shape.fields[i].typ, off - env[t].shape.fields[i].offset, u);
    }
  }

  /** A field of a struct that occurs in a value occurs in it too. */
  lemma {:induction false} FieldOccurs(env: Env, t: TypeId, off: nat, u: TypeId, i: nat)
    requires GoodEnv(env) && t in env && OccursAt(env, t, off, u)
    requires IsStruct(env, u) && i < |env[u].shape.fields|
    ensures OccursAt(env, t, off + env[u].shape.fields[i].offset, env[u].shape.fields[i].typ)
    decreases env[t].rank
  {
    var f := env[u].shape.fields[i];
    assert GoodLayout(env, env[u].shape.fields, env[u].size, env[u].rank);
    if off == 0 && t == u {
      assert OccursAt(env, f.typ, 0, f.typ);
      assert OccursInField(env, t, i, f.offset, f.typ);
    } else {
      assert GoodLayout(env, env[t].shape.fields, env[t].size, env[t].rank);
      var j :| 0 <= j < |env[t].shape.fields| && OccursInField(env, t, j, off, u);
      FieldOccurs(env, env[t].shape.fields[j].typ, off - env[t].shape.fields[j].offset, u, i);
      assert OccursInField(env, t, j, off + f.offset, f.typ);
    }
  }

  /** Two pointers at the same place are the same pointer: fields do not overlap. */
  lemma {:induction false} PointerUnique(env: Env, t: TypeId, off: nat, u: TypeId, v: TypeId)
    requires GoodEnv(env) && t in env && OccursAt(env, t, off, u) && OccursAt(env, t, off, v)
    requires IsPointer(env, u) && IsPointer(env, v)
    ensures u == v
    decreases env[t].rank
  {
    if IsStruct(env, t) {
      var fields := env[t].shape.fields;
      assert GoodLayout(env, fields, env[t].size, env[t].rank);
      var i :| 0 <= i < |fields| && OccursInField(env, t, i, off, u);
      var j :| 0 <= j < |fields| && OccursInField(env, t, j, off, v);
      OccursInside(env, fields[i].typ, off - fields[i].offset, u);
      OccursInside(env, fields[j].typ, off - fields[j].offset, v);
      assert env[u].size > 0 && env[v].size > 0;
      assert i == j;
      PointerUnique(env, fields[i].typ, off - fields[i].offset, u, v);
    }
  }

  /** Filling a nil pointer slot keeps memory well typed. */
  lemma FilledWellTyped(env: Env, h: Heap, p: Addr, t: TypeId)
    requires GoodEnv(env) && WellTyped(env, h) && IsPointer(env, t) && Typed(env, h, p, t)
    ensures var h' := Filled(h, p, env[t].shape.elem);
            && WellTyped(env, h') && p in h'.slots && Typed(env, h', h'.slots[p], env[t].shape.elem)
            && forall a, u :: Typed(env, h, a, u) ==> Typed(env, h', a, u)
  {
    var elem := env[t].shape.elem;
    var h' := Filled(h, p, elem);
    if p !in h.slots {
      assert OccursAt(env, elem, 0, elem);
      forall q, u | q in h'.slots && IsPointer(env, u) && Typed(env, h', q, u)
        ensures Typed(env, h', h'.slots[q], env[u].shape.elem)
      {
        if q == p {
          PointerUnique(env, h.objs[p.obj], p.off, u, t);
        } else {
          assert q.obj in h.objs && Typed(env, h, q, u);
          assert Typed(env, h, h.slots[q], env[u].shape.elem);
        }
      }
    }
  }

  /** Memory safety: from a well typed base, the traversal of a path keeps memory well
      typed and ends at a value of the path's type that fits inside its object. */
  lemma {:induction false} TraversalWellTyped(env: Env, h: Heap, base: Addr, root: TypeId, index: seq<nat>)
    requires GoodEnv(env) && WellTyped(env, h) && Typed(env, h, base, root) && GoodPath(env, root, index)
    ensures var (h', a) := Traversed(h, base, StepsTo(env, root, index));
            && WellTyped(env, h') && Typed(env, h', a, TypeAt(env, root, index))
            && a.obj in h'.objs && h'.objs[a.obj] in env && TypeAt(env, root, index) in env
            && a.off + env[TypeAt(env, root, index)].size <= env[h'.objs[a.obj]].size
  {
    if index != [] {
      var up, f := index[..|index| - 1], LastField(env, root, index);
      TraversalWellTyped(env, h, base, root, up);
      var (h1, a1) := Traversed(h, base, StepsTo(env, root, up));
      TraversalSplits(h, base, StepsTo(env, root, up), FieldSteps(env, f));
      FieldTraversal(env, h1, a1, f);
      FieldOccurs(env, h1.objs[a1.obj], a1.off, TypeAt(env, root, up), index[|index| - 1]);
      var p := Shift(a1, f.offset);
      assert Typed(env, h1, p, f.typ);
      if IsPointer(env, f.typ) {
        FilledWellTyped(env, h1, p, f.typ);
      }
    }
    var (h', a) := Traversed(h, base, StepsTo(env, root, index));
    OccursInside(env, h'.objs[a.obj], a.off, TypeAt(env, root, index));
  }
}
