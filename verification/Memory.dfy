/** Memory as the mapper walks it: objects with pointer slots that start out nil, the
    step-driven traversal that fills them, and the two reflective walks by index path. */
module Memory {
  import opened Text
  import opened Types

  datatype Addr = Addr(obj: nat, off: nat)

  /** The objects with their types, and what the non-nil pointer slots point to. A slot
      that is not in the map is nil, so a new object starts out zeroed. */
  datatype Heap = Heap(objs: map<nat, TypeId>, slots: map<Addr, Addr>, next: nat)

  function Shift(a: Addr, offset: nat): Addr {
    Addr(a.obj, a.off + offset)
  }

  /** A new object of type `elem`, stored in slot `p`. */
  function Alloc(h: Heap, p: Addr, elem: TypeId): Heap {
    Heap(h.objs[h.next := elem], h.slots[p := Addr(h.next, 0)], h.next + 1)
  }

  /** A new object no pointer leads to: the cell an unmatched column is read into. */
  function WithCell(h: Heap, cellType: TypeId): Heap {
    Heap(h.objs[h.next := cellType], h.slots, h.next + 1)
  }

  /** Slot `p` filled if it was nil. */
  function Filled(h: Heap, p: Addr, elem: TypeId): Heap {
    if p in h.slots then h else Alloc(h, p, elem)
  }

  function Target(h: Heap, p: Addr): Addr {
    if p in h.slots then h.slots[p] else p
  }

  /** The meaning of following steps: the heap they leave and the address they reach. */
  function Traversed(h: Heap, base: Addr, steps: seq<Step>): (Heap, Addr) {
    if steps == [] then (h, base)
    else
      var (h1, a) := Traversed(h, base, steps[..|steps| - 1]);
      var last := steps[|steps| - 1];
      var p := Shift(a, last.offset);
      match last.elem
      case None => (h1, p)
      case Some(elem) => (Filled(h1, p, elem), Target(Filled(h1, p, elem), p))
  }

  /** Where an index path leads if every nil pointer on it can be filled. The slot reached
      is not dereferenced. */
  function SlotOf(env: Env, h: Heap, base: Addr, root: TypeId, index: seq<nat>): (Heap, Addr)
    requires GoodPath(env, root, index)
  {
    if index == [] then (h, base)
    else
      var up := index[..|index| - 1];
      var (h1, a) := SlotOf(env, h, base, root, up);
      var f := LastField(env, root, index);
      var p := Shift(if ByPointer(env, root, up) then Target(h1, a) else a, f.offset);
      (if IsPointer(env, f.typ) then Filled(h1, p, env[f.typ].shape.elem) else h1, p)
  }

  predicate ByPointer(env: Env, root: TypeId, index: seq<nat>)
    requires GoodPath(env, root, index)
  {
    index != [] && IsPointer(env, LastField(env, root, index).typ)
  }

  /** Fields the reflective walk makes where they are nil: what a pointer points to, or the
      contents of a map. */
  predicate Made(env: Env, t: TypeId) {
    IsPointer(env, t) || IsMap(env, t)
  }

  function MadeType(env: Env, t: TypeId): TypeId {
    if IsPointer(env, t) then env[t].shape.elem else t
  }

  /** The meaning of the reflective walk: it fills nil pointers and maps by setting the
      field, which panics (`None`) on a value that is read-only. */
  function ByIndexes(env: Env, h: Heap, base: Addr, root: TypeId, index: seq<nat>): (Heap, Option<Addr>)
    requires GoodPath(env, root, index)
  {
    if index == [] then (h, Some(base))
    else
      var up := index[..|index| - 1];
      var (h1, at) := ByIndexes(env, h, base, root, up);
      if at == None then (h1, None)
      else
        var f := LastField(env, root, index);
        var p := Shift(if ByPointer(env, root, up) then Target(h1, at.value) else at.value, f.offset);
        if !Made(env, f.typ) || p in h1.slots then (h1, Some(p))
        else if Restricted(env, root, index) then (h1, None)
        else (Alloc(h1, p, MadeType(env, f.typ)), Some(p))
  }

  /** What a read-only walk ends at: an address, or a zero value that is nowhere. */
  datatype Value = Found(a: Addr) | Zero

  function ReadOnly(env: Env, h: Heap, base: Addr, root: TypeId, index: seq<nat>): Value
    requires GoodPath(env, root, index)
  {
    if index == [] then Found(base)
    else
      var up := index[..|index| - 1];
      match ReadOnly(env, h, base, root, up)
      case Zero => Zero
      case Found(a) =>
        var f := LastField(env, root, index);
        if ByPointer(env, root, up) then
          if a in h.slots then Found(Shift(h.slots[a], f.offset)) else Zero
        else Found(Shift(a, f.offset))
  }

  /** After a panic nothing more happens. */
  lemma {:induction false} PanicStays(env: Env, h: Heap, base: Addr, root: TypeId, index: seq<nat>, k: nat)
    requires k <= |index| && GoodPath(env, root, index) && GoodPath(env, root, index[..k])
    requires ByIndexes(env, h, base, root, index[..k]).1 == None
    ensures ByIndexes(env, h, base, root, index) == ByIndexes(env, h, base, root, index[..k])
  {
    if k == |index| {
      assert index[..k] == index;
    } else {
      var up := index[..|index| - 1];
      assert up[..k] == index[..k];
      PanicStays(env, h, base, root, up, k);
    }
  }

  // ---- the code ------------------------------------------------------------------------

  class Memory {
    var objs: map<nat, TypeId>
    var slots: map<Addr, Addr>
    var next: nat

    function Snapshot(): Heap
      reads this
    {
      Heap(objs, slots, next)
    }

    constructor (h: Heap)
      ensures Snapshot() == h
    {
      objs, slots, next := h.objs, h.slots, h.next;
    }

    /** A fresh zeroed object of type `elem`, put into slot `p`. */
    method New(p: Addr, elem: TypeId)
      modifies this
      ensures Snapshot() == Alloc(old(Snapshot()), p, elem)
    {
      objs := objs[next := elem];
      slots := slots[p := Addr(next, 0)];
      next := next + 1;
    }

    method NewCell(cellType: TypeId) returns (a: Addr)
      modifies this
      ensures Snapshot() == WithCell(old(Snapshot()), cellType) && a == Addr(old(next), 0)
    {
      a := Addr(next, 0);
      objs := objs[next := cellType];
      next := next + 1;
    }

    method AddrByTraversal(base: Addr, steps: seq<Step>) returns (ptr: Addr)
      modifies this
      ensures (Snapshot(), ptr) == Traversed(old(Snapshot()), base, steps)
    {
      ptr := base;
      for i := 0 to |steps|
        invariant (Snapshot(), ptr) == Traversed(old(Snapshot()), base, steps[..i])
      {
        assert steps[..i + 1][..i] == steps[..i];
        ptr := Shift(ptr, steps[i].offset);
        if steps[i].elem.Some? {
          var p := ptr;
          if p !in slots {
            New(p, steps[i].elem.value);
          }
          ptr := slots[p];
        }
      }
      assert steps[..|steps|] == steps;
    }

    method FieldByIndexes(env: Env, base: Addr, root: TypeId, index: seq<nat>) returns (v: Option<Addr>)
      requires GoodPath(env, root, index)
      modifies this
      ensures (Snapshot(), v) == ByIndexes(env, old(Snapshot()), base, root, index)
    {
      var a := base;
      var t, isPtr, sticky := root, false, false;
      PrefixIsGood(env, root, [], index);
      for k := 0 to |index|
        invariant GoodPath(env, root, index[..k]) && t == TypeAt(env, root, index[..k])
        invariant isPtr == ByPointer(env, root, index[..k]) && sticky == Sticky(env, root, index[..k])
        invariant (Snapshot(), Some(a)) == ByIndexes(env, old(Snapshot()), base, root, index[..k])
        invariant isPtr ==> a in slots
      {
        assert index[..k + 1][..k] == index[..k];
        PrefixIsGood(env, root, index[..k + 1], index);
        var f := env[t].shape.fields[index[k]];
        assert f == LastField(env, root, index[..k + 1]);
        a := Shift(if isPtr then slots[a] else a, f.offset);
        isPtr := IsPointer(env, f.typ);
        sticky := sticky || (!f.exported && !f.anonymous);
        if Made(env, f.typ) && a !in slots {
          if sticky || !f.exported {
            PanicStays(env, old(Snapshot()), base, root, index, k + 1);
            return None;
          }
          New(a, MadeType(env, f.typ));
        }
        t := Deref(env, f.typ);
      }
      assert index[..|index|] == index;
      v := Some(a);
    }

    /** The read-only walk keeps a local value and never writes. */
    method FieldByIndexesReadOnly(env: Env, base: Addr, root: TypeId, index: seq<nat>) returns (v: Value)
      requires GoodPath(env, root, index)
      ensures v == ReadOnly(env, Snapshot(), base, root, index)
    {
      v := Found(base);
      var t, isPtr := root, false;
      PrefixIsGood(env, root, [], index);
      for k := 0 to |index|
        invariant GoodPath(env, root, index[..k]) && t == TypeAt(env, root, index[..k])
        invariant isPtr == (k > 0 && IsPointer(env, LastField(env, root, index[..k]).typ))
        invariant v == ReadOnly(env, Snapshot(), base, root, index[..k])
      {
        assert index[..k + 1][..k] == index[..k];
        PrefixIsGood(env, root, index[..k + 1], index);
        var f := env[t].shape.fields[index[k]];
        assert f == LastField(env, root, index[..k + 1]);
        if isPtr && v.Found? {
          v := if v.a in slots then Found(slots[v.a]) else Zero;
        }
        if v.Found? {
          v := Found(Shift(v.a, f.offset));
        }
        isPtr := IsPointer(env, f.typ);
        t := Deref(env, f.typ);
      }
      assert index[..|index|] == index;
    }
  }
}
