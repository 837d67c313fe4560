/** The result buffer of the row loop: rows are filled one after the other, and when the
    buffer is full its rows are copied to a larger one. Whatever the buffers went through,
    the next row to fill holds no pointer. */
module BufferGrowth {
  import opened Text
  import opened Types
  import opened Memory
  import opened MemoryLaws
  import opened LazyOrder
  import opened ScanMeta
  import opened ScanLaws
  import opened Disjoint

  // ---- values inside values ------------------------------------------------------------------

  /** What occurs in a part occurs in the whole. */
  lemma {:induction false} OccursWithin(env: Env, t: TypeId, off: nat, u: TypeId, x: nat, v: TypeId)
    requires GoodEnv(env) && t in env && OccursAt(env, t, off, u) && OccursAt(env, u, x, v)
    ensures OccursAt(env, t, off + x, v)
    decreases env[t].rank
  {
    if !(off == 0 && t == u) {
      var fields := env[t].shape.fields;
      assert GoodLayout(env, fields, env[t].size, env[t].rank);
      var i :| 0 <= i < |fields| && OccursInField(env, t, i, off, u);
      OccursWithin(env, fields[i].typ, off - fields[i].offset, u, x, v);
      assert OccursInField(env, t, i, off + x, v);
    }
  }

  /** A pointer that starts among the bytes of a part belongs to that part. */
  lemma {:induction false} PointerWithin(env: Env, t: TypeId, off: nat, u: TypeId, x: nat, v: TypeId)
    requires GoodEnv(env) && t in env && OccursAt(env, t, off, u) && OccursAt(env, t, off + x, v)
    requires IsPointer(env, v) && u in env && x < env[u].size
    ensures OccursAt(env, u, x, v)
    decreases env[t].rank
  {
    if !(off == 0 && t == u) {
      var fields := env[t].shape.fields;
      assert GoodLayout(env, fields, env[t].size, env[t].rank);
      var i :| 0 <= i < |fields| && OccursInField(env, t, i, off, u);
      var j :| 0 <= j < |fields| && OccursInField(env, t, j, off + x, v);
      OccursInside(env, fields[i].typ, off - fields[i].offset, u);
      OccursInside(env, fields[j].typ, off + x - fields[j].offset, v);
      assert env[v].size > 0;
      assert i == j;
      PointerWithin(env, fields[i].typ, off - fields[i].offset, u, x, v);
    }
  }

  // ---- buffers -------------------------------------------------------------------------------

  /** Memory, and a buffer in it: where its first row is, how many rows are filled, and how
      many fit. */
  datatype Buffer = Buffer(h: Heap, base: Addr, n: nat, cap: nat)

  ghost predicate RowsTyped(env: Env, b: Buffer, root: TypeId)
    requires GoodEnv(env) && root in env
  {
    forall k :: 0 <= k < b.cap ==> Typed(env, b.h, RowAt(env, b.base, root, k), root)
  }

  /** Memory is well typed, the buffer holds rows, and those not filled hold no pointer. */
  ghost predicate Ready(env: Env, b: Buffer, root: TypeId)
    requires GoodEnv(env) && root in env
  {
    && b.n <= b.cap && WellTyped(env, b.h) && RowsTyped(env, b, root)
    && NilBytes(b.h, RowAt(env, b.base, root, b.n), (b.cap - b.n) * env[root].size)
  }

  /** The next row is filled. */
  ghost function FilledRow(env: Env, b: Buffer, root: TypeId, ms: seq<FieldMeta>, cellType: TypeId,
                           dest: seq<Option<Dest>>): Buffer
    requires root in env && InRange(ms, |dest|)
  {
    Buffer(FillAll(b.h, RowAt(env, b.base, root, b.n), ms, cellType, dest).0, b.base, b.n + 1, b.cap)
  }

  /** The type of an array of `cap` rows. */
  ghost predicate ArrayOf(env: Env, arrayType: TypeId, root: TypeId, cap: nat)
    requires GoodEnv(env) && root in env
  {
    arrayType in env && forall k :: 0 <= k < cap ==> OccursAt(env, arrayType, k * env[root].size, root)
  }

  /** The slots of a new array, object `id`, after the first `size` bytes from `base` were
      copied into it. */
  function CopiedSlots(h: Heap, base: Addr, size: nat, id: nat): map<Addr, Addr> {
    map off: nat | off < size && Shift(base, off) in h.slots :: Addr(id, off) := h.slots[Shift(base, off)]
  }

  /** Exactly the slots set among those bytes are set in the copy, to the same. */
  lemma CopiesMatch(h: Heap, base: Addr, size: nat, id: nat)
    ensures var copies := CopiedSlots(h, base, size, id);
            && (forall s :: s in copies <==> s.obj == id && s.off < size && Shift(base, s.off) in h.slots)
            && (forall s :: s in copies ==> copies[s] == h.slots[Shift(base, s.off)])
  {
  }

  /** The filled rows are copied to a new array for `cap` rows, zeroed otherwise. */
  function GrownBuffer(env: Env, b: Buffer, root: TypeId, arrayType: TypeId, cap: nat): Buffer
    requires root in env
  {
    var h, size := b.h, b.n * env[root].size;
    var slots := h.slots + CopiedSlots(h, b.base, size, h.next);
    Buffer(Heap(h.objs[h.next := arrayType], slots, h.next + 1), Addr(h.next, 0), b.n, cap)
  }

  // ---- filling a row --------------------------------------------------------------------------

  lemma RestOfBuffer(h: Heap, base: Addr, size: nat, rest: nat)
    ensures NilBytes(h, base, size + rest) <==>
              NilBytes(h, base, size) && NilBytes(h, Addr(base.obj, base.off + size), rest)
  {
  }

  lemma RowAndRest(env: Env, b: Buffer, root: TypeId)
    requires root in env && b.n < b.cap
    ensures var row, next := RowAt(env, b.base, root, b.n), RowAt(env, b.base, root, b.n + 1);
            next == Addr(row.obj, row.off + env[root].size)
    ensures (b.cap - b.n) * env[root].size == env[root].size + (b.cap - b.n - 1) * env[root].size
  {
    var size, m := env[root].size, b.cap - b.n - 1;
    assert (b.n + 1) * size == b.n * size + size;
    assert (m + 1) * size == m * size + size;
  }

  /** In a buffer that is ready the next row is new. */
  lemma NextRowIsNew(env: Env, b: Buffer, root: TypeId)
    requires GoodEnv(env) && root in env && Ready(env, b, root) && b.n < b.cap
    ensures Typed(env, b.h, RowAt(env, b.base, root, b.n), root)
    ensures Unset(env, b.h, RowAt(env, b.base, root, b.n), root)
  {
    hide GoodEnv, WellTyped, Typed, RowAt, NilBytes;
    RowAndRest(env, b, root);
    RestOfBuffer(b.h, RowAt(env, b.base, root, b.n), env[root].size, (b.cap - b.n - 1) * env[root].size);
  }

  /** Filling it leaves the rest of the buffer as ready as it was. */
  lemma FillKeepsReady(env: Env, b: Buffer, root: TypeId, ms: seq<FieldMeta>, cellType: TypeId,
                       dest: seq<Option<Dest>>)
    requires GoodEnv(env) && root in env && cellType in env && Ready(env, b, root) && b.n < b.cap
    requires AllFitting(env, root, ms) && InRange(ms, |dest|) && DistinctColumns(ms)
    ensures Ready(env, FilledRow(env, b, root, ms, cellType, dest), root)
  {
    var row, next, rest := RowAt(env, b.base, root, b.n), RowAt(env, b.base, root, b.n + 1),
                           (b.cap - b.n - 1) * env[root].size;
    NextRowIsNew(env, b, root);
    RowAndRest(env, b, root);
    RestOfBuffer(b.h, row, env[root].size, rest);
    hide GoodEnv, WellTyped, FillAll, Fitting, OccursAt, RowAt, NilBytes, Unset;
    FillAllSafe(env, root, b.h, row, ms, cellType, dest);
    OtherBytesStayNil(env, b.h, cellType, row, root, ms, dest, next.off, rest);
  }

  // ---- growing ---------------------------------------------------------------------------------

  /** The row a byte of the filled part belongs to. */
  lemma RowOf(off: nat, n: nat, size: nat) returns (k: nat, x: nat)
    requires off < n * size
    ensures k < n && x < size && off == k * size + x
  {
    assert size == 0 ==> n * size == 0;
    k, x := off / size, off % size;
    assert off == k * size + x;
    WholeRows(k, n, size);
  }

  lemma WholeRows(k: nat, n: nat, size: nat)
    ensures k * size < n * size ==> k < n
  {
    assert (k - n) * size == k * size - n * size;
  }

  /** A slot copied holds a pointer to what its type promises, as the one it was copied
      from did. */
  lemma CopyIsTyped(env: Env, b: Buffer, root: TypeId, arrayType: TypeId, cap: nat, s: Addr, t: TypeId)
    requires GoodEnv(env) && root in env && Ready(env, b, root) && ArrayOf(env, arrayType, root, cap) && b.n <= cap
    requires s in CopiedSlots(b.h, b.base, b.n * env[root].size, b.h.next)
    requires IsPointer(env, t) && OccursAt(env, arrayType, s.off, t)
    ensures Typed(env, b.h, Shift(b.base, s.off), t)
  {
    CopiesMatch(b.h, b.base, b.n * env[root].size, b.h.next);
    hide GoodEnv, OccursAt, NilBytes, CopiedSlots;
    var size := env[root].size;
    var k, x := RowOf(s.off, b.n, size);
    PointerWithin(env, arrayType, k * size, root, x, t);
    var row := RowAt(env, b.base, root, k);
    assert Typed(env, b.h, row, root);
    OccursWithin(env, b.h.objs[row.obj], row.off, root, x, t);
  }

  /** Where the slots of the grown heap come from. */
  lemma GrownSlots(env: Env, b: Buffer, root: TypeId, arrayType: TypeId, cap: nat)
    requires GoodEnv(env) && root in env && Ready(env, b, root)
    ensures var h, h' := b.h, GrownBuffer(env, b, root, arrayType, cap).h;
            && (forall s :: s in h'.slots && s.obj == h.next ==>
                  && s.off < b.n * env[root].size && Shift(b.base, s.off) in h.slots
                  && s in CopiedSlots(h, b.base, b.n * env[root].size, h.next)
                  && h'.slots[s] == h.slots[Shift(b.base, s.off)])
            && (forall s :: s in h'.slots && s.obj != h.next ==> s in h.slots && h'.slots[s] == h.slots[s])
            && (forall off :: 0 <= off < b.n * env[root].size && Shift(b.base, off) in h.slots ==>
                  Addr(h.next, off) in h'.slots)
  {
    CopiesMatch(b.h, b.base, b.n * env[root].size, b.h.next);
    ReadyIsTyped(env, b, root);
    hide GoodEnv, WellTyped, OccursAt, CopiedSlots, NilBytes, RowsTyped, Typed;
  }

  lemma TypedAlike(env: Env, h: Heap, h': Heap, id: nat, a: Addr, t: TypeId)
    requires GoodEnv(env) && id in h'.objs && id !in h.objs && h'.objs == h.objs[id := h'.objs[id]]
    ensures a.obj != id ==> (Typed(env, h', a, t) <==> Typed(env, h, a, t))
    ensures Typed(env, h, a, t) ==> a.obj != id
  {
    hide GoodEnv, OccursAt;
  }

  /** Any one slot of the grown heap is well typed. */
  lemma GrownSlotTyped(env: Env, b: Buffer, root: TypeId, arrayType: TypeId, cap: nat, s: Addr, t: TypeId)
    requires GoodEnv(env) && root in env && Ready(env, b, root) && ArrayOf(env, arrayType, root, cap) && b.n <= cap
    requires var h' := GrownBuffer(env, b, root, arrayType, cap).h;
             s in h'.slots && IsPointer(env, t) && Typed(env, h', s, t)
    ensures var h' := GrownBuffer(env, b, root, arrayType, cap).h;
            Typed(env, h', h'.slots[s], env[t].shape.elem)
  {
    var h, h' := b.h, GrownBuffer(env, b, root, arrayType, cap).h;
    GrownSlots(env, b, root, arrayType, cap);
    ReadyIsTyped(env, b, root);
    var from := if s.obj == h.next then Shift(b.base, s.off) else s;
    assert from in h.slots && h'.slots[s] == h.slots[from];
    assert Typed(env, h, from, t) by {
      if s.obj == h.next {
        ArrayTyped(env, b, root, arrayType, cap, s, t);
        CopyIsTyped(env, b, root, arrayType, cap, s, t);
      } else {
        TypedAlike(env, h, h', h.next, s, t);
      }
    }
    hide GoodEnv, Ready, ArrayOf, CopiedSlots, Typed;
    TypedAlike(env, h, h', h.next, h.slots[from], env[t].shape.elem);
  }

  lemma ArrayTyped(env: Env, b: Buffer, root: TypeId, arrayType: TypeId, cap: nat, s: Addr, t: TypeId)
    requires GoodEnv(env) && root in env
    requires s.obj == b.h.next && Typed(env, GrownBuffer(env, b, root, arrayType, cap).h, s, t)
    ensures OccursAt(env, arrayType, s.off, t)
  {
  }

  lemma GrowKeepsTypes(env: Env, b: Buffer, root: TypeId, arrayType: TypeId, cap: nat)
    requires GoodEnv(env) && root in env && Ready(env, b, root) && ArrayOf(env, arrayType, root, cap) && b.n <= cap
    ensures WellTyped(env, GrownBuffer(env, b, root, arrayType, cap).h)
  {
    CopiesKeepClosed(env, b, root, arrayType, cap);
    ReadyIsTyped(env, b, root);
    var h' := GrownBuffer(env, b, root, arrayType, cap).h;
    assert forall o :: o in h'.objs ==> h'.objs[o] in env;
    hide GoodEnv, Typed, NilBytes, Ready, ArrayOf, GrownBuffer;
    forall s, t | s in h'.slots && IsPointer(env, t) && Typed(env, h', s, t)
      ensures Typed(env, h', h'.slots[s], env[t].shape.elem)
    {
      GrownSlotTyped(env, b, root, arrayType, cap, s, t);
    }
  }

  lemma ReadyIsTyped(env: Env, b: Buffer, root: TypeId)
    requires GoodEnv(env) && root in env && Ready(env, b, root)
    ensures WellTyped(env, b.h) && Closed(b.h)
  {
  }

  lemma CopiesKeepClosed(env: Env, b: Buffer, root: TypeId, arrayType: TypeId, cap: nat)
    requires GoodEnv(env) && root in env && Ready(env, b, root) && ArrayOf(env, arrayType, root, cap)
    ensures arrayType in env && Closed(GrownBuffer(env, b, root, arrayType, cap).h)
  {
    CopiesMatch(b.h, b.base, b.n * env[root].size, b.h.next);
    ReadyIsTyped(env, b, root);
    hide GoodEnv, WellTyped, OccursAt, CopiedSlots, NilBytes, RowsTyped, Typed;
  }

  /** Byte `off` of the filled rows, before and after growing. */
  ghost predicate SamePointer(b: Buffer, g: Buffer, off: nat) {
    var from, to := Shift(b.base, off), Shift(g.base, off);
    && (from in b.h.slots <==> to in g.h.slots)
    && (from in b.h.slots ==> g.h.slots[to] == b.h.slots[from])
  }

  /** After growing, the filled rows hold the pointers they held, and the rest is nil. */
  lemma GrowKeepsReady(env: Env, b: Buffer, root: TypeId, arrayType: TypeId, cap: nat)
    requires GoodEnv(env) && root in env && Ready(env, b, root) && ArrayOf(env, arrayType, root, cap) && b.n <= cap
    ensures var g := GrownBuffer(env, b, root, arrayType, cap);
            Ready(env, g, root) && forall off :: 0 <= off < b.n * env[root].size ==> SamePointer(b, g, off)
  {
    hide GoodEnv, WellTyped, NilBytes, RowsTyped, ArrayOf, SamePointer, CopiedSlots;
    GrowKeepsTypes(env, b, root, arrayType, cap);
    GrownRowsTyped(env, b, root, arrayType, cap);
    RestIsNil(env, b, root, arrayType, cap, (cap - b.n) * env[root].size);
    PointersCopied(env, b, root, arrayType, cap);
  }

  lemma RestIsNil(env: Env, b: Buffer, root: TypeId, arrayType: TypeId, cap: nat, rest: nat)
    requires GoodEnv(env) && root in env && Ready(env, b, root)
    ensures var g := GrownBuffer(env, b, root, arrayType, cap);
            NilBytes(g.h, RowAt(env, g.base, root, b.n), rest)
  {
    GrownSlots(env, b, root, arrayType, cap);
    hide GoodEnv, Ready, CopiedSlots;
  }

  lemma PointersCopied(env: Env, b: Buffer, root: TypeId, arrayType: TypeId, cap: nat)
    requires GoodEnv(env) && root in env && Ready(env, b, root)
    ensures var g := GrownBuffer(env, b, root, arrayType, cap);
            forall off :: 0 <= off < b.n * env[root].size ==> SamePointer(b, g, off)
  {
    hide GoodEnv, Ready, CopiedSlots, GrownBuffer, SamePointer;
    var g := GrownBuffer(env, b, root, arrayType, cap);
    GrownSlots(env, b, root, arrayType, cap);
    GrownStarts(env, b, root, arrayType, cap);
    forall off | 0 <= off < b.n * env[root].size
      ensures SamePointer(b, g, off)
    {
      var to := Addr(b.h.next, off);
      assert to in g.h.slots ==> Shift(b.base, off) in b.h.slots && g.h.slots[to] == b.h.slots[Shift(b.base, off)];
      IsSamePointer(b, g, off);
    }
  }

  lemma GrownStarts(env: Env, b: Buffer, root: TypeId, arrayType: TypeId, cap: nat)
    requires root in env
    ensures GrownBuffer(env, b, root, arrayType, cap).base == Addr(b.h.next, 0)
  {
  }

  lemma IsSamePointer(b: Buffer, g: Buffer, off: nat)
    requires g.base == Addr(b.h.next, 0)
    requires Shift(b.base, off) in b.h.slots ==> Addr(b.h.next, off) in g.h.slots
    requires Addr(b.h.next, off) in g.h.slots ==>
               Shift(b.base, off) in b.h.slots && g.h.slots[Addr(b.h.next, off)] == b.h.slots[Shift(b.base, off)]
    ensures SamePointer(b, g, off)
  {
    assert Shift(g.base, off) == Addr(b.h.next, off);
  }

  lemma GrownRowsTyped(env: Env, b: Buffer, root: TypeId, arrayType: TypeId, cap: nat)
    requires GoodEnv(env) && root in env && ArrayOf(env, arrayType, root, cap)
    ensures RowsTyped(env, GrownBuffer(env, b, root, arrayType, cap), root)
  {
    hide GoodEnv, OccursAt, CopiedSlots;
  }

  // ---- whole runs --------------------------------------------------------------------------------

  /** One turn of the loop: the buffer grows, or its next row is filled. */
  ghost predicate Stepped(env: Env, root: TypeId, ms: seq<FieldMeta>, cellType: TypeId, dest: seq<Option<Dest>>,
                          b: Buffer, b': Buffer)
    requires GoodEnv(env) && root in env && InRange(ms, |dest|)
  {
    || (b.n < b.cap && b' == FilledRow(env, b, root, ms, cellType, dest))
    || (exists arrayType: TypeId, cap: nat ::
          b.n <= cap && ArrayOf(env, arrayType, root, cap) && b' == GrownBuffer(env, b, root, arrayType, cap))
  }

  /** Whenever a row of a result buffer is about to be filled it holds no pointer, however
      many rows were filled and however often the buffer was exchanged before, so that
      `DestinationsApart` holds of it. */
  lemma {:induction false} EveryRowOfRunIsNew(env: Env, root: TypeId, ms: seq<FieldMeta>, cellType: TypeId,
                                              dest: seq<Option<Dest>>, run: seq<Buffer>, i: nat)
    requires GoodEnv(env) && root in env && cellType in env
    requires AllFitting(env, root, ms) && InRange(ms, |dest|) && DistinctColumns(ms)
    requires run != [] && run[0].n == run[0].cap == 0 && WellTyped(env, run[0].h)
    requires forall k :: 0 < k < |run| ==> Stepped(env, root, ms, cellType, dest, run[k - 1], run[k])
    requires i < |run|
    ensures Ready(env, run[i], root)
    ensures run[i].n < run[i].cap ==>
              var row := RowAt(env, run[i].base, root, run[i].n);
              Typed(env, run[i].h, row, root) && Unset(env, run[i].h, row, root)
  {
    hide GoodEnv, WellTyped, OccursAt, FilledRow, GrownBuffer, ArrayOf, AllFitting, InRange, DistinctColumns;
    if i == 0 {
      NothingReady(env, run[0], root);
    } else {
      EveryRowOfRunIsNew(env, root, ms, cellType, dest, run, i - 1);
      var b, b' := run[i - 1], run[i];
      assert Stepped(env, root, ms, cellType, dest, b, b');
      if b.n < b.cap && b' == FilledRow(env, b, root, ms, cellType, dest) {
        FillKeepsReady(env, b, root, ms, cellType, dest);
      } else {
        var arrayType: TypeId, cap: nat :|
          b.n <= cap && ArrayOf(env, arrayType, root, cap) && b' == GrownBuffer(env, b, root, arrayType, cap);
        GrowKeepsReady(env, b, root, arrayType, cap);
      }
    }
    if run[i].n < run[i].cap {
      NextRowIsNew(env, run[i], root);
    }
  }

  lemma NothingReady(env: Env, b: Buffer, root: TypeId)
    requires GoodEnv(env) && root in env && b.n == b.cap == 0 && WellTyped(env, b.h)
    ensures Ready(env, b, root)
  {
  }
}
