/** The pool of destination buffers: a borrower gets a clean buffer of the asked length
    that nobody else holds, whatever the pool kept or lost. */
module ScanPool {
  import opened Text

  /** A slice of a backing array: `None` is nil, the array's length is the capacity. */
  datatype Slice<T> = Slice(store: array<Option<T>>, len: nat)

  ghost predicate AllNil<T>(a: array<Option<T>>)
    reads a
  {
    forall i :: 0 <= i < a.Length ==> a[i] == None
  }

  function Nils<T>(n: nat): (s: seq<Option<T>>)
    ensures |s| == n && forall i :: 0 <= i < n ==> s[i] == None
  {
    seq(n, _ => None)
  }

  method FreshNils<T>(n: nat) returns (a: array<Option<T>>)
    ensures fresh(a) && a.Length == n && AllNil(a)
  {
    a := new Option<T>[n](_ => None);
  }

  class Pool<T> {
    var free: seq<array<Option<T>>>
    /** The buffers that are borrowed and not returned. */
    ghost var live: set<array<Option<T>>>

    ghost predicate Valid()
      reads this, free
    {
      && (forall i, j :: 0 <= i < j < |free| ==> free[i] != free[j])
      && (forall i :: 0 <= i < |free| ==> free[i] !in live && AllNil(free[i]))
    }

    constructor ()
      ensures Valid() && free == [] && live == {}
    {
      free, live := [], {};
    }

    /** Borrows a buffer of length `size`. The pool hands out its entry number `pick`, or a
        new empty buffer if it has none of that number; one that is too small is dropped. */
    method Borrow(size: nat, pick: nat) returns (s: Slice<T>)
      requires Valid()
      modifies this
      ensures Valid() && live == old(live) + {s.store}
      ensures s.len == size <= s.store.Length && AllNil(s.store)
      ensures s.store !in old(live) && (fresh(s.store) || s.store in old(free))
      ensures free == if pick < |old(free)| then old(free)[..pick] + old(free)[pick + 1..] else old(free)
    {
      var a;
      if pick < |free| {
        a := free[pick];
        free := free[..pick] + free[pick + 1..];
      } else {
        a := FreshNils(0);
      }
      if a.Length < size {
        a := FreshNils(size);
      }
      live := live + {a};
      s := Slice(a, size);
    }

    /** Takes a buffer back and clears it up to its capacity. */
    method Return(s: Slice<T>)
      requires Valid() && s.store in live
      modifies this, s.store
      ensures Valid() && live == old(live) - {s.store}
      ensures free == old(free) + [s.store] && AllNil(s.store)
    {
      assert forall i :: 0 <= i < |free| ==> free[i] != s.store;
      for i := 0 to s.store.Length
        invariant forall k :: 0 <= k < i ==> s.store[k] == None
        invariant forall k :: 0 <= k < |free| ==> AllNil(free[k])
        invariant free == old(free) && live == old(live)
      {
        s.store[i] := None;
      }
      live := live - {s.store};
      free := free + [s.store];
    }

    /** A borrower writes into its buffer; the pooled ones stay clean. */
    method Store(s: Slice<T>, at: nat, v: Option<T>)
      requires Valid() && s.store in live && at < s.store.Length
      modifies s.store
      ensures Valid() && s.store[..] == old(s.store[..])[at := v]
    {
      assert forall i :: 0 <= i < |free| ==> free[i] != s.store;
      s.store[at] := v;
    }

    /** The pool may forget an entry at any time. */
    method Lose(k: nat)
      requires Valid()
      modifies this
      ensures Valid() && live == old(live)
      ensures free == if k < |old(free)| then old(free)[..k] + old(free)[k + 1..] else old(free)
    {
      if k < |free| {
        free := free[..k] + free[k + 1..];
      }
    }

    /** Every buffer in use is borrowed, and no two users hold the same one. */
    ghost predicate Apart(held: seq<Slice<T>>)
      reads this
    {
      && (forall i :: 0 <= i < |held| ==> held[i].store in live)
      && (forall i, j :: 0 <= i < j < |held| ==> held[i].store != held[j].store)
    }

    /** All buffers the pool or its users can reach. */
    ghost function Reachable(held: seq<Slice<T>>): set<array<Option<T>>>
      reads this
    {
      (set a | a in free) + (set i | 0 <= i < |held| :: held[i].store)
    }

    /** One operation, by any user or by the pool itself. */
    method Step(op: Op<T>, held: seq<Slice<T>>) returns (seen: seq<seq<Option<T>>>, held': seq<Slice<T>>)
      requires Valid() && Apart(held)
      modifies this, Reachable(held)
      ensures Valid() && Apart(held')
      ensures seen == (if op.Take? then [Nils(op.size)] else [])
      ensures fresh(Reachable(held') - old(Reachable(held)))
    {
      hide Valid;
      seen, held' := [], held;
      match op
      case Take(size, pick) =>
        var s := Borrow(size, pick);
        assert s.store[..size] == Nils(size);
        seen := [s.store[..size]];
        held' := held + [s];
      case Put(who, at, v) =>
        if who < |held| && at < held[who].store.Length {
          Store(held[who], at, v);
        }
      case Give(who) =>
        if who < |held| {
          Return(held[who]);
          held' := held[..who] + held[who + 1..];
        }
      case Forget(k) =>
        Lose(k);
    }

    /** Any sequence of borrows, writes by borrowers, returns and losses: each borrowed
        buffer was seen clean and of the asked length, and those still held at the end
        share no storage. */
    method Run(ops: seq<Op<T>>) returns (seen: seq<seq<Option<T>>>, held: seq<Slice<T>>)
      requires Valid() && live == {} && free == []
      modifies this
      ensures Valid() && Apart(held)
      ensures seen == Clean(ops)
    {
      seen, held := [], [];
      assert Reachable(held) == {};
      hide Valid, Apart, Reachable;
      for n := 0 to |ops|
        invariant Valid() && Apart(held) && fresh(Reachable(held))
        invariant seen == Clean(ops[..n])
      {
        assert ops[..n + 1][..n] == ops[..n];
        var view;
        view, held := Step(ops[n], held);
        seen := seen + view;
      }
      assert ops[..|ops|] == ops;
    }
  }

  /** What users and the pool do. Giving a buffer back ends its use, so none is given
      back twice. */
  datatype Op<T> = Take(size: nat, pick: nat) | Put(who: nat, at: nat, v: Option<T>) | Give(who: nat) | Forget(k: nat)

  /** What every borrower should see. */
  function Clean<T>(ops: seq<Op<T>>): seq<seq<Option<T>>> {
    if ops == [] then []
    else
      var last := ops[|ops| - 1];
      Clean(ops[..|ops| - 1]) + (if last.Take? then [Nils(last.size)] else [])
  }
}
