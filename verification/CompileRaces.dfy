/** The compile cache without a lock. Any number of callers load, compile, store and copy in
    any interleaving, two may compile and store the same query at once, and outside callers
    overwrite the names they were given whenever they like. */
module CompileRaces {
  import opened Text
  import opened NamedQuery

  /** A call of the internal compiler, or of the public one, which copies. */
  datatype Call = Call(q: string, bt: BindType, public: bool)

  datatype Key = Key(query: string, bt: BindType)

  /** Which array of names the cache holds for a key. */
  datatype Entry = Entry(query: string, names: nat)

  /** An array of names and who it was made for: the compiler, or public caller `p`. */
  datatype Owner = Compiler | Caller(p: nat)
  datatype Array = Array(elems: seq<string>, owner: Owner)

  /** Where a caller stands. `copied` are the elements copied so far; `seen` is what the
      array handed out held at that moment. */
  datatype Pc =
    | Loading(c: Call)
    | Compiling(c: Call)
    | Storing(c: Call, query: string, names: nat)
    | Copying(c: Call, query: string, names: nat, copied: seq<string>)
    | Done(c: Call, query: string, names: nat, seen: seq<string>)
    | Failed(c: Call, at: nat, seen: seq<string>)

  datatype State = State(cache: map<Key, Entry>, arrays: map<nat, Array>, next: nat, pcs: map<nat, Pc>)

  function KeyOf(c: Call): Key {
    Key(c.q, c.bt)
  }

  /** What a caller does with names that are in the cache. */
  function Taken(s: State, c: Call, query: string, names: nat): Pc
    requires names in s.arrays
  {
    if c.public && s.arrays[names].elems != [] then Copying(c, query, names, [])
    else Done(c, query, names, s.arrays[names].elems)
  }

  /** Whoever refers to an array refers to one that exists; every run keeps this. */
  ghost predicate Known(s: State) {
    && (forall k :: k in s.cache ==> s.cache[k].names in s.arrays)
    && (forall p :: p in s.pcs && (s.pcs[p].Storing? || s.pcs[p].Copying? || s.pcs[p].Done?) ==>
          s.pcs[p].names in s.arrays)
  }

  /** The next step of caller `p`: one load, one compilation into a new array, one store,
      or one element copied. */
  function Moved(s: State, p: nat): Option<State>
    requires Known(s) && p in s.pcs
  {
    match s.pcs[p]
    case Loading(c) =>
      var k := KeyOf(c);
      var pc := if k in s.cache then Taken(s, c, s.cache[k].query, s.cache[k].names) else Compiling(c);
      Some(s.(pcs := s.pcs[p := pc]))
    case Compiling(c) =>
      (match Compile(c.q, c.bt)
       case SyntaxError(at, names) => Some(s.(pcs := s.pcs[p := Failed(c, at, names)]))
       case Compiled(query, names) =>
         Some(State(s.cache, s.arrays[s.next := Array(names, Compiler)], s.next + 1,
                    s.pcs[p := Storing(c, query, s.next)])))
    case Storing(c, query, names) =>
      Some(State(s.cache[KeyOf(c) := Entry(query, names)], s.arrays, s.next, s.pcs[p := Taken(s, c, query, names)]))
    case Copying(c, query, names, copied) =>
      var elems := s.arrays[names].elems;
      if |copied| < |elems| then
        Some(s.(pcs := s.pcs[p := Copying(c, query, names, copied + [elems[|copied|]])]))
      else
        Some(State(s.cache, s.arrays[s.next := Array(copied, Caller(p))], s.next + 1,
                   s.pcs[p := Done(c, query, s.next, copied)]))
    case Done(_, _, _, _) => None
    case Failed(_, _, _) => None
  }

  /** Public caller `p` overwrites a name in the array it was handed. */
  ghost predicate Overwritten(s: State, p: nat, at: nat, text: string, s': State)
    requires Known(s) && p in s.pcs
  {
    && s.pcs[p].Done? && s.pcs[p].c.public && at < |s.arrays[s.pcs[p].names].elems|
    && var a := s.arrays[s.pcs[p].names];
       s' == s.(arrays := s.arrays[s.pcs[p].names := a.(elems := a.elems[at := text])])
  }

  ghost predicate Stepped(s: State, s': State) {
    Known(s) &&
    (|| (exists p :: p in s.pcs && Moved(s, p) == Some(s'))
     || (exists p, at, text :: p in s.pcs && Overwritten(s, p, at, text, s'))
     || (exists p: nat, c: Call :: p !in s.pcs && s' == s.(pcs := s.pcs[p := Loading(c)])))
  }

  ghost predicate IsRun(run: seq<State>) {
    && run != [] && run[0] == State(map[], map[], 0, map[])
    && forall i :: 0 < i < |run| ==> Stepped(run[i - 1], run[i])
  }

  // ---- the invariant ---------------------------------------------------------------------

  /** Array `names` belongs to the compiler and, with `query`, is the compilation of `k`. */
  ghost predicate Fresh(s: State, k: Key, query: string, names: nat) {
    && names in s.arrays && s.arrays[names].owner == Compiler
    && Compile(k.query, k.bt) == Compiled(query, s.arrays[names].elems)
  }

  ghost predicate CacheFresh(s: State) {
    forall k :: k in s.cache ==> Fresh(s, k, s.cache[k].query, s.cache[k].names)
  }

  /** What caller `p` holds. A public caller is handed an array of its own, or one without
      elements. */
  ghost predicate PcFresh(s: State, p: nat)
    requires p in s.pcs
  {
    match s.pcs[p]
    case Loading(_) => true
    case Compiling(_) => true
    case Storing(c, query, names) => Fresh(s, KeyOf(c), query, names)
    case Copying(c, query, names, copied) =>
      c.public && Fresh(s, KeyOf(c), query, names) && copied <= s.arrays[names].elems
    case Done(c, query, names, seen) =>
      && Compile(c.q, c.bt) == Compiled(query, seen)
      && (if c.public then names in s.arrays && (s.arrays[names].owner == Caller(p) || s.arrays[names].elems == [])
          else Fresh(s, KeyOf(c), query, names))
    case Failed(c, at, seen) => Compile(c.q, c.bt) == SyntaxError(at, seen)
  }

  ghost predicate Inv(s: State) {
    && (forall a :: a in s.arrays ==> a < s.next)
    && CacheFresh(s)
    && forall p :: p in s.pcs ==> PcFresh(s, p)
  }

  lemma InvKnows(s: State)
    requires Inv(s)
    ensures Known(s)
  {
    forall p | p in s.pcs && (s.pcs[p].Storing? || s.pcs[p].Copying? || s.pcs[p].Done?)
      ensures s.pcs[p].names in s.arrays
    {
      assert PcFresh(s, p);
    }
    forall k | k in s.cache
      ensures s.cache[k].names in s.arrays
    {
      assert Fresh(s, k, s.cache[k].query, s.cache[k].names);
    }
  }

  /** Every array of the compiler, and every one without elements, is as it was. */
  ghost predicate Keeps(s: State, s': State) {
    forall a :: a in s.arrays ==>
      && a in s'.arrays && s'.arrays[a].owner == s.arrays[a].owner
      && (s.arrays[a].owner == Compiler || s.arrays[a].elems == [] ==> s'.arrays[a] == s.arrays[a])
  }

  lemma KeepsFresh(s: State, s': State, k: Key, query: string, names: nat)
    requires Keeps(s, s') && Fresh(s, k, query, names)
    ensures Fresh(s', k, query, names)
  {
  }

  lemma KeepsPc(s: State, s': State, p: nat)
    requires Keeps(s, s') && p in s.pcs && p in s'.pcs && s'.pcs[p] == s.pcs[p] && PcFresh(s, p)
    ensures PcFresh(s', p)
  {
    hide Compile;
  }

  /** A step of one caller that keeps the compiler's arrays, stores at most a fresh entry and
      leaves that caller with something fresh. */
  lemma StepKeepsInv(s: State, p: nat, s': State)
    requires Inv(s) && Keeps(s, s')
    requires forall a :: a in s'.arrays ==> a < s'.next
    requires p in s'.pcs && PcFresh(s', p) && s'.pcs == s.pcs[p := s'.pcs[p]]
    requires forall k :: k in s'.cache ==>
               || (k in s.cache && s'.cache[k] == s.cache[k])
               || Fresh(s', k, s'.cache[k].query, s'.cache[k].names)
    ensures Inv(s')
  {
    hide Compile, Fresh, PcFresh, Keeps;
    forall k | k in s'.cache
      ensures Fresh(s', k, s'.cache[k].query, s'.cache[k].names)
    {
      if k in s.cache && s'.cache[k] == s.cache[k] {
        KeepsFresh(s, s', k, s.cache[k].query, s.cache[k].names);
      }
    }
    forall x | x in s'.pcs
      ensures PcFresh(s', x)
    {
      if x != p {
        KeepsPc(s, s', x);
      }
    }
  }

  lemma TakenIsFresh(s: State, c: Call, query: string, names: nat, p: nat, s': State)
    requires Fresh(s, KeyOf(c), query, names) && s'.arrays == s.arrays
    requires p in s'.pcs && s'.pcs[p] == Taken(s, c, query, names)
    ensures PcFresh(s', p)
  {
    hide Compile;
  }

  lemma LoadKeepsInv(s: State, p: nat, s': State)
    requires Inv(s) && Known(s) && p in s.pcs && s.pcs[p].Loading? && Moved(s, p) == Some(s')
    ensures Inv(s')
  {
    hide Compile;
    var c := s.pcs[p].c;
    if KeyOf(c) in s.cache {
      TakenIsFresh(s, c, s.cache[KeyOf(c)].query, s.cache[KeyOf(c)].names, p, s');
    }
    StepKeepsInv(s, p, s');
  }

  lemma CompileKeepsInv(s: State, p: nat, s': State)
    requires Inv(s) && Known(s) && p in s.pcs && s.pcs[p].Compiling? && Moved(s, p) == Some(s')
    ensures Inv(s')
  {
    hide Compile;
    StepKeepsInv(s, p, s');
  }

  lemma StoreKeepsInv(s: State, p: nat, s': State)
    requires Inv(s) && Known(s) && p in s.pcs && s.pcs[p].Storing? && Moved(s, p) == Some(s')
    ensures Inv(s')
  {
    hide Compile;
    assert PcFresh(s, p);
    var pc := s.pcs[p];
    TakenIsFresh(s, pc.c, pc.query, pc.names, p, s');
    KeepsFresh(s, s', KeyOf(pc.c), pc.query, pc.names);
    StepKeepsInv(s, p, s');
  }

  lemma CopyKeepsInv(s: State, p: nat, s': State)
    requires Inv(s) && Known(s) && p in s.pcs && s.pcs[p].Copying? && Moved(s, p) == Some(s')
    ensures Inv(s')
  {
    hide Compile;
    assert PcFresh(s, p);
    StepKeepsInv(s, p, s');
  }

  lemma OverwriteKeepsInv(s: State, p: nat, at: nat, text: string, s': State)
    requires Inv(s) && Known(s) && p in s.pcs && Overwritten(s, p, at, text, s')
    ensures Inv(s')
  {
    hide Compile;
    assert PcFresh(s, p);
    assert Keeps(s, s');
    KeepsDone(s, s', p);
    StepKeepsInv(s, p, s');
  }

  lemma KeepsDone(s: State, s': State, p: nat)
    requires p in s.pcs && PcFresh(s, p) && s.pcs[p].Done? && s.pcs[p].c.public && Keeps(s, s') && s'.pcs == s.pcs
    ensures PcFresh(s', p)
  {
    hide Compile;
  }

  lemma StepsKeepInv(s: State, s': State)
    requires Inv(s) && Stepped(s, s')
    ensures Inv(s')
  {
    hide Compile, Inv, Known, Moved, Overwritten;
    if p :| p in s.pcs && Moved(s, p) == Some(s') {
      MoveKeepsInv(s, p, s');
    } else if p, at, text :| p in s.pcs && Overwritten(s, p, at, text, s') {
      OverwriteKeepsInv(s, p, at, text, s');
    } else {
      var p: nat, c: Call :| p !in s.pcs && s' == s.(pcs := s.pcs[p := Loading(c)]);
      StartKeepsInv(s, p, c);
    }
  }

  lemma MoveKeepsInv(s: State, p: nat, s': State)
    requires Inv(s) && Known(s) && p in s.pcs && Moved(s, p) == Some(s')
    ensures Inv(s')
  {
    hide Compile, Inv, Known;
    match s.pcs[p]
    case Loading(_) => LoadKeepsInv(s, p, s');
    case Compiling(_) => CompileKeepsInv(s, p, s');
    case Storing(_, _, _) => StoreKeepsInv(s, p, s');
    case Copying(_, _, _, _) => CopyKeepsInv(s, p, s');
    case _ => assert false;
  }

  lemma StartKeepsInv(s: State, p: nat, c: Call)
    requires Inv(s) && p !in s.pcs
    ensures Inv(s.(pcs := s.pcs[p := Loading(c)]))
  {
    hide Compile;
    StepKeepsInv(s, p, s.(pcs := s.pcs[p := Loading(c)]));
  }

  // ---- the main result ----------------------------------------------------------------------

  /** A caller that is not finished can take its next step, whatever the others did. */
  lemma NobodyBlocks(run: seq<State>, i: nat, p: nat)
    requires IsRun(run) && i < |run| && p in run[i].pcs && !run[i].pcs[p].Done? && !run[i].pcs[p].Failed?
    ensures Known(run[i]) && Moved(run[i], p).Some? && Stepped(run[i], Moved(run[i], p).value)
  {
    RunKeepsInv(run, i);
    hide Compile, Inv;
    InvKnows(run[i]);
  }

  lemma {:induction false} RunKeepsInv(run: seq<State>, i: nat)
    requires IsRun(run) && i < |run|
    ensures Inv(run[i])
  {
    if i > 0 {
      RunKeepsInv(run, i - 1);
      StepsKeepInv(run[i - 1], run[i]);
    }
  }

  /** In every interleaving, every answer is what compiling afresh gives, for public and
      internal callers, errors included; what an internal caller holds stays that way, and
      so does every entry of the cache; and no two public callers share an array that has
      an element. */
  lemma AnswersAreFresh(run: seq<State>, i: nat)
    requires IsRun(run) && i < |run|
    ensures forall p :: p in run[i].pcs ==>
              match run[i].pcs[p]
              case Done(c, query, names, seen) =>
                && names in run[i].arrays && Compile(c.q, c.bt) == Compiled(query, seen)
                && (!c.public ==> run[i].arrays[names].elems == seen)
              case Failed(c, at, seen) => Compile(c.q, c.bt) == SyntaxError(at, seen)
              case _ => true
    ensures forall k :: k in run[i].cache ==>
              var e := run[i].cache[k];
              e.names in run[i].arrays && Compile(k.query, k.bt) == Compiled(e.query, run[i].arrays[e.names].elems)
    ensures var s := run[i];
            forall p, r :: p in s.pcs && r in s.pcs && p != r && s.pcs[p].Done? && s.pcs[r].Done?
                           && s.pcs[p].c.public && s.pcs[r].c.public && s.pcs[p].names == s.pcs[r].names ==>
              s.pcs[p].names in s.arrays && s.arrays[s.pcs[p].names].elems == []
  {
    RunKeepsInv(run, i);
    hide Compile;
    var s := run[i];
    forall p | p in s.pcs
      ensures PcFresh(s, p)
    {
    }
    forall k | k in s.cache
      ensures Fresh(s, k, s.cache[k].query, s.cache[k].names)
    {
    }
  }
}
