/** The compile cache and the name arrays it shares. Name slices are real arrays here:
    an entry and a caller may hold the same one. */
module CompileCache {
  import opened Text
  import opened NamedQuery

  datatype Key = Key(query: string, bt: BindType)

  datatype Entry = Entry(query: string, names: array<string>)

  /** A return value of the compiler: query and names, or the error position and the
      names read so far. */
  datatype Answer = Ok(query: string, names: array<string>) | Err(at: nat, names: array<string>)

  /** What a caller sees in an answer now. */
  function Read(a: Answer): CompileResult
    reads a.names
  {
    match a
    case Ok(query, names) => Compiled(query, names[..])
    case Err(at, names) => SyntaxError(at, names[..])
  }

  method ToArray(s: seq<string>) returns (a: array<string>)
    ensures fresh(a) && a[..] == s
  {
    a := new string[|s|](i requires 0 <= i < |s| => s[i]);
  }

  class Cache {
    var entries: map<Key, Entry>

    /** The arrays the cache holds. */
    ghost function Held(): set<array<string>>
      reads this
    {
      set k | k in entries :: entries[k].names
    }

    /** Every entry still reads as a fresh compilation of its key. */
    ghost predicate Valid()
      reads this, Held()
    {
      forall k :: k in entries ==>
        Compile(k.query, k.bt) == Compiled(entries[k].query, entries[k].names[..])
    }

    constructor ()
      ensures Valid() && Held() == {}
    {
      entries := map[];
    }

    /** The internal compiler: on a hit it hands out the cached array itself, on a miss
        it stores the array it returns, and an error is not stored. */
    method CompileShared(q: string, bt: BindType) returns (a: Answer)
      requires Valid()
      modifies this
      ensures Valid() && Read(a) == Compile(q, bt)
      ensures entries == if a.Ok? then old(entries)[Key(q, bt) := Entry(a.query, a.names)] else old(entries)
      ensures a.names in old(Held()) || fresh(a.names)
      ensures a.Err? ==> fresh(a.names)
    {
      var key := Key(q, bt);
      if key in entries {
        return Ok(entries[key].query, entries[key].names);
      }
      var compiled := CompileNamedQuery(q, bt);
      var names := ToArray(compiled.names);
      if compiled.SyntaxError? {
        return Err(compiled.at, names);
      }
      entries := entries[key := Entry(compiled.query, names)];
      a := Ok(compiled.query, names);
    }

    /** The public compiler: callers get a copy, so no array with an element in it is
        both cached and outside. */
    method CompileCopied(q: string, bt: BindType) returns (a: Answer)
      requires Valid()
      modifies this
      ensures Valid() && Read(a) == Compile(q, bt)
      ensures a.names.Length == 0 || (fresh(a.names) && a.names !in Held())
      ensures forall h :: h in Held() ==> h in old(Held()) || fresh(h)
    {
      a := CompileShared(q, bt);
      if a.Err? || a.names.Length == 0 {
        return;
      }
      var copied := ToArray(a.names[..]);
      a := Ok(a.query, copied);
    }

    /** Outside callers hold no array with an element in it that the cache holds. */
    ghost predicate Apart(outside: seq<array<string>>)
      reads this
    {
      forall i :: 0 <= i < |outside| && outside[i].Length > 0 ==> outside[i] !in Held()
    }

    /** Any run of public calls mixed with any writes by outside callers into the name
        arrays they hold: every call answers as a fresh compilation would. */
    method Run(ops: seq<Op>, outside: seq<array<string>>) returns (seen: seq<CompileResult>)
      requires Valid() && Apart(outside)
      modifies this, set i | 0 <= i < |outside| :: outside[i]
      ensures Valid()
      ensures seen == Answers(ops)
    {
      seen := [];
      var out := outside;
      for n := 0 to |ops|
        invariant Valid() && Apart(out)
        invariant |outside| <= |out| && out[..|outside|] == outside
        invariant forall i :: |outside| <= i < |out| ==> fresh(out[i]) || out[i].Length == 0
        invariant seen == Answers(ops[..n])
      {
        assert ops[..n + 1][..n] == ops[..n];
        match ops[n] {
          case Call(q, bt) =>
            var a := CompileCopied(q, bt);
            seen := seen + [Read(a)];
            out := out + [a.names];
          case Write(who, at, text) =>
            if who < |out| && at < out[who].Length {
              assert out[who] !in Held();
              assert who < |outside| ==> out[who] == outside[who];
              out[who][at] := text;
            }
        }
      }
      assert ops[..|ops|] == ops;
    }
  }

  /** What outside callers do: call the compiler, or overwrite a name in the array of
      an earlier answer. */
  datatype Op = Call(q: string, bt: BindType) | Write(who: nat, at: nat, text: string)

  /** The answers a run would see if nothing were ever cached. */
  function Answers(ops: seq<Op>): seq<CompileResult> {
    if ops == [] then []
    else
      var last := ops[|ops| - 1];
      Answers(ops[..|ops| - 1]) + (if last.Call? then [Compile(last.q, last.bt)] else [])
  }

  /** The copy is needed. Whatever the cache holds, and whatever query has a parameter:
      overwriting a name in the array that the internal compiler hands out with a
      different text leaves an entry that no longer reads as a compilation. */
  method SharingIsUnsafe(cache: Cache, q: string, bt: BindType, k: nat, text: string) returns (a: Answer)
    requires cache.Valid() && Compile(q, bt).Compiled?
    requires k < |Compile(q, bt).names| && text != Compile(q, bt).names[k]
    modifies cache, cache.Held()
    ensures Key(q, bt) in cache.entries && a.names == cache.entries[Key(q, bt)].names
    ensures a.names[..] == Compile(q, bt).names[k := text]
    ensures !cache.Valid()
  {
    hide Compile;
    a := cache.CompileShared(q, bt);
    a.names[k] := text;
    assert cache.entries[Key(q, bt)].names[..][k] != Compile(q, bt).names[k];
  }
}
