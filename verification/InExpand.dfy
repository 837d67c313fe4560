/** `In`: every `?` whose argument is a slice becomes one mark per element. */
module InExpand {
  import opened Text
  import opened Rebind

  /** An argument once its `Value()` has been asked for: a slice (never a byte slice,
      which drivers take whole) or anything else. */
  datatype Plain<V> = Scalar(v: V) | Slice(vs: seq<V>)

  /** An argument as passed: already plain, a `driver.Valuer` that may fail, or a pointer
      to a slice, given as such or by a `driver.Valuer`. */
  datatype Arg<V> = Given(p: Plain<V>) | Valuer(value: Option<Plain<V>>) | SlicePointer

  /** `LengthPanics`: a pointer to a slice passes the test for slices, and its length is
      then asked for without following the pointer, which the reflection library refuses. */
  datatype InError = ValuerError | EmptySlice | LengthPanics | MoreMarksThanArgs | FewerMarksThanArgs

  datatype InResult<V> =
    | Expanded(query: string, args: seq<V>)
    | Unchanged(same: string, given: seq<Arg<V>>)
    | Failed(e: InError)

  function Resolved<V>(a: Arg<V>): Option<Plain<V>> {
    match a
    case Given(p) => Some(p)
    case Valuer(value) => value
    case SlicePointer => None
  }

  predicate Usable<V>(a: Arg<V>) {
    Resolved(a).Some? && (Resolved(a).value.Slice? ==> Resolved(a).value.vs != [])
  }

  ghost predicate AllUsable<V>(args: seq<Arg<V>>) {
    forall i :: 0 <= i < |args| ==> Usable(args[i])
  }

  /** The error of the first argument that cannot be used. */
  function FirstError<V>(args: seq<Arg<V>>): (e: Option<InError>)
    ensures e == None <==> AllUsable(args)
  {
    if args == [] then None
    else if args[0].SlicePointer? then Some(LengthPanics)
    else if Resolved(args[0]).None? then Some(ValuerError)
    else if Resolved(args[0]).value == Slice([]) then Some(EmptySlice)
    else
      assert Usable(args[0]);
      assert forall i :: 1 <= i < |args| ==> args[i] == args[1..][i - 1];
      FirstError(args[1..])
  }

  function PlainArgs<V>(args: seq<Arg<V>>): (ps: seq<Plain<V>>)
    requires AllUsable(args)
    ensures |ps| == |args|
    ensures forall i :: 0 <= i < |ps| ==> Resolved(args[i]) == Some(ps[i])
    ensures AllWide(ps)
  {
    if args == [] then [] else
      assert Usable(args[0]);
      assert AllUsable(args[1..]);
      [Resolved(args[0]).value] + PlainArgs(args[1..])
  }

  function Elements<V>(p: Plain<V>): seq<V> {
    match p
    case Scalar(v) => [v]
    case Slice(vs) => vs
  }

  function Width<V>(p: Plain<V>): nat {
    |Elements(p)|
  }

  /** No argument is an empty slice. */
  ghost predicate AllWide<V>(ps: seq<Plain<V>>) {
    forall i :: 0 <= i < |ps| ==> Width(ps[i]) > 0
  }

  ghost predicate HasSlice<V>(ps: seq<Plain<V>>) {
    exists i :: 0 <= i < |ps| && ps[i].Slice?
  }

  function Flat<V>(ps: seq<Plain<V>>): seq<V> {
    if ps == [] then [] else Elements(ps[0]) + Flat(ps[1..])
  }

  /** `n` further marks. */
  function MoreMarks(n: nat): string {
    if n == 0 then "" else MoreMarks(n - 1) + ", ?"
  }

  /** Every mark replaced by as many marks as its argument has elements. */
  function Expand<V>(q: string, ps: seq<Plain<V>>): string {
    if q == "" then ""
    else if q[0] == '?' && ps != [] then
      "?" + MoreMarks(if Width(ps[0]) == 0 then 0 else Width(ps[0]) - 1) + Expand(q[1..], ps[1..])
    else [q[0]] + Expand(q[1..], ps)
  }

  /** What `In` means. */
  ghost function InSpec<V>(q: string, args: seq<Arg<V>>): InResult<V> {
    if FirstError(args).Some? then Failed(FirstError(args).value)
    else
      var ps := PlainArgs(args);
      if !HasSlice(ps) then Unchanged(q, args)
      else if Marks(q) > |args| then Failed(MoreMarksThanArgs)
      else if Marks(q) < |args| then Failed(FewerMarksThanArgs)
      else Expanded(Expand(q, ps), Flat(ps))
  }

  // ---- the window loop ------------------------------------------------------------

  lemma {:induction false} FlatSnoc<V>(ps: seq<Plain<V>>, p: Plain<V>)
    ensures Flat(ps + [p]) == Flat(ps) + Elements(p)
  {
    if ps == [] {
      assert [p][1..] == [] && [] + [p] == [p];
    } else {
      FlatSnoc(ps[1..], p);
      assert (ps + [p])[1..] == ps[1..] + [p];
      Assoc(Elements(ps[0]), Flat(ps[1..]), Elements(p));
    }
  }

  /** The smallest such call: one pointer to a slice as the only argument. */
  lemma OneSlicePointerPanics<V>(q: string)
    ensures InSpec<V>(q, [SlicePointer]) == Failed(LengthPanics)
  {
    var args: seq<Arg<V>> := [SlicePointer];
    assert args[..0] == [] && PanicsAt(args, 0);
    PanicsExactly(q, args);
  }

  lemma {:induction false} FirstErrorAt<V>(args: seq<Arg<V>>, i: nat)
    requires i < |args| && forall k :: 0 <= k < i ==> Usable(args[k])
    ensures Resolved(args[i]).None? ==>
              FirstError(args) == Some(if args[i].SlicePointer? then LengthPanics else ValuerError)
    ensures Resolved(args[i]) == Some(Slice([])) ==> FirstError(args) == Some(EmptySlice)
  {
    if i > 0 {
      assert Usable(args[0]);
      FirstErrorAt(args[1..], i - 1);
    }
  }

  /** Argument `i` is a pointer to a slice, and every argument before it can be used. */
  ghost predicate PanicsAt<V>(args: seq<Arg<V>>, i: nat) {
    i < |args| && args[i].SlicePointer? && AllUsable(args[..i])
  }

  lemma PanicsLater<V>(args: seq<Arg<V>>, i: nat)
    requires args != []
    ensures PanicsAt(args, i + 1) <==> Usable(args[0]) && PanicsAt(args[1..], i)
  {
    if i < |args[1..]| {
      var before, rest := args[..i + 1], args[1..][..i];
      assert before == [args[0]] + rest;
      assert AllUsable(before) <==> Usable(args[0]) && AllUsable(rest) by {
        assert forall k :: 0 <= k < i ==> rest[k] == before[k + 1];
      }
    }
  }

  lemma PanicsFirst<V>(args: seq<Arg<V>>)
    requires args != []
    ensures PanicsAt(args, 0) <==> args[0].SlicePointer?
    ensures !Usable(args[0]) ==> forall i: nat :: i > 0 ==> !PanicsAt(args, i)
  {
    forall i: nat | i > 0 && PanicsAt(args, i)
      ensures Usable(args[0])
    {
      PanicsLater(args, i - 1);
    }
  }

  lemma {:induction false} FirstPanic<V>(args: seq<Arg<V>>)
    ensures FirstError(args) == Some(LengthPanics) <==> exists i: nat :: PanicsAt(args, i)
  {
    if args != [] {
      hide PanicsAt;
      PanicsFirst(args);
      FirstPanic(args[1..]);
      forall i: nat
        ensures PanicsAt(args, i) ==> i == 0 || PanicsAt(args[1..], i - 1)
      {
        if i > 0 {
          PanicsLater(args, i - 1);
        }
      }
      forall i: nat | PanicsAt(args[1..], i) && Usable(args[0])
        ensures PanicsAt(args, i + 1)
      {
        PanicsLater(args, i);
      }
    }
  }

  /** `In` panics if and only if some argument is a pointer to a slice and all arguments
      before it can be used. */
  lemma PanicsExactly<V>(q: string, args: seq<Arg<V>>)
    ensures InSpec(q, args) == Failed(LengthPanics) <==> exists i: nat :: PanicsAt(args, i)
  {
    FirstPanic(args);
  }

  lemma {:induction false} ExpandPlain<V>(s: string, t: string, ps: seq<Plain<V>>)
    requires '?' !in s
    ensures Expand(s + t, ps) == s + Expand(t, ps)
  {
    if s == "" {
      assert s + t == t && "" + Expand(t, ps) == Expand(t, ps);
    } else {
      ExpandPlain(s[1..], t, ps);
      assert (s + t)[1..] == s[1..] + t;
      assert s == [s[0]] + s[1..];
      Assoc([s[0]], s[1..], Expand(t, ps));
    }
  }

  /** Up to the next mark nothing changes; the mark takes the next argument. */
  lemma ExpandAtMark<V>(s: string, i: nat, ps: seq<Plain<V>>)
    requires i < |s| && s[i] == '?' && '?' !in s[..i] && ps != [] && Width(ps[0]) > 0
    ensures Expand(s, ps) == s[..i + 1] + (MoreMarks(Width(ps[0]) - 1) + Expand(s[i + 1..], ps[1..]))
  {
    var more, rest := MoreMarks(Width(ps[0]) - 1), Expand(s[i + 1..], ps[1..]);
    assert s == s[..i] + s[i..] && s[i..][1..] == s[i + 1..] && s[..i + 1] == s[..i] + "?";
    ExpandPlain(s[..i], s[i..], ps);
    Assoc("?", more, rest);
    Assoc(s[..i], "?", more + rest);
  }

  /** The loop stands behind `offset`: `buf` is flushed, `query[..offset]` is scanned
      but not flushed, and the arguments before `arg` are used up. */
  ghost predicate Window<V>(q: string, ps: seq<Plain<V>>, buf: string, query: string, offset: nat, arg: nat) {
    && arg <= |ps| && offset <= |query|
    && Marks(q) == arg + Marks(query[offset..])
    && Expand(q, ps) == buf + (query[..offset] + Expand(query[offset..], ps[arg..]))
  }

  /** `i` is the next mark, or -1 when none is left. */
  ghost predicate NextMark(query: string, offset: nat, i: int)
    requires offset <= |query|
  {
    if i == -1 then '?' !in query[offset..]
    else offset <= i < |query| && query[i] == '?' && '?' !in query[offset..i]
  }

  lemma MarksAtMark(query: string, offset: nat, i: nat)
    requires offset <= |query| && NextMark(query, offset, i)
    ensures Marks(query[offset..]) == 1 + Marks(query[i + 1..])
  {
    assert query[offset..] == query[offset..i] + query[i..] && query[i..][1..] == query[i + 1..];
    MarksConcat(query[offset..i], query[i..]);
  }

  lemma TakeMark<V>(q: string, ps: seq<Plain<V>>, buf: string, query: string, offset: nat, arg: nat, i: nat)
    requires Window(q, ps, buf, query, offset, arg) && NextMark(query, offset, i)
    requires arg < |ps| && Width(ps[arg]) > 0
    ensures Expand(q, ps)
         == buf + (query[..i + 1] + (MoreMarks(Width(ps[arg]) - 1) + Expand(query[i + 1..], ps[arg + 1..])))
    ensures Marks(q) == arg + 1 + Marks(query[i + 1..])
  {
    hide Marks, Expand, MoreMarks, Elements;
    MarksAtMark(query, offset, i);
    WindowText(query, offset, i);
    var s, n := query[offset..], i - offset;
    var more, rest := MoreMarks(Width(ps[arg]) - 1), Expand(query[i + 1..], ps[arg + 1..]);
    assert Expand(s, ps[arg..]) == s[..n + 1] + (more + rest) by {
      assert ps[arg..][1..] == ps[arg + 1..] && ps[arg..][0] == ps[arg];
      ExpandAtMark(s, n, ps[arg..]);
    }
    Regroup(buf, query[..offset], s[..n + 1], query[..i + 1], more + rest);
  }

  lemma Regroup(buf: string, scanned: string, cut: string, upTo: string, rest: string)
    requires scanned + cut == upTo
    ensures buf + (scanned + (cut + rest)) == buf + (upTo + rest)
  {
    Assoc(scanned, cut, rest);
  }

  lemma WindowText(query: string, offset: nat, i: nat)
    requires offset <= i < |query|
    ensures var s, n := query[offset..], i - offset;
            && s[..n] == query[offset..i] && s[n + 1..] == query[i + 1..] && s[n] == query[i]
            && query[..offset] + s[..n + 1] == query[..i + 1]
  {
  }

  /** A scalar's mark is stepped over. */
  lemma StepOver<V>(q: string, ps: seq<Plain<V>>, buf: string, query: string, offset: nat, arg: nat, i: nat)
    requires Window(q, ps, buf, query, offset, arg) && NextMark(query, offset, i)
    requires arg < |ps| && Width(ps[arg]) == 1
    ensures Window(q, ps, buf, query, i + 1, arg + 1)
  {
    TakeMark(q, ps, buf, query, offset, arg, i);
    var rest := Expand(query[i + 1..], ps[arg + 1..]);
    assert MoreMarks(0) + rest == rest;
  }

  /** A slice's mark is flushed and the window restarts behind it. */
  lemma Flush<V>(q: string, ps: seq<Plain<V>>, buf: string, query: string, offset: nat, arg: nat, i: nat)
    requires Window(q, ps, buf, query, offset, arg) && NextMark(query, offset, i)
    requires arg < |ps| && Width(ps[arg]) > 0
    ensures Window(q, ps, buf + query[..i + 1] + MoreMarks(Width(ps[arg]) - 1), query[i + 1..], 0, arg + 1)
  {
    TakeMark(q, ps, buf, query, offset, arg, i);
    var more, rest := MoreMarks(Width(ps[arg]) - 1), Expand(query[i + 1..], ps[arg + 1..]);
    Assoc(buf, query[..i + 1], more + rest);
    Assoc(buf + query[..i + 1], more, rest);
    var query' := query[i + 1..];
    assert query'[0..] == query' && query'[..0] == "" && "" + rest == rest;
  }

  lemma TooManyMarks<V>(q: string, ps: seq<Plain<V>>, buf: string, query: string, offset: nat, arg: nat, i: nat)
    requires Window(q, ps, buf, query, offset, arg) && NextMark(query, offset, i)
    ensures Marks(q) > arg
  {
    MarksAtMark(query, offset, i);
  }

  /** With no mark left the rest of the query is written as it is. */
  lemma WindowEnds<V>(q: string, ps: seq<Plain<V>>, buf: string, query: string, offset: nat, arg: nat)
    requires Window(q, ps, buf, query, offset, arg) && NextMark(query, offset, -1)
    ensures Expand(q, ps) == buf + query && Marks(q) == arg
  {
    var left := query[offset..];
    assert left + "" == left && query == query[..offset] + left;
    ExpandPlain(left, "", ps[arg..]);
  }

  lemma WindowStarts<V>(q: string, ps: seq<Plain<V>>)
    ensures Window(q, ps, "", q, 0, 0)
  {
    assert q[0..] == q && q[..0] == "" && ps[0..] == ps;
    assert "" + ("" + Expand(q, ps)) == Expand(q, ps);
  }

  method FindMark(query: string, offset: nat) returns (i: int)
    requires offset <= |query|
    ensures NextMark(query, offset, i) && (i == -1 || offset <= i < |query|)
  {
    i := IndexFrom(query, '?', offset);
  }

  /** The argument, or what it gives as a `driver.Valuer`, is no slice. */
  predicate IsScalar<V>(a: Arg<V>) {
    (a.Given? && a.p.Scalar?) || (a.Valuer? && a.value.Some? && a.value.value.Scalar?)
  }

  predicate IsSlice<V>(a: Arg<V>) {
    (a.Given? && a.p.Slice?) || (a.Valuer? && a.value.Some? && a.value.value.Slice?)
  }

  ghost predicate SomeSlice<V>(args: seq<Arg<V>>) {
    exists i :: 0 <= i < |args| && IsSlice(args[i])
  }

  /** Why an argument cannot be used. */
  predicate Unusable<V>(a: Arg<V>, e: InError) {
    match e
    case LengthPanics => a.SlicePointer?
    case ValuerError => a.Valuer? && a.value.None?
    case EmptySlice => a == Given(Slice([])) || a == Valuer(Some(Slice([])))
    case _ => false
  }

  ghost predicate AllScalar<V>(args: seq<Arg<V>>) {
    forall i :: 0 <= i < |args| ==> IsScalar(args[i])
  }

  /** The branches of `In`, told by the arguments and the number of marks alone. */
  ghost predicate InCases<V>(q: string, args: seq<Arg<V>>, r: InResult<V>) {
    if !AllUsable(args) then
      r.Failed? && exists i :: 0 <= i < |args| && AllUsable(args[..i]) && Unusable(args[i], r.e)
    else if !SomeSlice(args) then r == Unchanged(q, args)
    else if Marks(q) > |args| then r == Failed(MoreMarksThanArgs)
    else if Marks(q) < |args| then r == Failed(FewerMarksThanArgs)
    else r.Expanded?
  }

  lemma InByCases<V>(q: string, args: seq<Arg<V>>)
    ensures InCases(q, args, InSpec(q, args))
    ensures AllScalar(args) <==> InSpec(q, args).Unchanged?
  {
    ScalarsAlone(args);
    if AllUsable(args) {
      SlicesAlike(args);
    } else {
      var i := FirstUnusable(args);
      FirstErrorAt(args, i);
      WhyUnusable(args[i]);
    }
    hide Usable, IsSlice, IsScalar, Unusable, PlainArgs, Expand, Flat, Marks, FirstError;
  }

  lemma WhyUnusable<V>(a: Arg<V>)
    requires !Usable(a)
    ensures Resolved(a).None? ==> Unusable(a, if a.SlicePointer? then LengthPanics else ValuerError)
    ensures Resolved(a).Some? ==> Resolved(a) == Some(Slice([])) && Unusable(a, EmptySlice)
  {
  }

  lemma ScalarsAlone<V>(args: seq<Arg<V>>)
    ensures AllScalar(args) <==> AllUsable(args) && !SomeSlice(args)
  {
    assert forall i :: 0 <= i < |args| ==> (IsScalar(args[i]) <==> Usable(args[i]) && !IsSlice(args[i]));
    hide IsScalar, IsSlice, Usable;
  }

  lemma SlicesAlike<V>(args: seq<Arg<V>>)
    requires AllUsable(args)
    ensures HasSlice(PlainArgs(args)) <==> SomeSlice(args)
  {
    var ps := PlainArgs(args);
    assert forall i :: 0 <= i < |args| ==> (IsSlice(args[i]) <==> ps[i].Slice?);
    hide PlainArgs, IsSlice, AllUsable;
  }

  lemma {:induction false} FirstUnusable<V>(args: seq<Arg<V>>) returns (i: nat)
    requires !AllUsable(args)
    ensures i < |args| && !Usable(args[i]) && AllUsable(args[..i])
  {
    if !Usable(args[0]) {
      i := 0;
    } else {
      i := FirstUnusable(args[1..]);
      assert args[..i + 1] == [args[0]] + args[1..][..i];
      i := i + 1;
    }
  }

  /** The first loop: each argument is asked for its value and measured. */
  method ReadArgs<V>(args: seq<Arg<V>>) returns (meta: seq<Plain<V>>, anySlices: bool, err: Option<InError>)
    ensures err == FirstError(args)
    ensures err == None ==> AllUsable(args) && meta == PlainArgs(args) && (anySlices <==> HasSlice(meta))
  {
    meta, anySlices := [], false;
    for i := 0 to |args|
      invariant forall k :: 0 <= k < i ==> Usable(args[k])
      invariant |meta| == i && forall k :: 0 <= k < i ==> Resolved(args[k]) == Some(meta[k])
      invariant anySlices <==> HasSlice(meta)
    {
      FirstErrorAt(args, i);
      if args[i].SlicePointer? {
        return meta, true, Some(LengthPanics);
      }
      var value := Resolved(args[i]);
      if value.None? {
        return meta, anySlices, Some(ValuerError);
      }
      ghost var before := meta;
      meta := meta + [value.value];
      assert meta[i] == value.value;
      assert HasSlice(meta) <==> HasSlice(before) || value.value.Slice? by {
        if HasSlice(before) {
          var k :| 0 <= k < |before| && before[k].Slice?;
          assert meta[k].Slice?;
        }
      }
      if value.value.Slice? {
        anySlices := true;
        if |value.value.vs| == 0 {
          return meta, anySlices, Some(EmptySlice);
        }
      }
    }
    assert AllUsable(args);
    assert meta == PlainArgs(args);
    err := None;
  }

  /** The marks of a slice after its first. */
  method WriteMarks(buf: string, length: nat) returns (r: string)
    requires length > 0
    ensures r == buf + MoreMarks(length - 1)
  {
    r := buf;
    var si := 1;
    while si < length
      invariant 1 <= si <= length
      invariant r == buf + MoreMarks(si - 1)
    {
      Assoc(buf, MoreMarks(si - 1), ", ?");
      r := r + ", ?";
      si := si + 1;
    }
  }

  /** The window loop: marks of scalar arguments are stepped over by moving `offset`;
      a slice flushes everything up to its mark and restarts the window behind it. */
  method In<V>(q: string, args: seq<Arg<V>>) returns (r: InResult<V>)
    ensures r == InSpec(q, args)
    ensures AllUsable(args) && HasSlice(PlainArgs(args)) ==> (r.Failed? <==> Marks(q) != |args|)
    ensures AllScalar(args) <==> r.Unchanged?
    ensures r.Unchanged? ==> r.same == q && r.given == args
    ensures InCases(q, args, r)
  {
    InByCases(q, args);
    hide AllScalar, InCases;
    hide Marks, Expand, PlainArgs, FirstError, MoreMarks, Window, NextMark;
    var meta, anySlices, err := ReadArgs(args);
    if err.Some? {
      return Failed(err.value);
    }
    if !anySlices {
      return Unchanged(q, args);
    }
    var newArgs: seq<V> := [];
    var query, buf, arg, offset := q, "", 0, 0;
    WindowStarts(q, meta);
    var i := FindMark(query, offset);
    while i != -1
      invariant 0 <= arg <= |meta| && 0 <= offset <= |query| && (i == -1 || offset <= i < |query|)
      invariant NextMark(query, offset, i)
      invariant Window(q, meta, buf, query, offset, arg)
      invariant newArgs == Flat(meta[..arg])
      decreases |query| - offset
    {
      if arg >= |meta| {
        TooManyMarks(q, meta, buf, query, offset, arg, i);
        return Failed(MoreMarksThanArgs);
      }
      var m := meta[arg];
      assert meta[..arg + 1] == meta[..arg] + [m];
      FlatSnoc(meta[..arg], m);
      if m.Scalar? {
        StepOver(q, meta, buf, query, offset, arg, i);
        offset := i + 1;
        newArgs := newArgs + [m.v];
      } else {
        Flush(q, meta, buf, query, offset, arg, i);
        buf := buf + query[..i + 1];
        buf := WriteMarks(buf, |m.vs|);
        newArgs := newArgs + m.vs;
        query := query[i + 1..];
        offset := 0;
      }
      arg := arg + 1;
      i := FindMark(query, offset);
    }
    WindowEnds(q, meta, buf, query, offset, arg);
    buf := buf + query;
    if arg < |meta| {
      return Failed(FewerMarksThanArgs);
    }
    assert meta[..arg] == meta;
    r := Expanded(buf, newArgs);
  }

  // ---- marks and arguments line up ---------------------------------------------------

  /** The arguments before argument `i` take this many places. */
  function PlacesBefore<V>(ps: seq<Plain<V>>, i: nat): nat
    requires i <= |ps|
  {
    if i == 0 then 0 else Width(ps[0]) + PlacesBefore(ps[1..], i - 1)
  }

  /** `n` numbered placeholders from `k`, separated by commas. */
  function NumberedBlock(bt: BindType, k: nat, n: nat): string
    requires n > 0
    decreases n
  {
    if n == 1 then Prefix(bt) + Decimal(k)
    else NumberedBlock(bt, k, n - 1) + (", " + (Prefix(bt) + Decimal(k + n - 1)))
  }

  /** Every mark replaced by its argument's numbered block. */
  function NumberedBlocks<V>(bt: BindType, q: string, ps: seq<Plain<V>>, k: nat): string
    requires Marks(q) == |ps| && AllWide(ps)
    decreases |q|
  {
    if q == "" then ""
    else if q[0] == '?' then
      NumberedBlock(bt, k, Width(ps[0])) + NumberedBlocks(bt, q[1..], ps[1..], k + Width(ps[0]))
    else [q[0]] + NumberedBlocks(bt, q[1..], ps, k)
  }

  lemma OneMoreMark(s: string)
    ensures Marks(s + ", ?") == Marks(s) + 1
  {
    MarksConcat(s, ", ?");
    assert ", ?"[1..] == " ?" && " ?"[1..] == "?" && "?"[1..] == "";
  }

  lemma {:induction false} MoreMarksCount(n: nat)
    ensures Marks("?" + MoreMarks(n)) == n + 1
  {
    if n == 0 {
      assert "?" + "" == "?" && "?"[1..] == "";
    } else {
      MoreMarksCount(n - 1);
      Assoc("?", MoreMarks(n - 1), ", ?");
      OneMoreMark("?" + MoreMarks(n - 1));
    }
  }

  /** As many marks come out as there are flattened arguments. */
  lemma {:induction false} MarksMatchArgs<V>(q: string, ps: seq<Plain<V>>)
    requires Marks(q) == |ps| && AllWide(ps)
    ensures Marks(Expand(q, ps)) == |Flat(ps)|
    decreases |q|
  {
    if q == "" {
    } else if q[0] == '?' {
      MarksMatchArgs(q[1..], ps[1..]);
      MoreMarksCount(Width(ps[0]) - 1);
      MarksConcat("?" + MoreMarks(Width(ps[0]) - 1), Expand(q[1..], ps[1..]));
    } else {
      MarksMatchArgs(q[1..], ps);
      MarksConcat([q[0]], Expand(q[1..], ps));
    }
  }

  lemma NumberOneMore(bt: BindType, k: nat)
    ensures Numbered(bt, ", ?", k) == ", " + (Prefix(bt) + Decimal(k))
  {
    assert ", ?"[1..] == " ?" && " ?"[1..] == "?" && "?"[1..] == "";
    var mark := Prefix(bt) + Decimal(k);
    assert Numbered(bt, "?", k) == mark + "" == mark;
    assert Numbered(bt, " ?", k) == " " + mark;
    assert "," + (" " + mark) == ", " + mark;
  }

  lemma NumberAppended(bt: BindType, marks: string, k: nat, n: nat)
    requires Marks(marks) == n
    ensures Numbered(bt, marks + ", ?", k) == Numbered(bt, marks, k) + (", " + (Prefix(bt) + Decimal(k + n)))
  {
    hide Numbered, Marks, Decimal, Prefix;
    NumberedConcat(bt, marks, ", ?", k);
    NumberOneMore(bt, k + n);
  }

  lemma {:induction false} NumberMoreMarks(bt: BindType, k: nat, n: nat)
    ensures Numbered(bt, "?" + MoreMarks(n), k) == NumberedBlock(bt, k, n + 1)
  {
    if n == 0 {
      assert "?" + "" == "?" && "?"[1..] == "";
      assert Prefix(bt) + Decimal(k) + "" == Prefix(bt) + Decimal(k);
    } else {
      var marks := "?" + MoreMarks(n - 1);
      Assoc("?", MoreMarks(n - 1), ", ?");
      NumberMoreMarks(bt, k, n - 1);
      MoreMarksCount(n - 1);
      NumberAppended(bt, marks, k, n);
    }
  }

  lemma NumberBlock(bt: BindType, k: nat, n: nat, rest: string)
    requires n > 0
    ensures Numbered(bt, "?" + MoreMarks(n - 1) + rest, k) == NumberedBlock(bt, k, n) + Numbered(bt, rest, k + n)
  {
    hide Numbered, Marks, MoreMarks, NumberedBlock;
    NumberMoreMarks(bt, k, n - 1);
    MoreMarksCount(n - 1);
    NumberedConcat(bt, "?" + MoreMarks(n - 1), rest, k);
  }

  /** After rebinding, the block of each argument is numbered on from the places the
      earlier arguments took. */
  lemma {:induction false} BlocksNumberedInOrder<V>(bt: BindType, q: string, ps: seq<Plain<V>>, k: nat)
    requires Marks(q) == |ps| && AllWide(ps)
    ensures Numbered(bt, Expand(q, ps), k) == NumberedBlocks(bt, q, ps, k)
    decreases |q|
  {
    hide MoreMarks, NumberedBlock, Decimal, Prefix;
    if q == "" {
    } else if q[0] == '?' {
      var n := Width(ps[0]);
      BlocksNumberedInOrder(bt, q[1..], ps[1..], k + n);
      NumberBlock(bt, k, n, Expand(q[1..], ps[1..]));
    } else {
      var rest := Expand(q[1..], ps);
      BlocksNumberedInOrder(bt, q[1..], ps, k);
      assert ([q[0]] + rest)[1..] == rest;
    }
  }

  /** Place `PlacesBefore(ps, i) + j` of the flat list is element `j` of argument `i`. */
  lemma {:induction false} FlatPlace<V>(ps: seq<Plain<V>>, i: nat, j: nat)
    requires i < |ps| && j < Width(ps[i])
    ensures PlacesBefore(ps, i) + j < |Flat(ps)|
    ensures Flat(ps)[PlacesBefore(ps, i) + j] == Elements(ps[i])[j]
  {
    if i > 0 {
      FlatPlace(ps[1..], i - 1, j);
    }
  }

  /** The position of mark number `i`. */
  function MarkAt(q: string, i: nat): (at: nat)
    requires i < Marks(q)
    ensures at < |q| && q[at] == '?' && Marks(q[..at]) == i
  {
    if q[0] == '?' && i == 0 then 0
    else
      var at := 1 + MarkAt(q[1..], if q[0] == '?' then i - 1 else i);
      assert q[..at][1..] == q[1..][..at - 1] && q[..at][0] == q[0];
      at
  }

  /** The marks before, at and after mark `i`. */
  lemma MarksAround(q: string, i: nat)
    requires i < Marks(q)
    ensures Marks(q[..MarkAt(q, i)]) == i && Marks(q[MarkAt(q, i) + 1..]) == Marks(q) - i - 1
  {
    hide Marks, MarkAt;
    var at := MarkAt(q, i);
    assert q == q[..at] + q[at..] && q[at..][1..] == q[at + 1..];
    MarksConcat(q[..at], q[at..]);
    MarksFirst(q[at..]);
  }

  lemma FirstBlock<V>(bt: BindType, q: string, ps: seq<Plain<V>>, k: nat)
    requires q != "" && q[0] == '?' && ps != [] && Marks(q[1..]) == |ps| - 1 && AllWide(ps)
    ensures Marks(q) == |ps| && AllWide(ps[1..])
    ensures NumberedBlocks(bt, q, ps, k)
         == NumberedBlock(bt, k, Width(ps[0])) + NumberedBlocks(bt, q[1..], ps[1..], k + Width(ps[0]))
  {
  }

  lemma FirstPlain<V>(bt: BindType, q: string, ps: seq<Plain<V>>, k: nat)
    requires q != "" && q[0] != '?' && Marks(q[1..]) == |ps| && AllWide(ps)
    ensures Marks(q) == |ps|
    ensures NumberedBlocks(bt, q, ps, k) == [q[0]] + NumberedBlocks(bt, q[1..], ps, k)
  {
  }

  lemma MarksFirst(q: string)
    requires q != ""
    ensures Marks(q) == (if q[0] == '?' then 1 else 0) + Marks(q[1..])
  {
  }

  lemma PlacesFirst<V>(us: seq<Plain<V>>)
    ensures us != [] ==> PlacesBefore(us, |us|) == Width(us[0]) + PlacesBefore(us[1..], |us| - 1)
    ensures us == [] ==> PlacesBefore(us, |us|) == 0
  {
  }

  /** Numbering a query in blocks is numbering its parts, the second from the places the
      arguments of the first took. */
  lemma {:induction false} BlocksConcat<V>(bt: BindType, a: string, b: string, us: seq<Plain<V>>,
                                           vs: seq<Plain<V>>, k: nat)
    requires Marks(a) == |us| && Marks(b) == |vs| && AllWide(us) && AllWide(vs)
    ensures Marks(a + b) == |us + vs| && AllWide(us + vs)
    ensures NumberedBlocks(bt, a + b, us + vs, k)
         == NumberedBlocks(bt, a, us, k) + NumberedBlocks(bt, b, vs, k + PlacesBefore(us, |us|))
    decreases |a|
  {
    MarksConcat(a, b);
    PlacesFirst(us);
    if a == "" {
      assert a + b == b && us + vs == vs;
      assert "" + NumberedBlocks(bt, b, vs, k) == NumberedBlocks(bt, b, vs, k);
    } else {
      BlocksConcatStep(bt, a, b, us, vs, k);
    }
  }

  lemma {:induction false} BlocksConcatStep<V>(bt: BindType, a: string, b: string, us: seq<Plain<V>>,
                                               vs: seq<Plain<V>>, k: nat)
    requires Marks(a) == |us| && Marks(b) == |vs| && AllWide(us) && AllWide(vs) && a != ""
    requires Marks(a + b) == |us + vs|
    ensures AllWide(us + vs)
    ensures NumberedBlocks(bt, a + b, us + vs, k)
         == NumberedBlocks(bt, a, us, k) + NumberedBlocks(bt, b, vs, k + PlacesBefore(us, |us|))
    decreases |a|, 0
  {
    hide NumberedBlocks, NumberedBlock, Marks, PlacesBefore, Elements;
    MarksFirst(a);
    PlacesFirst(us);
    assert (a + b)[1..] == a[1..] + b && (a + b)[0] == a[0];
    if a[0] == '?' {
      assert (us + vs)[1..] == us[1..] + vs && (us + vs)[0] == us[0];
      var k' := k + Width(us[0]);
      BlocksConcat(bt, a[1..], b, us[1..], vs, k');
      FirstBlock(bt, a + b, us + vs, k);
      FirstBlock(bt, a, us, k);
      Assoc(NumberedBlock(bt, k, Width(us[0])), NumberedBlocks(bt, a[1..], us[1..], k'),
            NumberedBlocks(bt, b, vs, k + PlacesBefore(us, |us|)));
    } else {
      BlocksConcat(bt, a[1..], b, us, vs, k);
      FirstPlain(bt, a + b, us + vs, k);
      FirstPlain(bt, a, us, k);
      Assoc([a[0]], NumberedBlocks(bt, a[1..], us, k), NumberedBlocks(bt, b, vs, k + PlacesBefore(us, |us|)));
    }
  }

  lemma {:induction false} PlacesOfPrefix<V>(ps: seq<Plain<V>>, i: nat)
    requires i <= |ps|
    ensures PlacesBefore(ps[..i], i) == PlacesBefore(ps, i)
  {
    if i > 0 {
      assert ps[..i][1..] == ps[1..][..i - 1];
      PlacesOfPrefix(ps[1..], i - 1);
    }
  }

  /** The block of argument `i` starts at the places the earlier arguments took. */
  lemma BlockStarts<V>(bt: BindType, q: string, ps: seq<Plain<V>>, k: nat, i: nat)
    requires Marks(q) == |ps| && AllWide(ps) && i < |ps|
    ensures var at := MarkAt(q, i);
            && Marks(q[..at]) == i && Marks(q[at + 1..]) == |ps| - i - 1
            && NumberedBlocks(bt, q, ps, k)
               == NumberedBlocks(bt, q[..at], ps[..i], k)
                  + NumberedBlock(bt, k + PlacesBefore(ps, i), Width(ps[i]))
                  + NumberedBlocks(bt, q[at + 1..], ps[i + 1..], k + PlacesBefore(ps, i) + Width(ps[i]))
  {
    hide Marks, NumberedBlock, NumberedBlocks, Elements, MarkAt, PlacesBefore;
    MarksAround(q, i);
    PlacesOfPrefix(ps, i);
    var at := MarkAt(q, i);
    var before, here := q[..at], q[at..];
    assert q == before + here && here[1..] == q[at + 1..];
    assert ps == ps[..i] + ps[i..] && ps[i..][1..] == ps[i + 1..];
    FirstBlock(bt, here, ps[i..], k + PlacesBefore(ps, i));
    BlocksConcat(bt, before, here, ps[..i], ps[i..], k);
    Assoc(NumberedBlocks(bt, before, ps[..i], k), NumberedBlock(bt, k + PlacesBefore(ps, i), Width(ps[i])),
          NumberedBlocks(bt, q[at + 1..], ps[i + 1..], k + PlacesBefore(ps, i) + Width(ps[i])));
  }

  /** What `In` returns is ready to run. It has as many marks as arguments; rebound, the
      block in place of mark `i` is numbered from one more than the places taken before
      it; and those places hold argument `i`'s elements in order. */
  lemma ExpandedLinesUp<V>(q: string, args: seq<Arg<V>>, bt: BindType, i: nat, j: nat)
    requires AllUsable(args) && InSpec(q, args).Expanded?
    requires i < |args| && j < Width(PlainArgs(args)[i])
    ensures var r, ps := InSpec(q, args), PlainArgs(args);
            && Marks(r.query) == |r.args|
            && PlacesBefore(ps, i) + j < |r.args|
            && r.args[PlacesBefore(ps, i) + j] == Elements(ps[i])[j]
    ensures var r, ps, at := InSpec(q, args), PlainArgs(args), MarkAt(q, i);
            && Marks(q[..at]) == i && Marks(q[at + 1..]) == |ps| - i - 1
            && Numbered(bt, r.query, 1)
               == NumberedBlocks(bt, q[..at], ps[..i], 1)
                  + NumberedBlock(bt, 1 + PlacesBefore(ps, i), Width(ps[i]))
                  + NumberedBlocks(bt, q[at + 1..], ps[i + 1..], 1 + PlacesBefore(ps, i) + Width(ps[i]))
  {
    hide Marks, Numbered, NumberedBlocks, NumberedBlock, Expand, FirstError, PlainArgs, PlacesBefore, Flat, MarkAt,
         Elements;
    var ps := PlainArgs(args);
    MarksMatchArgs(q, ps);
    BlocksNumberedInOrder(bt, q, ps, 1);
    BlockStarts(bt, q, ps, 1, i);
    FlatPlace(ps, i, j);
  }
}
