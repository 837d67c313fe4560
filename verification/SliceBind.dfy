/** Binding values to a named query: one struct or map, or a slice of rows whose
    placeholder group is cloned once per row. */
module SliceBind {
  import opened Text
  import opened NamedQuery
  import opened Rebind
  import opened Dialects

  /** What a name finds in an element: a value, or an unexported field, whose value the
      reflection library refuses to hand out. */
  datatype Reading<V> = Readable(v: V) | Sealed

  /** An element to bind: a nil pointer, or what it offers by name. A struct offers what the
      name table of its type finds; a map bound on its own offers its keys, but as an
      element of a slice it offers nothing, because the elements of a slice are always
      looked up through the table of their type and that of a map type is empty. */
  datatype Record<V> = NilPointer | Fields(values: map<string, Reading<V>>)

  /** The last two are panics: a nil pointer has no type to look names up in, and an
      unexported field does not give out its value. */
  datatype BindError =
    | BadQuery(at: nat)
    | NoRows
    | NoParameters
    | NotFound(name: string)
    | NotParenthesised
    | NilPanics
    | FieldPanics(name: string)

  datatype BindResult<V> = Bound(query: string, args: seq<V>) | Refused(e: BindError)

  // ---- one struct or map -----------------------------------------------------------

  predicate Offers<V>(rec: Record<V>, names: seq<string>) {
    rec.Fields? && forall i :: 0 <= i < |names| ==> names[i] in rec.values && rec.values[names[i]].Readable?
  }

  function FirstFault<V>(rec: Record<V>, names: seq<string>): (e: Option<BindError>)
    ensures e == None <==> Offers(rec, names)
  {
    if rec.NilPointer? then Some(NilPanics)
    else if names == [] then None
    else if names[0] !in rec.values then Some(NotFound(names[0]))
    else if rec.values[names[0]].Sealed? then Some(FieldPanics(names[0]))
    else
      assert forall i :: 1 <= i < |names| ==> names[i] == names[1..][i - 1];
      FirstFault(rec, names[1..])
  }

  function Values<V>(rec: Record<V>, names: seq<string>): (vs: seq<V>)
    requires Offers(rec, names)
    ensures |vs| == |names| && forall i :: 0 <= i < |vs| ==> vs[i] == rec.values[names[i]].v
  {
    seq(|names|, i requires 0 <= i < |names| => rec.values[names[i]].v)
  }

  /** The first name that finds nothing, or an unexported field, decides. */
  lemma {:induction false} FirstFaultAt<V>(rec: Record<V>, names: seq<string>, i: nat)
    requires i < |names| && Offers(rec, names[..i])
    ensures names[i] !in rec.values ==> FirstFault(rec, names) == Some(NotFound(names[i]))
    ensures names[i] in rec.values && rec.values[names[i]].Sealed? ==>
              FirstFault(rec, names) == Some(FieldPanics(names[i]))
  {
    if i > 0 {
      assert names[..i][0] == names[0] && names[1..][..i - 1] == names[..i][1..];
      FirstFaultAt(rec, names[1..], i - 1);
    }
  }

  /** The name that decides: all before it are given out, and it is not. */
  lemma {:induction false} DecidingName<V>(rec: Record<V>, names: seq<string>) returns (i: nat)
    requires rec.Fields? && !Offers(rec, names)
    ensures i < |names| && Offers(rec, names[..i]) && !Offers(rec, [names[i]])
    ensures FirstFault(rec, names) == Some(if names[i] in rec.values then FieldPanics(names[i]) else NotFound(names[i]))
  {
    if !Offers(rec, [names[0]]) {
      i := 0;
      assert [names[0]][0] == names[0];
    } else {
      assert [names[0]][0] == names[0];
      i := DecidingName(rec, names[1..]);
      assert names[..i + 1] == [names[0]] + names[1..][..i];
      i := i + 1;
    }
    FirstFaultAt(rec, names, i);
  }

  function StructSpec<V>(bt: BindType, q: string, rec: Record<V>): BindResult<V> {
    match Compile(q, bt)
    case SyntaxError(at, _) => Refused(BadQuery(at))
    case Compiled(bound, names) =>
      match FirstFault(rec, names)
      case Some(e) => Refused(e)
      case None => Bound(bound, Values(rec, names))
  }

  /** The arguments of one record, looked up name by name. */
  method BindFields<V>(rec: Record<V>, names: seq<string>) returns (args: seq<V>, fault: Option<BindError>)
    ensures fault == FirstFault(rec, names)
    ensures fault == None ==> args == Values(rec, names)
  {
    args := [];
    if rec.NilPointer? {
      return args, Some(NilPanics);
    }
    for i := 0 to |names|
      invariant Offers(rec, names[..i])
      invariant |args| == i && forall k :: 0 <= k < i ==> args[k] == rec.values[names[k]].v
    {
      FirstFaultAt(rec, names, i);
      if names[i] !in rec.values {
        return args, Some(NotFound(names[i]));
      }
      if rec.values[names[i]].Sealed? {
        return args, Some(FieldPanics(names[i]));
      }
      args := args + [rec.values[names[i]].v];
      assert names[..i + 1] == names[..i] + [names[i]];
    }
    assert names[..|names|] == names;
    assert args == Values(rec, names);
    fault := None;
  }

  method BindStruct<V>(bt: BindType, q: string, rec: Record<V>) returns (r: BindResult<V>)
    ensures r == StructSpec(bt, q, rec)
    ensures var c := Compile(q, bt);
            && (c.SyntaxError? ==> r == Refused(BadQuery(c.at)))
            && (c.Compiled? && Offers(rec, c.names) ==> r == Bound(c.query, Values(rec, c.names)))
            && (c.Compiled? && !Offers(rec, c.names) ==> r.Refused? && FirstFault(rec, c.names) == Some(r.e))
  {
    var compiled := CompileNamedQuery(q, bt);
    if compiled.SyntaxError? {
      return Refused(BadQuery(compiled.at));
    }
    var args, fault := BindFields(rec, compiled.names);
    if fault.Some? {
      return Refused(fault.value);
    }
    r := Bound(compiled.query, args);
  }

  // ---- a slice of rows --------------------------------------------------------------

  /** `n` copies of a group, separated by commas. */
  function Joined(g: string, n: nat): string
    requires n > 0
  {
    if n == 1 then g else Joined(g, n - 1) + (", " + g)
  }

  /** Where the placeholder group of a `?`-compiled query opens and closes: the last
      `(` before the first mark and the first `)` after the last one. */
  function OpenAt(u: string): (i: int)
    ensures -1 <= i < |u|
  {
    var first := IndexOf(u, '?', 0);
    if first == -1 then -1 else LastIndexOf(u, '(', first)
  }

  function CloseAt(u: string): (i: int)
    ensures -1 <= i < |u|
  {
    var last := LastIndexOf(u, '?', |u|);
    if last == -1 then -1 else IndexOf(u, ')', last)
  }

  predicate HasGroup(u: string) {
    OpenAt(u) != -1 && CloseAt(u) != -1
  }

  /** The group opens before the first mark and closes after the last. */
  lemma GroupHoldsMarks(u: string)
    requires HasGroup(u)
    ensures OpenAt(u) < CloseAt(u)
    ensures '?' !in u[..OpenAt(u)] && '?' !in u[CloseAt(u) + 1..]
    ensures u == u[..OpenAt(u)] + u[OpenAt(u)..CloseAt(u) + 1] + u[CloseAt(u) + 1..]
    ensures Marks(u[OpenAt(u)..CloseAt(u) + 1]) == Marks(u)
  {
    var pre, g, post := u[..OpenAt(u)], u[OpenAt(u)..CloseAt(u) + 1], u[CloseAt(u) + 1..];
    assert u == pre + g + post;
    MarksConcat(pre + g, post);
    MarksConcat(pre, g);
  }

  /** `u` is a text without marks, a group in parentheses that holds all marks, and a text
      without marks. The group opens at the last `(` before its first mark and closes at
      the first `)` after its last. */
  ghost predicate GroupSplit(u: string, a: string, b: string, c: string) {
    && u == a + ("(" + b + ")") + c
    && '?' !in a && '?' in b && '?' !in c
    && NoParenBefore(b) && NoParenAfter(b)
  }

  /** No `(` before the first mark. */
  ghost predicate NoParenBefore(b: string) {
    forall i :: 0 <= i < |b| && b[i] == '(' ==> exists k :: 0 <= k < i && b[k] == '?'
  }

  /** No `)` after the last mark. */
  ghost predicate NoParenAfter(b: string) {
    forall i :: 0 <= i < |b| && b[i] == ')' ==> exists k :: i < k < |b| && b[k] == '?'
  }

  /** The bytes of a text in parentheses between two others. */
  lemma PartBytes(a: string, b: string, c: string)
    ensures var u := a + ("(" + b + ")") + c;
            && |u| == |a| + |b| + |c| + 2 && u[|a|] == '(' && u[|a| + 1 + |b|] == ')'
            && (forall k :: 0 <= k < |a| ==> u[k] == a[k])
            && (forall k :: 0 <= k < |b| ==> u[|a| + 1 + k] == b[k])
            && (forall k :: |a| + |b| + 2 <= k < |u| ==> u[k] == c[k - |a| - |b| - 2])
  {
  }

  /** The marks of a split text lie in the group. */
  lemma MarksInGroup(u: string, a: string, b: string, c: string, k: nat)
    requires GroupSplit(u, a, b, c) && k < |u| && u[k] == '?'
    ensures |a| < k <= |a| + |b| && b[k - |a| - 1] == '?'
  {
    hide NoParenBefore, NoParenAfter;
    PartBytes(a, b, c);
    assert forall j :: 0 <= j < |a| ==> a[j] in a;
    assert forall j :: 0 <= j < |c| ==> c[j] in c;
  }

  /** Such a split is where the two searches end. */
  lemma SplitIsFound(u: string, a: string, b: string, c: string)
    requires GroupSplit(u, a, b, c)
    ensures OpenAt(u) == |a| && CloseAt(u) == |a| + 1 + |b|
  {
    hide GroupSplit;
    SplitEnds(u, a, b, c);
    var first, last := IndexOf(u, '?', 0), LastIndexOf(u, '?', |u|);
    MarksInGroup(u, a, b, c, first);
    MarksInGroup(u, a, b, c, last);
    NothingBetween(u, a, b, c, first, last);
    FoundBetween(u, |a|, first, last, |a| + 1 + |b|);
  }

  lemma SplitEnds(u: string, a: string, b: string, c: string)
    requires GroupSplit(u, a, b, c)
    ensures |u| == |a| + |b| + |c| + 2 && u[|a|] == '(' && u[|a| + 1 + |b|] == ')'
    ensures exists k :: 0 <= k < |u| && u[k] == '?'
  {
    hide NoParenBefore, NoParenAfter;
    PartBytes(a, b, c);
    var k :| 0 <= k < |b| && b[k] == '?';
    assert u[|a| + 1 + k] == '?';
  }

  lemma NothingBetween(u: string, a: string, b: string, c: string, first: nat, last: nat)
    requires GroupSplit(u, a, b, c) && first <= last < |u| && |a| < first && last <= |a| + |b|
    requires forall k :: 0 <= k < first ==> u[k] != '?'
    requires forall k :: last < k < |u| ==> u[k] != '?'
    ensures forall i :: |a| < i < first ==> u[i] != '('
    ensures forall i :: last < i <= |a| + |b| && i < |u| ==> u[i] != ')'
  {
    hide GroupSplit;
    forall i | |a| < i < first
      ensures u[i] != '('
    {
      if u[i] == '(' {
        ParenAfterMark(u, a, b, c, i);
      }
    }
    forall i | last < i <= |a| + |b| && i < |u|
      ensures u[i] != ')'
    {
      if u[i] == ')' {
        ParenBeforeMark(u, a, b, c, i);
      }
    }
  }

  lemma ParenAfterMark(u: string, a: string, b: string, c: string, i: nat)
    requires GroupSplit(u, a, b, c) && |a| < i <= |a| + |b| && i < |u| && u[i] == '('
    ensures exists k :: 0 <= k < i && u[k] == '?'
  {
    hide NoParenAfter;
    PartBytes(a, b, c);
    assert b[i - |a| - 1] == '(';
    var k :| 0 <= k < i - |a| - 1 && b[k] == '?';
    assert u[|a| + 1 + k] == '?';
  }

  lemma ParenBeforeMark(u: string, a: string, b: string, c: string, i: nat)
    requires GroupSplit(u, a, b, c) && |a| < i <= |a| + |b| && i < |u| && u[i] == ')'
    ensures exists k :: i < k < |u| && u[k] == '?'
  {
    hide NoParenBefore;
    PartBytes(a, b, c);
    assert b[i - |a| - 1] == ')';
    var k :| i - |a| - 1 < k < |b| && b[k] == '?';
    assert u[|a| + 1 + k] == '?';
  }

  lemma FoundBetween(u: string, o: nat, first: nat, last: nat, cl: nat)
    requires o < first <= last < cl < |u| && u[o] == '(' && u[cl] == ')'
    requires first == IndexOf(u, '?', 0) && last == LastIndexOf(u, '?', |u|)
    requires forall i :: o < i < first ==> u[i] != '('
    requires forall i :: last < i < cl ==> u[i] != ')'
    ensures OpenAt(u) == o && CloseAt(u) == cl
  {
  }

  /** And where the searches end there is such a split. */
  lemma FoundIsSplit(u: string)
    requires HasGroup(u)
    ensures OpenAt(u) < CloseAt(u)
    ensures GroupSplit(u, u[..OpenAt(u)], u[OpenAt(u) + 1..CloseAt(u)], u[CloseAt(u) + 1..])
  {
    GroupHoldsMarks(u);
    SplitAround(u, OpenAt(u), IndexOf(u, '?', 0), LastIndexOf(u, '?', |u|), CloseAt(u));
  }

  lemma SplitAround(u: string, o: nat, first: nat, last: nat, cl: nat)
    requires o < first <= last < cl < |u| && u[o] == '(' && u[first] == '?' && u[last] == '?' && u[cl] == ')'
    requires forall k :: 0 <= k < first ==> u[k] != '?'
    requires forall k :: last < k < |u| ==> u[k] != '?'
    requires forall k :: o < k < first ==> u[k] != '('
    requires forall k :: last <= k < cl ==> u[k] != ')'
    ensures GroupSplit(u, u[..o], u[o + 1..cl], u[cl + 1..])
  {
    hide NoParenBefore, NoParenAfter;
    var b := u[o + 1..cl];
    SplitText(u, o, cl);
    PartAt(b, u, o + 1, first);
    PartAt(b, u, o + 1, last);
    ParensApart(b, first - o - 1, last - o - 1);
  }

  lemma SplitText(u: string, o: nat, cl: nat)
    requires o < cl < |u| && u[o] == '(' && u[cl] == ')'
    ensures u == u[..o] + ("(" + u[o + 1..cl] + ")") + u[cl + 1..]
  {
    assert u[o..cl + 1] == "(" + u[o + 1..cl] + ")";
    assert u == u[..o] + u[o..cl + 1] + u[cl + 1..];
  }

  lemma PartAt(b: string, u: string, o: nat, k: nat)
    requires o <= k < o + |b| <= |u| && b == u[o..o + |b|]
    ensures b[k - o] == u[k] && u[k] in b
  {
  }

  lemma ParensApart(b: string, first: nat, last: nat)
    requires first <= last < |b| && b[first] == '?' && b[last] == '?'
    requires forall i :: 0 <= i < first ==> b[i] != '('
    requires forall i :: last < i < |b| ==> b[i] != ')'
    ensures NoParenBefore(b) && NoParenAfter(b)
  {
  }

  ghost predicate Splits(u: string) {
    exists a, b, c :: GroupSplit(u, a, b, c)
  }

  /** A query is cloned if and only if it has such a split, and then so. */
  lemma ClonedAtSplit(u: string, n: nat)
    requires n > 0
    ensures HasGroup(u) <==> Splits(u)
    ensures forall a, b, c :: GroupSplit(u, a, b, c) ==>
              HasGroup(u) && Cloned(u, n) == a + Joined("(" + b + ")", n) + c
  {
    hide GroupSplit, OpenAt, CloseAt, Joined;
    if HasGroup(u) {
      FoundIsSplit(u);
    }
    forall a, b, c | GroupSplit(u, a, b, c)
      ensures HasGroup(u) && Cloned(u, n) == a + Joined("(" + b + ")", n) + c
    {
      SplitIsFound(u, a, b, c);
      SplitParts(u, a, b, c);
    }
  }

  lemma SplitParts(u: string, a: string, b: string, c: string)
    requires GroupSplit(u, a, b, c)
    ensures |u| == |a| + |b| + |c| + 2
    ensures u[..|a|] == a && u[|a|..|a| + |b| + 2] == "(" + b + ")" && u[|a| + |b| + 2..] == c
  {
  }

  lemma {:induction false} TimesOneMore(n: nat, m: nat)
    requires n > 0
    ensures n * m == (n - 1) * m + m
  {
  }

  /** A group written `n` times: copy `r` starts after `r` copies and separators, and a
      comma and a space stand between a copy and the next. */
  lemma {:induction false} JoinedAt(g: string, n: nat, r: nat)
    requires r < n
    ensures |Joined(g, n)| == n * (|g| + 2) - 2
    ensures var at := r * (|g| + 2);
            && at + |g| <= |Joined(g, n)| && Joined(g, n)[at..at + |g|] == g
            && (r + 1 < n ==> at + |g| + 2 <= |Joined(g, n)| && Joined(g, n)[at + |g|..at + |g| + 2] == ", ")
  {
    var w, at := |g| + 2, r * (|g| + 2);
    TimesOneMore(n, w);
    if n > 1 {
      var front := Joined(g, n - 1);
      if r < n - 1 {
        JoinedAt(g, n - 1, r);
        if r + 1 == n - 1 {
          TimesOneMore(n - 1, w);
        }
        CopyInFront(front, ", " + g, at, |g|);
      } else {
        JoinedAt(g, n - 1, 0);
        assert (front + (", " + g))[|front| + 2..] == g;
      }
    }
  }

  lemma CopyInFront(front: string, more: string, at: nat, n: nat)
    requires at + n <= |front| && |more| >= 2
    ensures (front + more)[at..at + n] == front[at..at + n]
    ensures at + n + 2 <= |front| ==> (front + more)[at + n..at + n + 2] == front[at + n..at + n + 2]
    ensures at + n == |front| ==> (front + more)[at + n..at + n + 2] == more[..2]
  {
  }

  function Cloned(u: string, n: nat): string
    requires HasGroup(u) && n > 0
  {
    GroupHoldsMarks(u);
    u[..OpenAt(u)] + Joined(u[OpenAt(u)..CloseAt(u) + 1], n) + u[CloseAt(u) + 1..]
  }

  function FirstFaultInRows<V>(rows: seq<Record<V>>, names: seq<string>): (e: Option<BindError>)
    ensures e == None <==> forall i :: 0 <= i < |rows| ==> Offers(rows[i], names)
  {
    if rows == [] then None
    else if FirstFault(rows[0], names).Some? then FirstFault(rows[0], names)
    else
      assert forall i :: 1 <= i < |rows| ==> rows[i] == rows[1..][i - 1];
      FirstFaultInRows(rows[1..], names)
  }

  function RowValues<V>(rows: seq<Record<V>>, names: seq<string>): seq<V>
    requires forall i :: 0 <= i < |rows| ==> Offers(rows[i], names)
  {
    if rows == [] then [] else RowValues(rows[..|rows| - 1], names) + Values(rows[|rows| - 1], names)
  }

  function SliceSpec<V>(bt: BindType, q: string, rows: seq<Record<V>>): BindResult<V> {
    if rows == [] then Refused(NoRows)
    else match Compile(q, Question)
         case SyntaxError(at, _) => Refused(BadQuery(at))
         case Compiled(unbound, names) =>
           if names == [] then Refused(NoParameters)
           else match FirstFaultInRows(rows, names)
                case Some(e) => Refused(e)
                case None =>
                  if !HasGroup(unbound) then Refused(NotParenthesised)
                  else Bound(Rebound(bt, Cloned(unbound, |rows|)), RowValues(rows, names))
  }

  /** What a slice binding that succeeds has checked and gives. */
  lemma BoundSlice<V>(bt: BindType, q: string, rows: seq<Record<V>>)
    requires SliceSpec(bt, q, rows).Bound?
    ensures rows != [] && Compile(q, Question).Compiled? && Compile(q, Question).names != []
    ensures var u, names := Compile(q, Question).query, Compile(q, Question).names;
            && HasGroup(u) && (forall i :: 0 <= i < |rows| ==> Offers(rows[i], names))
            && SliceSpec(bt, q, rows) == Bound(Rebound(bt, Cloned(u, |rows|)), RowValues(rows, names))
  {
    hide Compile, Rebound, Cloned, HasGroup, RowValues, Offers, FirstFault, FirstFaultInRows;
  }

  lemma {:induction false} FirstFaultInRowsAt<V>(rows: seq<Record<V>>, names: seq<string>, i: nat)
    requires i < |rows| && !Offers(rows[i], names)
    requires forall k :: 0 <= k < i ==> Offers(rows[k], names)
    ensures FirstFaultInRows(rows, names) == FirstFault(rows[i], names)
  {
    if i > 0 {
      assert Offers(rows[0], names);
      FirstFaultInRowsAt(rows[1..], names, i - 1);
    }
  }

  /** A query with a parameter has a mark, so the search for the group never meets a
      query without one. */
  lemma ParametersLeaveMarks(q: string)
    requires Compile(q, Question).Compiled? && Compile(q, Question).names != []
    ensures '?' in Compile(q, Question).query
  {
    RenderedMarks(Lex(q, Outside).ts, 1);
  }

  method JoinGroups(g: string, n: nat) returns (s: string)
    requires n > 0
    ensures s == Joined(g, n)
  {
    s := g;
    for i := 1 to n
      invariant s == Joined(g, i)
    {
      s := s + (", " + g);
    }
  }

  /** Step two: the values of all rows, row after row. */
  method BindRows<V>(rows: seq<Record<V>>, names: seq<string>) returns (arglist: seq<V>, fault: Option<BindError>)
    ensures fault == FirstFaultInRows(rows, names)
    ensures fault == None ==> arglist == RowValues(rows, names)
  {
    arglist := [];
    for i := 0 to |rows|
      invariant forall k :: 0 <= k < i ==> Offers(rows[k], names)
      invariant arglist == RowValues(rows[..i], names)
    {
      var args;
      args, fault := BindFields(rows[i], names);
      if fault.Some? {
        FirstFaultInRowsAt(rows, names, i);
        return;
      }
      assert rows[..i + 1][..i] == rows[..i];
      arglist := arglist + args;
    }
    assert rows[..|rows|] == rows;
    fault := None;
  }

  lemma MarkedSplit(u: string)
    ensures Splits(u) ==> '?' in u
  {
    forall a, b, c | GroupSplit(u, a, b, c)
      ensures '?' in u
    {
      hide NoParenBefore, NoParenAfter;
      PartBytes(a, b, c);
      var k :| 0 <= k < |b| && b[k] == '?';
      assert u[|a| + 1 + k] == '?';
    }
  }

  /** Step three: the group is found and cloned. */
  method CloneGroup(unbound: string, n: nat) returns (newQuery: Option<string>)
    requires n > 0
    ensures '?' in unbound ==> newQuery == if HasGroup(unbound) then Some(Cloned(unbound, n)) else None
    ensures '?' in unbound ==> (newQuery == None <==> !Splits(unbound))
    ensures forall a, b, c :: GroupSplit(unbound, a, b, c) ==> newQuery == Some(a + Joined("(" + b + ")", n) + c)
  {
    ClonedAtSplit(unbound, n);
    MarkedSplit(unbound);
    hide GroupSplit, Splits;
    var firstQ := IndexFrom(unbound, '?', 0);
    var lastQ := LastIndexBefore(unbound, '?', |unbound|);
    if firstQ != -1 && lastQ != -1 {
      var openP := LastIndexBefore(unbound, '(', firstQ);
      var closeP := IndexFrom(unbound, ')', lastQ);
      if openP != -1 && closeP != -1 {
        GroupHoldsMarks(unbound);
        var groups := JoinGroups(unbound[openP..closeP + 1], n);
        newQuery := Some(unbound[..openP] + groups + unbound[closeP + 1..]);
      } else {
        newQuery := None;
      }
    } else {
      newQuery := Some(unbound);
    }
  }

  /** A slice binding, check by check in the order they are made. The query that is run is
      the `?` compilation with its group written once per row, renumbered. */
  ghost predicate SliceCases<V>(bt: BindType, q: string, rows: seq<Record<V>>, r: BindResult<V>) {
    var c := Compile(q, Question);
    if rows == [] then r == Refused(NoRows)
    else if c.SyntaxError? then r == Refused(BadQuery(c.at))
    else if c.names == [] then r == Refused(NoParameters)
    else if exists i :: 0 <= i < |rows| && !Offers(rows[i], c.names) then
      exists i :: 0 <= i < |rows| && !Offers(rows[i], c.names) && (forall k :: 0 <= k < i ==> Offers(rows[k], c.names))
        && r.Refused? && FirstFault(rows[i], c.names) == Some(r.e)
    else if !Splits(c.query) then r == Refused(NotParenthesised)
    else
      && r.Bound? && r.args == RowValues(rows, c.names)
      && forall x, b, y :: GroupSplit(c.query, x, b, y) ==>
           r.query == Rebound(bt, x + Joined("(" + b + ")", |rows|) + y)
  }

  lemma SliceByCases<V>(bt: BindType, q: string, rows: seq<Record<V>>)
    ensures SliceCases(bt, q, rows, SliceSpec(bt, q, rows))
  {
    hide Compile, Rebound, Cloned, HasGroup, RowValues, Offers, FirstFault, GroupSplit, Splits, Joined;
    var c := Compile(q, Question);
    if rows != [] && c.Compiled? && c.names != [] {
      ClonedAtSplit(c.query, |rows|);
      if FirstFaultInRows(rows, c.names).Some? {
        var i := FirstBadRow(rows, c.names);
        FirstFaultInRowsAt(rows, c.names, i);
      }
    }
  }

  lemma {:induction false} FirstBadRow<V>(rows: seq<Record<V>>, names: seq<string>) returns (i: nat)
    requires exists k :: 0 <= k < |rows| && !Offers(rows[k], names)
    ensures i < |rows| && !Offers(rows[i], names) && forall k :: 0 <= k < i ==> Offers(rows[k], names)
  {
    if !Offers(rows[0], names) {
      i := 0;
    } else {
      var k :| 0 <= k < |rows| && !Offers(rows[k], names);
      assert rows[1..][k - 1] == rows[k];
      i := FirstBadRow(rows[1..], names);
      i := i + 1;
    }
  }

  method BindArray<V>(bt: BindType, q: string, rows: seq<Record<V>>) returns (r: BindResult<V>)
    ensures r == SliceSpec(bt, q, rows)
    ensures SliceCases(bt, q, rows, r)
  {
    SliceByCases(bt, q, rows);
    hide SliceCases, Rebound, Cloned, HasGroup, FirstFaultInRows, RowValues, Compile;
    if |rows| == 0 {
      return Refused(NoRows);
    }
    var compiled := CompileNamedQuery(q, Question);
    if compiled.SyntaxError? {
      return Refused(BadQuery(compiled.at));
    }
    var unbound, names := compiled.query, compiled.names;
    if |names| == 0 {
      return Refused(NoParameters);
    }
    var arglist, fault := BindRows(rows, names);
    if fault.Some? {
      return Refused(fault.value);
    }
    ParametersLeaveMarks(q);
    var newQuery := CloneGroup(unbound, |rows|);
    if newQuery.None? {
      return Refused(NotParenthesised);
    }
    var final := RebindQuery(bt, newQuery.value);
    r := Bound(final, arglist);
  }

  // ---- placeholders and values line up -------------------------------------------------

  /** Clone number `r` of the group carries the numbers after those of the clones
      before it. */
  function NumberedGroups(bt: BindType, g: string, n: nat): string
    requires n > 0
  {
    if n == 1 then Numbered(bt, g, 1)
    else NumberedGroups(bt, g, n - 1) + (", " + Numbered(bt, g, (n - 1) * Marks(g) + 1))
  }

  lemma {:induction false} ClonesNumbered(bt: BindType, g: string, n: nat)
    requires n > 0
    ensures Marks(Joined(g, n)) == n * Marks(g)
    ensures Numbered(bt, Joined(g, n), 1) == NumberedGroups(bt, g, n)
  {
    hide Marks, Numbered, Joined, NumberedGroups;
    ClonesStep(bt, g, n);
    if n > 1 {
      ClonesNumbered(bt, g, n - 1);
      TimesOneMore(n, Marks(g));
      OneMoreClone(bt, g, Joined(g, n - 1), (n - 1) * Marks(g));
    } else {
      assert n * Marks(g) == Marks(g);
    }
  }

  lemma ClonesStep(bt: BindType, g: string, n: nat)
    requires n > 0
    ensures n == 1 ==> Joined(g, n) == g && NumberedGroups(bt, g, n) == Numbered(bt, g, 1)
    ensures n > 1 ==>
              && Joined(g, n) == Joined(g, n - 1) + (", " + g)
              && NumberedGroups(bt, g, n)
                 == NumberedGroups(bt, g, n - 1) + (", " + Numbered(bt, g, (n - 1) * Marks(g) + 1))
  {
    hide Marks, Numbered;
  }

  lemma OneMoreClone(bt: BindType, g: string, clones: string, before: nat)
    requires Marks(clones) == before
    ensures Marks(clones + (", " + g)) == before + Marks(g)
    ensures Numbered(bt, clones + (", " + g), 1)
         == Numbered(bt, clones, 1) + (", " + Numbered(bt, g, before + 1))
  {
    hide Marks, Numbered;
    SeparatedGroup(bt, g, before + 1);
    MarksConcat(clones, ", " + g);
    NumberedConcat(bt, clones, ", " + g, 1);
  }

  lemma SeparatedGroup(bt: BindType, g: string, k: nat)
    ensures Marks(", " + g) == Marks(g)
    ensures Numbered(bt, ", " + g, k) == ", " + Numbered(bt, g, k)
  {
    hide Marks, Numbered;
    assert (", " + g)[1..] == " " + g && (" " + g)[1..] == g;
    NumberedFirst(bt, ", " + g, k);
    NumberedFirst(bt, " " + g, k);
    Assoc(",", " ", Numbered(bt, g, k));
  }

  lemma {:induction false} RowValuePlace<V>(rows: seq<Record<V>>, names: seq<string>, r: nat, j: nat)
    requires forall i :: 0 <= i < |rows| ==> Offers(rows[i], names)
    requires r < |rows| && j < |names|
    ensures Offers(rows[r], names)
    ensures |RowValues(rows, names)| == |rows| * |names|
    ensures r * |names| + j < |RowValues(rows, names)|
    ensures RowValues(rows, names)[r * |names| + j] == rows[r].values[names[j]].v
  {
    var n := |rows| - 1;
    TimesOneMore(|rows|, |names|);
    if r < n {
      RowValuePlace(rows[..n], names, r, j);
    } else if n > 0 {
      RowValuePlace(rows[..n], names, n - 1, j);
    }
  }

  /** Cloning and rebinding touch only the group. */
  lemma ClonedNumbered(bt: BindType, u: string, n: nat)
    requires HasGroup(u) && n > 0
    ensures OpenAt(u) < CloseAt(u)
    ensures Marks(Cloned(u, n)) == n * Marks(u)
    ensures Numbered(bt, Cloned(u, n), 1)
         == u[..OpenAt(u)] + NumberedGroups(bt, u[OpenAt(u)..CloseAt(u) + 1], n) + u[CloseAt(u) + 1..]
  {
    hide Marks, Numbered, NumberedGroups, Joined, OpenAt, CloseAt;
    GroupHoldsMarks(u);
    var pre, g, post := u[..OpenAt(u)], u[OpenAt(u)..CloseAt(u) + 1], u[CloseAt(u) + 1..];
    var groups := Joined(g, n);
    ClonesNumbered(bt, g, n);
    MarksConcat(pre + groups, post);
    MarksConcat(pre, groups);
    NumberedConcat(bt, pre + groups, post, 1);
    NumberedConcat(bt, pre, groups, 1);
    NumberedPlain(bt, pre, 1);
    NumberedPlain(bt, post, 1 + Marks(pre + groups));
  }

  /** A successful slice binding of `n` rows to `p` names changes only the group, and
      numbers clone `r` of it from `r * m + 1`, where `m` is the number of marks in the
      group, which is `p` if the author wrote no `?`. */
  lemma SliceTextAligned<V>(bt: BindType, q: string, rows: seq<Record<V>>)
    requires SliceSpec(bt, q, rows).Bound? && bt != Question && bt != Unknown
    ensures var u := Compile(q, Question).query;
            && OpenAt(u) < CloseAt(u)
            && SliceSpec(bt, q, rows).query
               == u[..OpenAt(u)] + NumberedGroups(bt, u[OpenAt(u)..CloseAt(u) + 1], |rows|) + u[CloseAt(u) + 1..]
            && ('?' !in q ==> Marks(u[OpenAt(u)..CloseAt(u) + 1]) == |Compile(q, Question).names|)
  {
    hide Compile, Numbered, Cloned, NumberedGroups, HasGroup, OpenAt, CloseAt, Marks, RowValues, FirstFaultInRows;
    QuestionMarks(q);
    ClonedNumbered(bt, Compile(q, Question).query, |rows|);
    GroupHoldsMarks(Compile(q, Question).query);
  }

  /** Argument number `r * p + j` of `args` is row `r`'s value under name `j`. */
  ghost predicate ArgumentIs<V>(rows: seq<Record<V>>, names: seq<string>, args: seq<V>, r: nat, j: nat)
    requires r < |rows| && j < |names|
  {
    && |args| == |rows| * |names| && r * |names| + j < |args|
    && Offers(rows[r], names) && args[r * |names| + j] == rows[r].values[names[j]].v
  }

  /** Argument number `r * p + j` is what row `r` holds under name `j`, and there is one
      mark per argument if and only if the author wrote no `?`. */
  lemma SliceValuesAligned<V>(bt: BindType, q: string, rows: seq<Record<V>>, r: nat, j: nat)
    requires SliceSpec(bt, q, rows).Bound?
    requires r < |rows| && j < |Compile(q, Question).names|
    ensures ArgumentIs(rows, Compile(q, Question).names, SliceSpec(bt, q, rows).args, r, j)
    ensures rows != [] && Compile(q, Question).Compiled?
    ensures var u := Compile(q, Question).query;
            HasGroup(u) && (Marks(Cloned(u, |rows|)) == |SliceSpec(bt, q, rows).args| <==> '?' !in q)
  {
    hide Compile, Rebound, Cloned, HasGroup, Marks, RowValues, Offers, SliceSpec;
    BoundSlice(bt, q, rows);
    RowValuePlace(rows, Compile(q, Question).names, r, j);
    MarksOfClones(q, |rows|);
  }

  lemma MarksOfClones(q: string, n: nat)
    requires Compile(q, Question).Compiled? && HasGroup(Compile(q, Question).query) && n > 0
    ensures Marks(Cloned(Compile(q, Question).query, n)) == n * |Compile(q, Question).names| <==> '?' !in q
  {
    hide Compile, Cloned, HasGroup, Marks, NumberedGroups, Numbered;
    var u, names := Compile(q, Question).query, Compile(q, Question).names;
    QuestionMarks(q);
    ClonedNumbered(Question, u, n);
    if Marks(u) > |names| {
      MoreMarksThanNames(n, Marks(u), |names|);
    }
  }

  lemma MoreMarksThanNames(n: nat, m: nat, p: nat)
    requires n > 0 && m > p
    ensures n * m > n * p
  {
  }

  /** A `?`-compiled query has one mark per name, and more exactly if the author wrote
      some. */
  lemma QuestionMarks(q: string)
    requires Compile(q, Question).Compiled?
    ensures Marks(Compile(q, Question).query) >= |Compile(q, Question).names|
    ensures Marks(Compile(q, Question).query) == |Compile(q, Question).names| <==> '?' !in q
  {
    var ts := Lex(q, Outside).ts;
    RenderedMarks(ts, 1);
    NamedQueryLaws.ReadingLosesNothing(q);
    SourceMarks(ts);
  }

  lemma ClonedOnce(u: string)
    requires HasGroup(u)
    ensures Cloned(u, 1) == u
  {
    hide OpenAt, CloseAt, HasGroup;
    GroupHoldsMarks(u);
  }

  lemma OneRowValues<V>(rec: Record<V>, names: seq<string>)
    requires Offers(rec, names)
    ensures FirstFaultInRows([rec], names) == None
    ensures RowValues([rec], names) == Values(rec, names)
  {
    assert Offers([rec][0], names);
    assert RowValues<V>([rec][..0], names) == [];
    assert [] + Values(rec, names) == Values(rec, names);
  }

  /** One row bound as a slice gives what binding it as a struct gives. For the two
      counting dialects that needs a query without a `?` of its own, and only that. */
  lemma OneRowIsAStruct<V>(bt: BindType, q: string, rec: Record<V>)
    requires SliceSpec(bt, q, [rec]).Bound?
    ensures bt == Question || bt == Unknown ==> SliceSpec(bt, q, [rec]) == StructSpec(bt, q, rec)
    ensures bt == Dollar || bt == At ==> (SliceSpec(bt, q, [rec]) == StructSpec(bt, q, rec) <==> '?' !in q)
  {
    var u, names := Compile(q, Question).query, Compile(q, Question).names;
    NamesIgnoreDialect(q, Question, bt);
    assert FirstFaultInRows([rec], names) == None;
    assert Offers([rec][0], names);
    OneRowValues(rec, names);
    assert StructSpec(bt, q, rec) == Bound(Compile(q, bt).query, Values(rec, names));
    ClonedOnce(u);
    if bt == Dollar || bt == At {
      DialectsCommute(q, bt);
    } else if bt == Question || bt == Unknown {
      QuestionIsUnknown(Lex(q, Outside).ts, 1);
    }
  }

  lemma {:induction false} QuestionIsUnknown(ts: seq<Token>, k: nat)
    ensures Render(Question, ts, k) == Render(Unknown, ts, k)
  {
    if ts != [] {
      QuestionIsUnknown(ts[1..], if ts[0].Param? then k + 1 else k);
    }
  }

  // ---- a failing input -------------------------------------------------------------------

  lemma LiteralMarkCompiles(bt: BindType)
    ensures Compile("(:a,?)", bt) == Compiled("(" + (Placeholder(bt, "a", 1) + ",?)"), ["a"])
  {
    hide Compile, Placeholder;
    var ps := [NamedQueryLaws.Text("("), NamedQueryLaws.Name("a"), NamedQueryLaws.Text(",?)")];
    assert ps[1..] == [NamedQueryLaws.Name("a"), NamedQueryLaws.Text(",?)")];
    assert ps[1..][1..] == [NamedQueryLaws.Text(",?)")] && ps[1..][1..][1..] == [];
    assert "("[1..] == "" && ",?)"[1..] == "?)" && "?)"[1..] == ")" && ")"[1..] == "";
    assert NamedQueryLaws.DoubleColons("(") == "(" && NamedQueryLaws.DoubleColons(",?)") == ",?)";
    assert NamedQueryLaws.TemplateSource(ps[1..][1..]) == ",?)" + "" == ",?)";
    assert NamedQueryLaws.TemplateSource(ps[1..]) == ":" + "a" + ",?)" == ":a,?)";
    assert NamedQueryLaws.TemplateSource(ps) == "(" + ":a,?)" == "(:a,?)";
    assert NamedQueryLaws.Meant(bt, ps[1..][1..], 2) == ",?)" + "" == ",?)";
    NamedQueryLaws.TemplateRoundTrip(ps, bt);
  }

  lemma WitnessGroup()
    ensures OpenAt("(?,?)") == 0 && CloseAt("(?,?)") == 4 && Marks("(?,?)") == 2
    ensures HasGroup("(?,?)") && Cloned("(?,?)", 1) == "(?,?)"
  {
    hide Joined;
    var u := "(?,?)";
    assert u[1..] == "?,?)" && "?,?)"[1..] == ",?)" && ",?)"[1..] == "?)" && "?)"[1..] == ")" && ")"[1..] == "";
    assert OpenAt(u) == 0 && CloseAt(u) == 4;
    ClonedOnce(u);
  }

  /** One row bound to a query with a `?` of its own: it succeeds, with two marks for one
      argument, and for a counting dialect it differs from the struct binding. */
  lemma LiteralMarkMisaligns()
    ensures var b := SliceSpec(Dollar, "(:a,?)", [Fields(map["a" := Readable(7)])]);
            && b == Bound(Rebound(Dollar, "(?,?)"), [7]) && Marks("(?,?)") == 2
            && b != StructSpec(Dollar, "(:a,?)", Fields(map["a" := Readable(7)]))
  {
    hide Compile, Rebound, HasGroup, Cloned, FirstFaultInRows, RowValues, Marks, Placeholder, StructSpec;
    var q := "(:a,?)";
    var rec: Record<int> := Fields(map["a" := Readable(7)]);
    LiteralMarkCompiles(Question);
    assert Placeholder(Question, "a", 1) == "?" by {
      QuestionPlaceholder();
    }
    assert "(" + ("?" + ",?)") == "(?,?)";
    WitnessGroup();
    OneRowValues(rec, ["a"]);
    assert Values(rec, ["a"]) == [7];
    assert q[4] == '?';
    OneRowIsAStruct(Dollar, q, rec);
  }

  lemma QuestionPlaceholder()
    ensures Placeholder(Question, "a", 1) == "?"
  {
  }
}
