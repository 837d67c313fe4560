/** What a slice binding writes, read against the query's own tokens: each clone of the
    group is those tokens rendered once more, and when the named dialect, which a rebinding
    cannot reproduce in general, comes out right after all. */
module SliceDialects {
  import opened Text
  import opened NamedQuery
  import NamedQueryLaws
  import opened Rebind
  import opened Dialects
  import opened SliceBind

  // ---- clones are renderings ---------------------------------------------------------------

  lemma {:induction false} QuestionIgnoresNumber(ts: seq<Token>, j: nat, k: nat)
    ensures Render(Question, ts, j) == Render(Question, ts, k)
  {
    if ts != [] {
      QuestionIgnoresNumber(ts[1..], if ts[0].Param? then j + 1 else j, if ts[0].Param? then k + 1 else k);
    }
  }

  /** A position of a `?`-compiled query that is not between the two bytes of `:=`. */
  predicate Boundary(u: string, o: nat) {
    o <= |u| && !(0 < o < |u| && u[o - 1] == ':' && u[o] == '=')
  }

  /** Such a position lies between two tokens. */
  lemma {:induction false} SplitTokens(ts: seq<Token>, o: nat) returns (n: nat)
    requires Boundary(Render(Question, ts, 1), o)
    ensures n <= |ts|
    ensures Render(Question, ts[..n], 1) == Render(Question, ts, 1)[..o]
    ensures Render(Question, ts[n..], 1) == Render(Question, ts, 1)[o..]
  {
    hide Render;
    var u := Render(Question, ts, 1);
    if o == 0 {
      n := 0;
      assert ts[..0] == [] && ts[0..] == ts && u[0..] == u && u[..0] == "";
      RenderNothing(Question, 1);
    } else {
      if ts == [] {
        RenderNothing(Question, 1);
      }
      var head, rest := Emit(Question, ts[0], 1), ts[1..];
      var k := if ts[0].Param? then 2 else 1;
      RenderFirst(Question, ts, 1);
      QuestionIgnoresNumber(rest, k, 1);
      assert forall i :: 0 <= i < |head| ==> u[i] == head[i];
      assert |head| <= o;
      FirstSplit(head, Render(Question, rest, 1), o);
      n := SplitTokens(rest, o - |head|);
      var front := ts[..n + 1];
      assert front[0] == ts[0] && front[1..] == rest[..n] && ts[n + 1..] == rest[n..];
      RenderFirst(Question, front, 1);
      QuestionIgnoresNumber(rest[..n], k, 1);
      n := n + 1;
    }
  }

  lemma RenderNothing(bt: BindType, k: nat)
    ensures Render(bt, [], k) == ""
  {
  }

  lemma FirstSplit(head: string, rest: string, o: nat)
    requires |head| <= o && Boundary(head + rest, o)
    ensures Boundary(rest, o - |head|)
    ensures (head + rest)[..o] == head + rest[..o - |head|] && (head + rest)[o..] == rest[o - |head|..]
  {
    var u, m := head + rest, o - |head|;
    if 0 < m < |rest| {
      assert rest[m - 1] == u[o - 1] && rest[m] == u[o];
    }
  }

  /** The tokens up to and from two such positions. */
  lemma SplitTwice(ts: seq<Token>, a: nat, b: nat) returns (pre: seq<Token>, mid: seq<Token>, post: seq<Token>)
    requires Boundary(Render(Question, ts, 1), a) && Boundary(Render(Question, ts, 1), b) && a < b
    ensures ts == pre + mid + post
    ensures var u := Render(Question, ts, 1);
            && Render(Question, pre, 1) == u[..a]
            && Render(Question, mid, 1) == u[a..b]
            && Render(Question, post, 1) == u[b..]
  {
    hide Render;
    var u := Render(Question, ts, 1);
    var n := SplitTokens(ts, a);
    var tail := u[a..];
    assert Boundary(tail, b - a) by {
      assert a < b < |u| ==> (b > a ==> tail[b - a - 1] == u[b - 1]) && tail[b - a] == u[b];
    }
    var m := SplitTokens(ts[n..], b - a);
    pre, mid, post := ts[..n], ts[n..][..m], ts[n..][m..];
    assert tail[..b - a] == u[a..b] && tail[b - a..] == u[b..];
  }

  /** The tokens before, in and after the group; all parameters are in it. */
  lemma GroupTokens(ts: seq<Token>) returns (pre: seq<Token>, mid: seq<Token>, post: seq<Token>)
    requires HasGroup(Render(Question, ts, 1))
    ensures ts == pre + mid + post
    ensures NamesOf(pre) == [] && NamesOf(mid) == NamesOf(ts) && NamesOf(post) == []
    ensures var u := Render(Question, ts, 1);
            && OpenAt(u) < CloseAt(u)
            && Render(Question, pre, 1) == u[..OpenAt(u)]
            && Render(Question, mid, 1) == u[OpenAt(u)..CloseAt(u) + 1]
            && Render(Question, post, 1) == u[CloseAt(u) + 1..]
  {
    hide Render, NamesOf;
    var u := Render(Question, ts, 1);
    GroupBoundaries(u);
    hide OpenAt, CloseAt, HasGroup, Boundary;
    pre, mid, post := SplitTwice(ts, OpenAt(u), CloseAt(u) + 1);
    Nameless(pre);
    Nameless(post);
    NamesOfConcat(pre + mid, post);
    NamesOfConcat(pre, mid);
    assert [] + NamesOf(mid) + [] == NamesOf(mid);
  }

  lemma GroupBoundaries(u: string)
    requires HasGroup(u)
    ensures OpenAt(u) < CloseAt(u) && Boundary(u, OpenAt(u)) && Boundary(u, CloseAt(u) + 1)
    ensures '?' !in u[..OpenAt(u)] && '?' !in u[CloseAt(u) + 1..]
  {
    GroupHoldsMarks(u);
    assert u[OpenAt(u)] == '(' && u[CloseAt(u)] == ')';
  }

  lemma Nameless(ts: seq<Token>)
    requires '?' !in Render(Question, ts, 1)
    ensures NamesOf(ts) == []
  {
    RenderedMarks(ts, 1);
  }

  /** The rows of a slice binding as one would write them by hand: the group's tokens
      rendered once per row, `p` numbers apart. */
  function Clones(bt: BindType, group: seq<Token>, p: nat, n: nat): string
    requires n > 0
  {
    if n == 1 then Render(bt, group, 1)
    else Clones(bt, group, p, n - 1) + (", " + Render(bt, group, (n - 1) * p + 1))
  }

  lemma {:induction false} NumberedClones(bt: BindType, group: seq<Token>, n: nat)
    requires (bt == Dollar || bt == At) && !HasLiteralMark(group) && n > 0
    ensures NumberedGroups(bt, Render(Question, group, 1), n) == Clones(bt, group, |NamesOf(group)|, n)
  {
    hide Render, Marks, Numbered, NamesOf, HasLiteralMark, NumberedGroups, Clones;
    ClonesStep(bt, Render(Question, group, 1), n);
    ClonesFirst(bt, group, |NamesOf(group)|, n);
    OneClone(bt, group, (n - 1) * |NamesOf(group)| + 1);
    OneClone(bt, group, 1);
    if n > 1 {
      NumberedClones(bt, group, n - 1);
    }
  }

  lemma ClonesFirst(bt: BindType, group: seq<Token>, p: nat, n: nat)
    requires n > 0
    ensures n == 1 ==> Clones(bt, group, p, n) == Render(bt, group, 1)
    ensures n > 1 ==>
              Clones(bt, group, p, n) == Clones(bt, group, p, n - 1) + (", " + Render(bt, group, (n - 1) * p + 1))
  {
  }

  lemma OneClone(bt: BindType, group: seq<Token>, k: nat)
    requires (bt == Dollar || bt == At) && !HasLiteralMark(group)
    ensures Marks(Render(Question, group, 1)) == |NamesOf(group)|
    ensures Numbered(bt, Render(Question, group, 1), k) == Render(bt, group, k)
  {
    RenderedMarks(group, 1);
    RenderThenNumber(bt, group, k);
    QuestionIgnoresNumber(group, k, 1);
  }

  lemma PlainRendering(bt: BindType, ts: seq<Token>)
    requires (bt == Dollar || bt == At) && !HasLiteralMark(ts) && NamesOf(ts) == []
    ensures Render(Question, ts, 1) == Render(bt, ts, 1)
  {
    RenderThenNumber(bt, ts, 1);
    RenderedMarks(ts, 1);
    NumberedPlain(bt, Render(Question, ts, 1), 1);
  }

  /** Without a `?` of the author's, a slice binding to a counting dialect writes the query's
      own tokens in that dialect, those of the group once per row; row `r` is numbered from
      `r * p + 1`, where `p` is the number of names. */
  lemma SliceTextIsRendered<V>(bt: BindType, q: string, rows: seq<Record<V>>)
    returns (pre: seq<Token>, group: seq<Token>, post: seq<Token>)
    requires SliceSpec(bt, q, rows).Bound? && (bt == Dollar || bt == At) && '?' !in q
    ensures rows != [] && Lex(q, Outside) == Tokens(pre + group + post)
    ensures NamesOf(pre) == [] && NamesOf(group) == Compile(q, Question).names && NamesOf(post) == []
    ensures SliceSpec(bt, q, rows).query
         == Render(bt, pre, 1) + Clones(bt, group, |NamesOf(group)|, |rows|) + Render(bt, post, 1)
  {
    hide SliceSpec, OpenAt, CloseAt, HasGroup, Render, Cloned, Clones, NumberedGroups, RowValues, Offers, Lex, Marks,
         Rebound, NamesOf;
    BoundSlice(bt, q, rows);
    SliceTextAligned(bt, q, rows);
    var ts := Lex(q, Outside).ts;
    pre, group, post := GroupTokens(ts);
    NoMarksIn(q, pre, group, post);
    PlainRendering(bt, pre);
    PlainRendering(bt, post);
    NumberedClones(bt, group, |rows|);
  }

  lemma NoMarksIn(q: string, pre: seq<Token>, group: seq<Token>, post: seq<Token>)
    requires Lex(q, Outside) == Tokens(pre + group + post) && '?' !in q
    ensures !HasLiteralMark(pre) && !HasLiteralMark(group) && !HasLiteralMark(post)
  {
    NamedQueryLaws.ReadingLosesNothing(q);
    SourceMarks(pre + group + post);
  }

  /** In a rendering from number `k`, the placeholder of name number `j` stands where that
      name stood, and its number is `k + j`. */
  lemma NamePlace(bt: BindType, ts: seq<Token>, k: nat, i: nat)
    requires i < |ts| && ts[i].Param?
    ensures var j := |NamesOf(ts[..i])|;
            && j < |NamesOf(ts)| && NamesOf(ts)[j] == ts[i].name
            && Render(bt, ts, k)
               == Render(bt, ts[..i], k) + Placeholder(bt, ts[i].name, k + j) + Render(bt, ts[i + 1..], k + j + 1)
  {
    hide Render, NamesOf;
    var j, rest := |NamesOf(ts[..i])|, ts[i..];
    assert ts == ts[..i] + rest && rest[0] == ts[i] && rest[1..] == ts[i + 1..];
    NamesOfConcat(ts[..i], rest);
    NamesFirst(rest);
    RenderConcat(bt, ts[..i], rest, k);
    RenderFirst(bt, rest, k + j);
    Assoc(Render(bt, ts[..i], k), Placeholder(bt, ts[i].name, k + j), Render(bt, ts[i + 1..], k + j + 1));
  }

  lemma NamesFirst(ts: seq<Token>)
    requires ts != [] && ts[0].Param?
    ensures NamesOf(ts) == [ts[0].name] + NamesOf(ts[1..])
  {
  }

  // ---- the named dialect ---------------------------------------------------------------------

  /** The names a rebinding to the named dialect makes up. */
  predicate ArgNames(names: seq<string>, k: nat) {
    forall j :: 0 <= j < |names| ==> names[j] == "arg" + Decimal(k + j)
  }

  /** Where two runs of name bytes end, the texts fall apart. */
  lemma RunsMatch(a: string, x: string, b: string, y: string)
    requires NameBytes(a) && NameBytes(b) && x != "" && y != "" && !NameByte(x[0]) && !NameByte(y[0])
    requires a + x == b + y
    ensures a == b && x == y
  {
    var s := a + x;
    assert forall i :: 0 <= i < |a| ==> s[i] == a[i];
    assert forall i :: 0 <= i < |b| ==> s[i] == b[i];
    assert s[|a|] == x[0] && s[|b|] == y[0];
    assert |a| == |b|;
    assert a == s[..|a|] && b == s[..|b|] && x == s[|a|..] && y == s[|b|..];
  }

  lemma ArgIsName(k: nat)
    ensures NameBytes("arg" + Decimal(k))
  {
  }

  function Renumbered(ts: seq<Token>, k: nat): string {
    Numbered(Named, Render(Question, ts, 1), k)
  }

  lemma RenumberedFirst(ts: seq<Token>, k: nat)
    requires ts != []
    ensures ts[0].Param? || ts[0] == Lit('?') ==>
              Renumbered(ts, k) == ":" + ("arg" + Decimal(k) + Renumbered(ts[1..], k + 1))
    ensures !(ts[0].Param? || ts[0] == Lit('?')) ==>
              Renumbered(ts, k) == Emit(Named, ts[0], k) + Renumbered(ts[1..], k)
  {
    hide Render, Numbered, Marks, Decimal, Emit;
    var head, rest := Emit(Question, ts[0], 1), ts[1..];
    QuestionIgnoresNumber(rest, if ts[0].Param? then 2 else 1, 1);
    RenderFirst(Question, ts, 1);
    NumberedConcat(Named, head, Render(Question, rest, 1), k);
    EmittedAlike(ts[0], k);
    if ts[0].Param? || ts[0] == Lit('?') {
      OneMark(k);
      Assoc(":", "arg" + Decimal(k), Renumbered(rest, k + 1));
    } else {
      NumberedPlain(Named, head, k);
    }
  }

  /** A `?` is what parameters and literal marks become; the rest is the same in both
      dialects. */
  lemma EmittedAlike(t: Token, k: nat)
    ensures t.Param? || t == Lit('?') ==> Emit(Question, t, 1) == "?"
    ensures !(t.Param? || t == Lit('?')) ==>
              var e := Emit(Question, t, 1);
              e == Emit(Named, t, k) && '?' !in e && Marks(e) == 0
  {
  }

  lemma OneMark(k: nat)
    ensures Marks("?") == 1 && Numbered(Named, "?", k) == ":" + ("arg" + Decimal(k))
  {
    assert Numbered(Named, "?", k) == ":arg" + Decimal(k) + Numbered(Named, "?"[1..], k + 1);
  }

  lemma RenderFirst(bt: BindType, ts: seq<Token>, k: nat)
    requires ts != []
    ensures Render(bt, ts, k) == Emit(bt, ts[0], k) + Render(bt, ts[1..], if ts[0].Param? then k + 1 else k)
  {
  }

  /** One parameter: the two ways agree from here on if and only if its name is the one
      rebinding makes up and they agree on the rest. */
  lemma ParamAgrees(ts: seq<Token>, k: nat)
    requires WellFormed(ts) && ts != [] && ts[0].Param?
    ensures Renumbered(ts, k) == Render(Named, ts, k)
       <==> ts[0].name == "arg" + Decimal(k) && Renumbered(ts[1..], k + 1) == Render(Named, ts[1..], k + 1)
  {
    var name, rest, made := ts[0].name, ts[1..], "arg" + Decimal(k);
    var x, y := Renumbered(rest, k + 1), Render(Named, rest, k + 1);
    RenumberedFirst(ts, k);
    RenderFirst(Named, ts, k);
    ArgIsName(k);
    assert Renumbered(ts, k)[1..] == made + x && Render(Named, ts, k)[1..] == name + y;
    if rest == [] {
      assert made + x == made && name + y == name;
    } else {
      RenumberedFirst(rest, k + 1);
      RenderFirst(Named, rest, k + 1);
      var c := rest[0].c;
      if NameByte(c) {
        assert rest[1..] == [];
        assert x == [c] && y == [c];
        if made + x == name + y {
          assert made == (made + x)[..|made + x| - 1] && name == (name + y)[..|name + y| - 1];
        }
      } else if made + x == name + y {
        RunsMatch(made, x, name, y);
      }
    }
  }

  lemma {:induction false} NamedAgrees(ts: seq<Token>, k: nat)
    requires WellFormed(ts)
    ensures Renumbered(ts, k) == Render(Named, ts, k) <==> !HasLiteralMark(ts) && ArgNames(NamesOf(ts), k)
  {
    if ts != [] {
      var rest := ts[1..];
      RenumberedFirst(ts, k);
      RenderFirst(Named, ts, k);
      if ts[0] == Lit('?') {
        assert Renumbered(ts, k)[0] == ':' && Render(Named, ts, k)[0] == '?';
      } else if ts[0].Param? {
        ParamAgrees(ts, k);
        NamedAgrees(rest, k + 1);
        ArgNamesFirst(ts[0].name, NamesOf(rest), k);
      } else {
        NamedAgrees(rest, k);
        var head := Emit(Named, ts[0], k);
        assert Renumbered(ts, k)[|head|..] == Renumbered(rest, k);
        assert Render(Named, ts, k)[|head|..] == Render(Named, rest, k);
        assert NamesOf(ts) == NamesOf(rest);
      }
    }
  }

  lemma ArgNamesFirst(name: string, names: seq<string>, k: nat)
    ensures ArgNames([name] + names, k) <==> name == "arg" + Decimal(k) && ArgNames(names, k + 1)
  {
    var all := [name] + names;
    assert all[0] == name && forall j :: 0 <= j < |names| ==> all[j + 1] == names[j];
    if name == "arg" + Decimal(k) && ArgNames(names, k + 1) {
      forall j | 0 <= j < |all|
        ensures all[j] == "arg" + Decimal(k + j)
      {
        if j > 0 {
          assert all[j] == names[j - 1];
        }
      }
    }
    if ArgNames(all, k) {
      forall j | 0 <= j < |names|
        ensures names[j] == "arg" + Decimal(k + 1 + j)
      {
        assert all[j + 1] == names[j];
      }
    }
  }

  /** For the named dialect one row bound as a slice gives what the struct binding gives if
      and only if the query has no `?` and its names are `arg1`, `arg2`, and so on. */
  lemma OneRowNamed<V>(q: string, rec: Record<V>)
    requires SliceSpec(Named, q, [rec]).Bound?
    ensures SliceSpec(Named, q, [rec]) == StructSpec(Named, q, rec)
       <==> '?' !in q && ArgNames(Compile(q, Named).names, 1)
  {
    var u, names, ts := Compile(q, Question).query, Compile(q, Question).names, Lex(q, Outside).ts;
    BoundSlice(Named, q, [rec]);
    NamesIgnoreDialect(q, Question, Named);
    assert Offers([rec][0], names);
    OneRowValues(rec, names);
    ClonedOnce(u);
    NamedQueryLaws.ReadingLosesNothing(q);
    SourceMarks(ts);
    NamedAgrees(ts, 1);
  }

  /** The query `(:a)`: one row bound as a slice gives `(:arg1)`, as a struct `(:a)`. */
  lemma NamedRowDiffers(rec: Record<int>)
    requires Offers(rec, ["a"])
    ensures SliceSpec(Named, "(:a)", [rec]).Bound? && SliceSpec(Named, "(:a)", [rec]) != StructSpec(Named, "(:a)", rec)
  {
    hide Compile, Render, OpenAt, CloseAt, Rebound, Cloned;
    OneNameCompiles(Question);
    OneNameCompiles(Named);
    OneNameGroup();
    assert Offers([rec][0], ["a"]);
    OneRowNamed("(:a)", rec);
    assert |"arg" + Decimal(1)| > |"a"|;
  }

  lemma OneNameCompiles(bt: BindType)
    ensures Compile("(:a)", bt) == Compiled("(" + (Placeholder(bt, "a", 1) + ")"), ["a"])
    ensures Placeholder(Question, "a", 1) == "?"
  {
    hide Compile;
    var ps := [NamedQueryLaws.Text("("), NamedQueryLaws.Name("a"), NamedQueryLaws.Text(")")];
    assert ps[1..] == [NamedQueryLaws.Name("a"), NamedQueryLaws.Text(")")];
    assert ps[1..][1..] == [NamedQueryLaws.Text(")")] && ps[1..][1..][1..] == [];
    assert "("[1..] == "" && ")"[1..] == "";
    assert NamedQueryLaws.DoubleColons("(") == "(" && NamedQueryLaws.DoubleColons(")") == ")";
    assert NamedQueryLaws.TemplateSource(ps[1..][1..]) == ")" + "" == ")";
    assert NamedQueryLaws.TemplateSource(ps[1..]) == ":" + "a" + ")" == ":a)";
    assert NamedQueryLaws.TemplateSource(ps) == "(" + ":a)" == "(:a)";
    assert NamedQueryLaws.Meant(bt, ps[1..][1..], 2) == ")" + "" == ")";
    NamedQueryLaws.TemplateRoundTrip(ps, bt);
  }

  lemma OneNameGroup()
    ensures "(" + ("?" + ")") == "(?)" && HasGroup("(?)")
  {
    assert OpenAt("(?)") == 0 && CloseAt("(?)") == 2;
  }
}
