/** The compiler and the rebinder agree: compiling to `?` and rebinding is the same as
    compiling to the target dialect, exactly on queries without a `?` of their own. */
module Dialects {
  import opened Text
  import opened NamedQuery
  import NamedQueryLaws
  import opened Rebind

  /** A `?` the author wrote, as opposed to one that stands for a parameter. */
  predicate HasLiteralMark(ts: seq<Token>) {
    Lit('?') in ts
  }

  function LiteralMarks(ts: seq<Token>): (n: nat)
    ensures n == 0 <==> !HasLiteralMark(ts)
  {
    if ts == [] then 0 else (if ts[0] == Lit('?') then 1 else 0) + LiteralMarks(ts[1..])
  }

  /** The marks of a `?`-compiled query: its parameters and its own. */
  lemma {:induction false} RenderedMarks(ts: seq<Token>, k: nat)
    ensures Marks(Render(Question, ts, k)) == |NamesOf(ts)| + LiteralMarks(ts)
  {
    if ts == [] {
    } else {
      var k' := if ts[0].Param? then k + 1 else k;
      RenderedMarks(ts[1..], k');
      MarksConcat(Emit(Question, ts[0], k), Render(Question, ts[1..], k'));
      assert Marks(":=") == 0 && Marks(":") == 0 && Marks("?") == 1;
    }
  }

  /** Only the two counting dialects keep a literal mark that rebinding would replace. */
  lemma {:induction false} RenderedLiteralMarks(bt: BindType, ts: seq<Token>, k: nat)
    requires bt.Dollar? || bt.At?
    ensures HasLiteralMark(ts) ==> '?' in Render(bt, ts, k)
  {
    if ts == [] {
    } else {
      RenderedLiteralMarks(bt, ts[1..], if ts[0].Param? then k + 1 else k);
    }
  }

  lemma {:induction false} RenderThenNumber(bt: BindType, ts: seq<Token>, k: nat)
    requires bt.Dollar? || bt.At?
    requires !HasLiteralMark(ts)
    ensures Numbered(bt, Render(Question, ts, k), k) == Render(bt, ts, k)
  {
    if ts == [] {
    } else {
      var head := Emit(Question, ts[0], k);
      var k' := if ts[0].Param? then k + 1 else k;
      RenderThenNumber(bt, ts[1..], k');
      NumberedConcat(bt, head, Render(Question, ts[1..], k'), k);
      if ts[0].Param? {
        assert Numbered(bt, "?", k) == Prefix(bt) + Decimal(k) + "";
        assert Marks("?") == 1;
      } else {
        assert ts[0].Lit? ==> ts[0].c != '?';
        NumberedPlain(bt, head, k);
        assert Marks(head) == 0;
      }
    }
  }

  /** The query's own `?` bytes are exactly its literal-mark tokens. */
  lemma {:induction false} SourceMarks(ts: seq<Token>)
    requires WellFormed(ts)
    ensures '?' in Source(ts) <==> HasLiteralMark(ts)
  {
    if ts == [] {
    } else {
      var t, rest := ts[0], ts[1..];
      if rest != [] || t.Lit? || t.Escape? || t.Assign? {
        SourceMarks(rest);
      }
      assert '?' in TokenSource(t) <==> t == Lit('?');
    }
  }

  /** The tokens that are shorter in the output than in the query. */
  predicate Shrinks(ts: seq<Token>) {
    Escape in ts || Dangling in ts
  }

  lemma {:induction false} NamedRendering(ts: seq<Token>, k: nat)
    ensures Shrinks(ts) ==> |Render(Named, ts, k)| < |Source(ts)|
    ensures !Shrinks(ts) ==> Render(Named, ts, k) == Source(ts)
    ensures |Render(Named, ts, k)| <= |Source(ts)|
  {
    if ts != [] {
      NamedRendering(ts[1..], if ts[0].Param? then k + 1 else k);
    }
  }

  /** The named dialect leaves a query as it is if and only if it has no doubled colon
      and no lone colon at its end. */
  lemma NamedKeepsQuery(q: string)
    requires Compile(q, Named).Compiled?
    ensures Compile(q, Named).query == q <==> !Shrinks(Lex(q, Outside).ts)
  {
    NamedQueryLaws.ReadingLosesNothing(q);
    NamedRendering(Lex(q, Outside).ts, 1);
  }

  /** The dialect decides neither acceptance nor the error nor the names. */
  lemma NamesIgnoreDialect(q: string, b1: BindType, b2: BindType)
    ensures Compile(q, b1).Compiled? <==> Compile(q, b2).Compiled?
    ensures Compile(q, b1).names == Compile(q, b2).names
    ensures Compile(q, b1).SyntaxError? ==> Compile(q, b1) == Compile(q, b2)
  {
  }

  /** Compiling to `?` and rebinding to a counting dialect equals compiling to that
      dialect if and only if the query has no `?` of its own. */
  lemma DialectsCommute(q: string, bt: BindType)
    requires Compile(q, bt).Compiled?
    requires bt.Dollar? || bt.At?
    ensures Rebound(bt, Compile(q, Question).query) == Compile(q, bt).query <==> '?' !in q
  {
    NamedQueryLaws.ReadingLosesNothing(q);
    var ts := Lex(q, Outside).ts;
    SourceMarks(ts);
    if HasLiteralMark(ts) {
      RenderedLiteralMarks(bt, ts, 1);
      NoMarksLeft(bt, Render(Question, ts, 1), 1);
    } else {
      RenderThenNumber(bt, ts, 1);
    }
  }

  /** The smallest query for which the two ways differ: a lone `?`. */
  lemma LiteralMarkDiffers()
    ensures Compile("?", Dollar) == Compiled("?", [])
    ensures Rebound(Dollar, Compile("?", Question).query) != Compile("?", Dollar).query
  {
    NamedQueryLaws.DoublingUndone("?", Dollar);
    assert NamedQueryLaws.DoubleColons("?") == "?";
    DialectsCommute("?", Dollar);
  }
}
