/** What the compiler does at a colon, byte by byte: which bytes make up a name, what ends
    it, and what is written for it in each dialect. Together with plain text, which is kept,
    this settles every query from left to right. */
module NameReading {
  import opened Text
  import opened NamedQuery
  import opened NamedQueryLaws
  import Rebind

  /** Letters of both cases, digits, underscore and dot. */
  predicate Wordy(s: string) {
    forall i :: 0 <= i < |s| ==>
      'a' <= s[i] <= 'z' || 'A' <= s[i] <= 'Z' || '0' <= s[i] <= '9' || s[i] == '_' || s[i] == '.'
  }

  /** The compilation `rest` with a name or not, and more text, in front of it. */
  function Before(text: string, k: nat, names: seq<string>, consumed: nat, rest: Lexed, bt: BindType): CompileResult {
    match rest
    case Tokens(ts) => Compiled(text + Render(bt, ts, k), names + NamesOf(ts))
    case Clash(at, ts) => SyntaxError(consumed + at, names + NamesOf(ts))
  }

  // ---- reading ----------------------------------------------------------------------------

  lemma {:induction false} PlainIsRead(a: string, s: string)
    requires ':' !in a
    ensures Lex(a + s, Outside) == Prepend(|a|, TextTokens(a), Lex(s, Outside))
  {
    if a == "" {
      assert a + s == s;
      PrependNothing(Lex(s, Outside));
    } else {
      assert (a + s)[1..] == a[1..] + s && (a + s)[0] == a[0];
      PlainIsRead(a[1..], s);
      PrependTwice(1, [Lit(a[0])], |a| - 1, TextTokens(a[1..]), Lex(s, Outside));
    }
  }

  lemma PrependNothing(l: Lexed)
    ensures Prepend(0, [], l) == l
  {
    assert [] + l.ts == l.ts;
  }

  lemma {:induction false} WordIsRead(n: string, rest: string, pre: string)
    requires Wordy(n) && rest != ""
    ensures Lex(n + rest, InName(pre)) == Prepend(|n|, [], Lex(rest, InName(pre + n)))
    decreases |n|
  {
    if n == "" {
      assert n + rest == rest && pre + n == pre;
      PrependNothing(Lex(rest, InName(pre)));
    } else {
      assert (n + rest)[1..] == n[1..] + rest && (n + rest)[0] == n[0];
      assert (pre + [n[0]]) + n[1..] == pre + n;
      WordIsRead(n[1..], rest, pre + [n[0]]);
      PrependTwice(1, [], |n| - 1, [], Lex(rest, InName(pre + n)));
    }
  }

  /** Plain text and then tokens, compiled. */
  lemma CompiledAfter(a: string, s: string, n: nat, ts: seq<Token>, l: Lexed, bt: BindType)
    requires ':' !in a && Lex(s, Outside) == Prepend(n, ts, l)
    ensures Compile(a + s, bt) == Before(a + Render(bt, ts, 1), 1 + |NamesOf(ts)|, NamesOf(ts), |a| + n, l, bt)
  {
    hide Render, NamesOf, Lex, Compile, Before;
    var front := TextTokens(a) + ts;
    PlainIsRead(a, s);
    PrependTwice(|a|, TextTokens(a), n, ts, l);
    TextPrints(a, bt, 1);
    RenderConcat(bt, TextTokens(a), ts, 1);
    NamesOfConcat(TextTokens(a), ts);
    assert [] + NamesOf(ts) == NamesOf(ts);
    CompiledFront(a + s, |a| + n, front, l, bt);
  }

  lemma CompiledFront(q: string, n: nat, front: seq<Token>, l: Lexed, bt: BindType)
    requires Lex(q, Outside) == Prepend(n, front, l)
    ensures Compile(q, bt) == Before(Render(bt, front, 1), 1 + |NamesOf(front)|, NamesOf(front), n, l, bt)
  {
    hide Render, NamesOf, Lex;
    RenderConcat(bt, front, l.ts, 1);
    NamesOfConcat(front, l.ts);
  }

  // ---- a name -------------------------------------------------------------------------------

  /** A colon, a word, and any byte that is neither part of a word nor a colon: the name is
      that word exactly, and reading goes on outside at the byte that ended it. */
  lemma NameIsRead(a: string, n: string, t: string, bt: BindType)
    requires ':' !in a && n != "" && Wordy(n) && t != "" && !Wordy(t[..1]) && t[0] != ':'
    ensures Compile(a + (":" + (n + t)), bt)
         == Before(a + Placeholder(bt, n, 1), 2, [n], |a| + 1 + |n|, Lex(t, Outside), bt)
  {
    hide Lex, Compile, Render, Before, NamesOf;
    WordTokens(n, t);
    CompiledAfter(a, ":" + (n + t), 1 + |n|, [Param(n)], Lex(t, Outside), bt);
    OneParam(bt, n);
  }

  lemma WordTokens(n: string, t: string)
    requires Wordy(n) && t != "" && !Wordy(t[..1]) && t[0] != ':' && !(t[0] == '=' && n == "")
    ensures Lex(":" + (n + t), Outside) == Prepend(1 + |n|, [Param(n)], Lex(t, Outside))
  {
    var tail := Lex(t[1..], Outside);
    NotAWord(t);
    NameEnds(n, t);
    assert Lex(t, Outside) == Prepend(1, [Lit(t[0])], tail);
    hide Lex;
    LexColon(n + t);
    WordIsRead(n, t, "");
    assert "" + n == n;
    PrependTwice(1, [], |n|, [], Lex(t, InName(n)));
    PrependTwice(1 + |n|, [], 1, [Param(n), Lit(t[0])], tail);
    PrependTwice(1 + |n|, [Param(n)], 1, [Lit(t[0])], tail);
    assert [Param(n)] + [Lit(t[0])] == [] + [Param(n), Lit(t[0])];
  }

  lemma NotAWord(t: string)
    requires t != "" && !Wordy(t[..1])
    ensures !NameByte(t[0])
  {
  }

  lemma OneParam(bt: BindType, n: string)
    ensures Render(bt, [Param(n)], 1) == Placeholder(bt, n, 1) && NamesOf([Param(n)]) == [n]
  {
    assert Placeholder(bt, n, 1) + "" == Placeholder(bt, n, 1);
  }

  /** A word that ends the query is the name if its last byte is a letter or digit. If that
      is an underscore or a dot, it is left out of the name and stays as text. */
  lemma LastNameIsRead(a: string, n: string, bt: BindType)
    requires ':' !in a && n != "" && Wordy(n)
    ensures var c := n[|n| - 1];
            Compile(a + (":" + n), bt)
            == if c == '_' || c == '.' then Compiled(a + Placeholder(bt, n[..|n| - 1], 1) + [c], [n[..|n| - 1]])
               else Compiled(a + Placeholder(bt, n, 1), [n])
  {
    hide Lex, Compile, Render, Placeholder, NamesOf;
    var m, c := n[..|n| - 1], n[|n| - 1];
    var ts := if c == '_' || c == '.' then [Param(m), Lit(c)] else [Param(n)];
    LastWordTokens(n);
    CompiledAfter(a, ":" + n, |n| + 1, ts, Tokens([]), bt);
    OneParam(bt, n);
    ParamAndByte(bt, m, c);
    NothingMore(a + Render(bt, ts, 1), 1 + |NamesOf(ts)|, NamesOf(ts), |a| + |n| + 1, bt);
    Assoc(a, Placeholder(bt, m, 1), [c]);
  }

  lemma NothingMore(text: string, k: nat, names: seq<string>, n: nat, bt: BindType)
    ensures Before(text, k, names, n, Tokens([]), bt) == Compiled(text, names)
  {
    assert text + "" == text && names + [] == names;
  }

  lemma ParamAndByte(bt: BindType, m: string, c: char)
    ensures Render(bt, [Param(m), Lit(c)], 1) == Placeholder(bt, m, 1) + [c]
    ensures NamesOf([Param(m), Lit(c)]) == [m]
  {
    hide Placeholder;
    var ts := [Param(m), Lit(c)];
    assert ts[1..] == [Lit(c)] && [Lit(c)][1..] == [];
    assert Render(bt, [Lit(c)], 2) == [c] + "" == [c];
    assert NamesOf([Lit(c)]) == [] + [] == [];
    assert [m] + [] == [m];
  }

  lemma LastWordTokens(n: string)
    requires n != "" && Wordy(n)
    ensures var m, c := n[..|n| - 1], n[|n| - 1];
            Lex(":" + n, Outside)
            == Prepend(|n| + 1, if c == '_' || c == '.' then [Param(m), Lit(c)] else [Param(n)], Tokens([]))
  {
    hide Lex;
    var m, c := n[..|n| - 1], n[|n| - 1];
    assert n == m + [c] && "" + m == m;
    LexColon(n);
    WordIsRead(m, [c], "");
    PrependTwice(1, [], |m|, [], Lex([c], InName(m)));
    assert Wordy([c]);
    LastByte(m, c);
  }

  /** The query `:a_`, read as the name `a` and an underscore. */
  lemma LastUnderscoreIsCut()
    ensures Compile(":a_", Question) == Compiled("?_", ["a"])
  {
    LastNameIsRead("", "a_", Question);
    assert "" + (":" + "a_") == ":a_" && "a_"[..1] == "a";
    assert "" + "?" + "_" == "?_";
  }

  lemma LastByte(m: string, c: char)
    requires Wordy([c])
    ensures Lex([c], InName(m))
         == Tokens(if c == '_' || c == '.' then [Param(m), Lit(c)] else [Param(m + [c])])
  {
    assert [c][0] == c && [c][1..] == "";
  }

  /** A colon inside a name is an error at that colon. */
  lemma NameCutShort(a: string, n: string, t: string, bt: BindType)
    requires ':' !in a && n != "" && Wordy(n)
    ensures Compile(a + (":" + (n + (":" + t))), bt) == SyntaxError(|a| + 1 + |n|, [])
  {
    LexColon(n + (":" + t));
    WordIsRead(n, ":" + t, "");
    assert "" + n == n;
    PrependTwice(1, [], |n|, [], Lex(":" + t, InName(n)));
    CompiledAfter(a, ":" + (n + (":" + t)), 1 + |n|, [], Clash(0, []), bt);
  }

  // ---- a colon that starts no name ----------------------------------------------------------

  /** Right after a colon, a second one makes both one, and an equals sign keeps both. */
  lemma ColonIsKept(a: string, t: string, bt: BindType)
    requires ':' !in a
    ensures Compile(a + ("::" + t), bt) == Before(a + ":", 1, [], |a| + 2, Lex(t, Outside), bt)
    ensures Compile(a + (":=" + t), bt) == Before(a + ":=", 1, [], |a| + 2, Lex(t, Outside), bt)
  {
    hide Lex, Compile, Render, Before, NamesOf;
    SecondByte(':', Escape, t);
    SecondByte('=', Assign, t);
    CompiledAfter(a, "::" + t, 2, [Escape], Lex(t, Outside), bt);
    CompiledAfter(a, ":=" + t, 2, [Assign], Lex(t, Outside), bt);
    ColonRendered(bt);
  }

  lemma SecondByte(b: char, token: Token, t: string)
    requires (b == ':' && token == Escape) || (b == '=' && token == Assign)
    ensures Lex([':', b] + t, Outside) == Prepend(2, [token], Lex(t, Outside))
  {
    assert [':', b] + t == ":" + ([b] + t) && ([b] + t)[1..] == t;
    LexColon([b] + t);
    PrependTwice(1, [], 1, [token], Lex(t, Outside));
    assert [] + [token] == [token];
  }

  lemma ColonRendered(bt: BindType)
    ensures Render(bt, [Escape], 1) == ":" && NamesOf([Escape]) == []
    ensures Render(bt, [Assign], 1) == ":=" && NamesOf([Assign]) == []
  {
    assert ":" + "" == ":" && ":=" + "" == ":=";
  }

  /** Before any other byte that is not part of a word the name is empty, and a placeholder
      is written all the same. */
  lemma EmptyNameIsRead(a: string, t: string, bt: BindType)
    requires ':' !in a && t != "" && !Wordy(t[..1]) && t[0] != ':' && t[0] != '='
    ensures Compile(a + (":" + t), bt)
         == Before(a + Placeholder(bt, "", 1), 2, [""], |a| + 1, Lex(t, Outside), bt)
  {
    hide Lex, Compile, Render, Before, NamesOf;
    assert "" + t == t;
    WordTokens("", t);
    CompiledAfter(a, ":" + t, 1, [Param("")], Lex(t, Outside), bt);
    OneParam(bt, "");
  }

  /** A text without colons is kept, and a colon after it at the end is dropped. */
  lemma PlainIsKept(a: string, bt: BindType)
    requires ':' !in a
    ensures Compile(a, bt) == Compiled(a, []) && Compile(a + ":", bt) == Compiled(a, [])
  {
    LexColon("");
    assert a + "" == a && ":" + "" == ":";
    assert [] + [Dangling] == [Dangling];
    PrependNothing(Tokens([]));
    CompiledAfter(a, "", 0, [], Tokens([]), bt);
    CompiledAfter(a, ":", 1, [Dangling], Tokens([]), bt);
    assert Render(bt, [Dangling], 1) == "" + "" == "";
    assert a + "" + "" == a;
  }

  // ---- what is written for a name -------------------------------------------------------------

  /** The styles of the drivers: `?`, `$1`, `@p1` and `:name`; rebinding writes `:arg1` where
      a name is asked for. For a style nobody knows nothing is written for a name, and only
      its number when rebinding. */
  lemma Styles(n: string, k: nat, code: int)
    ensures Placeholder(Question, n, k) == Placeholder(Unknown, n, k) == "?"
    ensures Placeholder(Dollar, n, k) == "$" + Decimal(k) && Placeholder(At, n, k) == "@p" + Decimal(k)
    ensures Placeholder(Named, n, k) == ":" + n
    ensures Placeholder(Other(code), n, k) == "" && Rebind.Rebound(Other(code), "?") == "1"
    ensures Rebind.Rebound(Dollar, "?") == "$1" && Rebind.Rebound(At, "?") == "@p1"
    ensures Rebind.Rebound(Named, "?") == ":arg1"
    ensures Rebind.Rebound(Question, "?") == Rebind.Rebound(Unknown, "?") == "?"
  {
    assert "?"[1..] == "" && Decimal(1) == "1";
    Rebind.NumberedFirst(Other(code), "?", 1);
    assert "" + "1" + "" == "1";
  }

  /** In each dialect, a query that is one name. */
  lemma OneName(n: string)
    requires n != "" && Wordy(n) && n[|n| - 1] != '_' && n[|n| - 1] != '.'
    ensures Compile(":" + n, Question) == Compile(":" + n, Unknown) == Compiled("?", [n])
    ensures Compile(":" + n, Dollar) == Compiled("$1", [n]) && Compile(":" + n, At) == Compiled("@p1", [n])
    ensures Compile(":" + n, Named) == Compiled(":" + n, [n])
  {
    assert "" + (":" + n) == ":" + n && Decimal(1) == "1";
    LastNameIsRead("", n, Question);
    LastNameIsRead("", n, Unknown);
    LastNameIsRead("", n, Dollar);
    LastNameIsRead("", n, At);
    LastNameIsRead("", n, Named);
    hide Compile;
    assert "" + "?" == "?" && "" + "$1" == "$1" && "" + "@p1" == "@p1";
  }
}
