/** What the compiler's two stages mean. Reading loses nothing and is undone by
    printing; printing a template with doubled colons is undone by compiling. */
module NamedQueryLaws {
  import opened Text
  import opened NamedQuery

  // ---- reading is a bijection between accepted queries and well-formed tokens ----

  /** The text a mode has consumed without having produced its token yet. */
  function Held(mode: Mode): string {
    if mode.InName? then ":" + mode.name else ""
  }

  /** `text` is the source of `ts` followed by a colon and a non-empty name. */
  ghost predicate CutShort(text: string, ts: seq<Token>) {
    exists name :: name != "" && NameBytes(name) && text == Source(ts) + (":" + name)
  }

  /** The reading `l` of `s`, started in `mode`, accounts for every byte up to the
      end of `s` or up to the colon where it gave up. */
  ghost predicate KeepsText(s: string, mode: Mode, l: Lexed) {
    match l
    case Tokens(ts) => Source(ts) == Held(mode) + s
    case Clash(at, ts) => at < |s| && s[at] == ':' && CutShort(Held(mode) + s[..at], ts)
  }

  lemma {:induction false} SourceConcat(s: seq<Token>, t: seq<Token>)
    ensures Source(s + t) == Source(s) + Source(t)
  {
    hide TokenSource;
    if s == [] {
      assert s + t == t;
    } else {
      SourceConcat(s[1..], t);
      assert (s + t)[1..] == s[1..] + t;
      Assoc(TokenSource(s[0]), Source(s[1..]), Source(t));
    }
  }

  /** `a + b` and `c + d` are the same text, and `d + text` was cut short. */
  lemma PrependCutShort(a: string, b: string, out: seq<Token>, d: string, text: string, ts: seq<Token>)
    requires a + b == Source(out) + d && CutShort(d + text, ts)
    ensures CutShort(a + (b + text), out + ts)
  {
    var name :| name != "" && NameBytes(name) && d + text == Source(ts) + (":" + name);
    SourceConcat(out, ts);
    Assoc(a, b, text);
    Assoc(Source(out), d, text);
    Assoc(Source(out), Source(ts), ":" + name);
  }

  lemma FirstAndMore(s: string, n: nat)
    requires n < |s|
    ensures s[..1 + n] == [s[0]] + s[1..][..n]
  {
  }

  /** If the rest of the query is accounted for, so is the rest with `out` in front. */
  lemma PrependKeepsText(s: string, mode: Mode, out: seq<Token>, exit: Mode, l: Lexed)
    requires s != "" && Held(mode) + [s[0]] == Source(out) + Held(exit)
    requires KeepsText(s[1..], exit, l)
    ensures KeepsText(s, mode, Prepend(1, out, l))
  {
    match l
    case Tokens(ts) =>
      SourceConcat(out, ts);
      assert s == [s[0]] + s[1..];
      Assoc(Held(mode), [s[0]], s[1..]);
      Assoc(Source(out), Held(exit), s[1..]);
    case Clash(at, ts) =>
      PrependCutShort(Held(mode), [s[0]], out, Held(exit), s[1..][..at], ts);
      FirstAndMore(s, at);
  }

  lemma LexByteKeepsText(s: string, mode: Mode, out: seq<Token>, exit: Mode)
    requires s != "" && KeepsText(s[1..], exit, Lex(s[1..], exit))
    requires Lex(s, mode) == Prepend(1, out, Lex(s[1..], exit))
    requires Held(mode) + [s[0]] == Source(out) + Held(exit)
    ensures KeepsText(s, mode, Lex(s, mode))
  {
    PrependKeepsText(s, mode, out, exit, Lex(s[1..], exit));
  }

  lemma SourceOne(t: Token)
    ensures Source([t]) == TokenSource(t)
  {
    assert Source([t]) == TokenSource(t) + "";
  }

  lemma {:induction false} LexKeepsText(s: string, mode: Mode)
    requires mode.InName? ==> NameBytes(mode.name) && (s == "" ==> mode.name == "")
    ensures KeepsText(s, mode, Lex(s, mode))
    decreases |s|
  {
    if s == "" {
      SourceOne(Dangling);
    } else {
      var b, rest := s[0], s[1..];
      match mode
      case Outside =>
        SourceOne(Lit(b));
        LexKeepsText(rest, if b == ':' then InName("") else Outside);
        LexByteKeepsText(s, mode, if b == ':' then [] else [Lit(b)], if b == ':' then InName("") else Outside);
      case InName(name) =>
        if b == ':' && name != "" {
          assert Held(mode) + s[..0] == Source([]) + (":" + name);
        } else if b == ':' || (b == '=' && name == "") {
          var t := if b == ':' then Escape else Assign;
          SourceOne(t);
          LexKeepsText(rest, Outside);
          LexByteKeepsText(s, mode, [t], Outside);
        } else if NameByte(b) && rest != "" {
          LexKeepsText(rest, InName(name + [b]));
          Assoc(":", name, [b]);
          LexByteKeepsText(s, mode, [], InName(name + [b]));
        } else if Alnum(b) {
          SourceOne(Param(name + [b]));
          Assoc(":", name, [b]);
          assert s == [b];
        } else {
          SourceConcat([Param(name)], [Lit(b)]);
          SourceOne(Param(name));
          SourceOne(Lit(b));
          assert [Param(name)] + [Lit(b)] == [Param(name), Lit(b)];
          LexKeepsText(rest, Outside);
          LexByteKeepsText(s, mode, [Param(name), Lit(b)], Outside);
        }
    }
  }

  // ---- the tokens read are well formed ------------------------------------------

  /** Inside a name, the first token read is the one that finishes the name. */
  ghost predicate Finishes(ts: seq<Token>, mode: Mode) {
    mode.InName? ==>
      && ts != []
      && match ts[0]
         case Lit(_) => false
         case Param(n) => mode.name <= n
         case _ => mode.name == ""
  }

  lemma {:induction false} LexWellFormed(s: string, mode: Mode)
    requires mode.InName? ==> NameBytes(mode.name) && (s == "" ==> mode.name == "")
    ensures Lex(s, mode).Tokens? ==> WellFormed(Lex(s, mode).ts) && Finishes(Lex(s, mode).ts, mode)
    ensures s == "" && mode == Outside ==> Lex(s, mode) == Tokens([])
    decreases |s|
  {
    if s == "" || Lex(s, mode).Clash? {
    } else {
      var b, rest, ts := s[0], s[1..], Lex(s, mode).ts;
      match mode
      case Outside =>
        LexWellFormed(rest, if b == ':' then InName("") else Outside);
        if b == ':' {
          assert ts == Lex(rest, InName("")).ts;
        } else {
          assert ts[1..] == Lex(rest, Outside).ts;
        }
      case InName(name) =>
        if b == ':' || (b == '=' && name == "") {
          LexWellFormed(rest, Outside);
          assert ts[1..] == Lex(rest, Outside).ts;
        } else if NameByte(b) && rest != "" {
          LexWellFormed(rest, InName(name + [b]));
          assert ts == Lex(rest, InName(name + [b])).ts;
          assert name <= name + [b];
        } else if Alnum(b) {
        } else {
          LexWellFormed(rest, Outside);
          assert ts[1..][1..] == Lex(rest, Outside).ts;
        }
    }
  }

  // ---- and every well-formed token list is read back ------------------------------

  /** A run of name bytes that something follows is collected into the name. */
  lemma {:induction false} LexName(n: string, rest: string, pre: string)
    requires NameBytes(n) && rest != ""
    ensures Lex(n + rest, InName(pre)).Tokens? <==> Lex(rest, InName(pre + n)).Tokens?
    ensures Lex(rest, InName(pre + n)).Tokens? ==>
              Lex(n + rest, InName(pre)) == Lex(rest, InName(pre + n))
    decreases |n|
  {
    if n == "" {
      assert n + rest == rest && pre + n == pre;
    } else {
      assert (n + rest)[1..] == n[1..] + rest;
      assert (pre + [n[0]]) + n[1..] == pre + n;
      LexName(n[1..], rest, pre + [n[0]]);
    }
  }

  lemma LexColon(s: string)
    ensures Lex(":" + s, Outside) == Prepend(1, [], Lex(s, InName("")))
  {
    assert (":" + s)[1..] == s;
  }

  lemma {:induction false} PrintedIsRead(ts: seq<Token>)
    requires WellFormed(ts)
    ensures Lex(Source(ts), Outside) == Tokens(ts)
  {
    if ts == [] {
    } else {
      var t, rest := ts[0], ts[1..];
      assert ts == [t] + rest;
      match t
      case Lit(c) =>
        PrintedIsRead(rest);
        assert ([c] + Source(rest))[1..] == Source(rest);
      case Escape =>
        PrintedIsRead(rest);
        TwoByteToken(':', Escape, rest);
      case Assign =>
        PrintedIsRead(rest);
        TwoByteToken('=', Assign, rest);
      case Dangling =>
        SourceOne(Dangling);
        LexColon("");
        assert ":" + "" == ":";
      case Param(name) =>
        if rest == [] {
          LastParam(name);
        } else {
          PrintedIsRead(rest);
          InnerParam(name, rest);
        }
    }
  }

  lemma TwoByteToken(b: char, t: Token, rest: seq<Token>)
    requires (b == ':' && t == Escape) || (b == '=' && t == Assign)
    requires Lex(Source(rest), Outside) == Tokens(rest)
    ensures Lex(TokenSource(t) + Source(rest), Outside) == Tokens([t] + rest)
  {
    assert TokenSource(t) + Source(rest) == ":" + ([b] + Source(rest));
    LexColon([b] + Source(rest));
    assert ([b] + Source(rest))[1..] == Source(rest);
  }

  lemma LastParam(name: string)
    requires NameBytes(name) && name != "" && Alnum(name[|name| - 1])
    ensures Lex(Source([Param(name)]), Outside) == Tokens([Param(name)])
  {
    var n, c := name[..|name| - 1], name[|name| - 1];
    assert name == n + [c] && "" + n == n;
    SourceOne(Param(name));
    LexColon(name);
    LexName(n, [c], "");
  }

  /** The byte that ends a name. */
  lemma NameEnds(name: string, s: string)
    requires s != "" && s[0] != ':' && !(s[0] == '=' && name == "")
    requires NameByte(s[0]) ==> !Alnum(s[0]) && |s| == 1
    ensures Lex(s, InName(name)) == Prepend(1, [Param(name), Lit(s[0])], Lex(s[1..], Outside))
  {
  }

  lemma InnerParam(name: string, rest: seq<Token>)
    requires WellFormed([Param(name)] + rest) && rest != []
    requires Lex(Source(rest), Outside) == Tokens(rest)
    ensures Lex(TokenSource(Param(name)) + Source(rest), Outside) == Tokens([Param(name)] + rest)
  {
    assert ([Param(name)] + rest)[1..] == rest;
    var c, tail, s := rest[0].c, rest[1..], Source(rest);
    assert s == [c] + Source(tail) && s[1..] == Source(tail);
    assert NameByte(c) ==> tail == [] && Source(tail) == "";
    assert c != ':' && NameBytes(name);
    assert Lex(s, Outside) == Prepend(1, [Lit(c)], Lex(Source(tail), Outside));
    hide WellFormed, Source, Lex;
    Assoc(":", name, s);
    LexColon(name + s);
    LexName(name, s, "");
    assert "" + name == name;
    NameEnds(name, s);
    PrependOne(Param(name), Lit(c), Lex(Source(tail), Outside));
  }

  lemma PrependOne(p: Token, t: Token, l: Lexed)
    ensures Prepend(1, [t], l).Tokens? ==> Prepend(1, [], Prepend(1, [p, t], l)) == Tokens([p] + Prepend(1, [t], l).ts)
  {
  }

  // ---- the main results -------------------------------------------------------------

  /** Reading loses nothing: an accepted query is the source of its tokens. A refused
      one is refused at a colon that follows a non-empty name. */
  lemma ReadingLosesNothing(q: string)
    ensures var l := Lex(q, Outside);
            && (l.Tokens? ==> WellFormed(l.ts) && Source(l.ts) == q)
            && (l.Clash? ==> l.at < |q| && q[l.at] == ':' && CutShort(q[..l.at], l.ts))
  {
    LexKeepsText(q, Outside);
    LexWellFormed(q, Outside);
    assert Held(Outside) + q == q;
    if Lex(q, Outside).Clash? {
      assert Held(Outside) + q[..Lex(q, Outside).at] == q[..Lex(q, Outside).at];
    }
  }

  /** The compiler accepts a query exactly when it is the source of some well-formed
      token list, and then of exactly one, the same for every dialect. */
  lemma AcceptedExactly(q: string, bt: BindType)
    ensures Compile(q, bt).Compiled? <==> exists ts :: WellFormed(ts) && Source(ts) == q
    ensures forall ts :: WellFormed(ts) && Source(ts) == q ==>
              Compile(q, bt) == Compiled(Render(bt, ts, 1), NamesOf(ts))
  {
    ReadingLosesNothing(q);
    if Lex(q, Outside).Tokens? {
      assert WellFormed(Lex(q, Outside).ts) && Source(Lex(q, Outside).ts) == q;
    }
    forall ts | WellFormed(ts) && Source(ts) == q
      ensures Lex(q, Outside) == Tokens(ts)
    {
      PrintedIsRead(ts);
    }
  }

  // ---- templates ----------------------------------------------------------------------

  /** A query as its author thinks of it: plain text and named parameters. */
  datatype Piece = Text(s: string) | Name(n: string)

  function DoubleColons(s: string): string {
    if s == "" then "" else (if s[0] == ':' then "::" else [s[0]]) + DoubleColons(s[1..])
  }

  /** How the author writes it: every colon of the text doubled. */
  function TemplateSource(ps: seq<Piece>): string {
    if ps == [] then ""
    else (match ps[0] case Text(s) => DoubleColons(s) case Name(n) => ":" + n) + TemplateSource(ps[1..])
  }

  /** What the driver should see. */
  function Meant(bt: BindType, ps: seq<Piece>, k: nat): string {
    if ps == [] then ""
    else match ps[0]
         case Text(s) => s + Meant(bt, ps[1..], k)
         case Name(n) => Placeholder(bt, n, k) + Meant(bt, ps[1..], k + 1)
  }

  function PieceNames(ps: seq<Piece>): seq<string> {
    if ps == [] then []
    else (if ps[0].Name? then [ps[0].n] else []) + PieceNames(ps[1..])
  }

  /** Every name is non-empty, made of name bytes, and visibly ended: by text that can
      neither extend it nor start with a colon, or by the end of the query. */
  predicate Template(ps: seq<Piece>) {
    ps != [] ==>
    && Template(ps[1..])
    && (ps[0].Name? ==>
          && ps[0].n != "" && NameBytes(ps[0].n)
          && if |ps| > 1 then
               && ps[1].Text? && ps[1].s != ""
               && !NameByte(ps[1].s[0]) && ps[1].s[0] != ':'
             else
               Alnum(ps[0].n[|ps[0].n| - 1]))
  }

  function TextTokens(s: string): (ts: seq<Token>)
    ensures |ts| == |s|
    ensures s != "" && s[0] != ':' ==> ts[0] == Lit(s[0])
  {
    if s == "" then [] else [if s[0] == ':' then Escape else Lit(s[0])] + TextTokens(s[1..])
  }

  function PieceTokens(ps: seq<Piece>): seq<Token> {
    if ps == [] then []
    else (match ps[0] case Text(s) => TextTokens(s) case Name(n) => [Param(n)]) + PieceTokens(ps[1..])
  }

  lemma {:induction false} TextPrints(s: string, bt: BindType, k: nat)
    ensures Source(TextTokens(s)) == DoubleColons(s)
    ensures Render(bt, TextTokens(s), k) == s
    ensures NamesOf(TextTokens(s)) == []
  {
    hide Placeholder;
    if s == "" {
    } else {
      TextPrints(s[1..], bt, k);
      assert TextTokens(s)[1..] == TextTokens(s[1..]);
      assert s == [s[0]] + s[1..];
    }
  }

  lemma {:induction false} TextWellFormed(s: string, after: seq<Token>)
    requires WellFormed(after)
    ensures WellFormed(TextTokens(s) + after)
  {
    hide WellFormed;
    if s == "" {
      assert [] + after == after;
    } else {
      TextWellFormed(s[1..], after);
      var t := if s[0] == ':' then Escape else Lit(s[0]);
      Assoc([t], TextTokens(s[1..]), after);
      PlainFirst(t, TextTokens(s[1..]) + after);
    }
  }

  /** A token that is no parameter may stand before anything well formed. */
  lemma PlainFirst(t: Token, rest: seq<Token>)
    requires WellFormed(rest) && (t == Escape || t == Assign || (t.Lit? && t.c != ':'))
    ensures WellFormed([t] + rest)
  {
    assert ([t] + rest)[1..] == rest;
  }

  lemma {:induction false} TemplateWellFormed(ps: seq<Piece>)
    requires Template(ps)
    ensures WellFormed(PieceTokens(ps))
  {
    if ps == [] {
    } else {
      var rest := ps[1..];
      TemplateWellFormed(rest);
      match ps[0]
      case Text(s) =>
        TextWellFormed(s, PieceTokens(rest));
      case Name(n) =>
        assert PieceTokens(ps)[1..] == PieceTokens(rest);
        if rest != [] {
          assert PieceTokens(rest)[0] == TextTokens(rest[0].s)[0] == Lit(rest[0].s[0]);
        }
    }
  }

  lemma {:induction false} TemplatePrints(ps: seq<Piece>, bt: BindType, k: nat)
    ensures Source(PieceTokens(ps)) == TemplateSource(ps)
    ensures Render(bt, PieceTokens(ps), k) == Meant(bt, ps, k)
    ensures NamesOf(PieceTokens(ps)) == PieceNames(ps)
  {
    if ps == [] {
    } else {
      var rest := ps[1..];
      match ps[0]
      case Text(s) =>
        TemplatePrints(rest, bt, k);
        TextPrints(s, bt, k);
        SourceConcat(TextTokens(s), PieceTokens(rest));
        RenderConcat(bt, TextTokens(s), PieceTokens(rest), k);
        NamesOfConcat(TextTokens(s), PieceTokens(rest));
      case Name(n) =>
        TemplatePrints(rest, bt, k + 1);
        assert PieceTokens(ps)[1..] == PieceTokens(rest);
    }
  }

  /** Print then compile: the compiler returns exactly the template's names in order
      and its text with numbered placeholders, in every dialect. */
  lemma TemplateRoundTrip(ps: seq<Piece>, bt: BindType)
    requires Template(ps)
    ensures Compile(TemplateSource(ps), bt) == Compiled(Meant(bt, ps, 1), PieceNames(ps))
  {
    TemplatePrints(ps, bt, 1);
    TemplateWellFormed(ps);
    PrintedIsRead(PieceTokens(ps));
  }

  /** Without parameters the compiler undoes colon doubling, for every text. */
  lemma DoublingUndone(s: string, bt: BindType)
    ensures Compile(DoubleColons(s), bt) == Compiled(s, [])
  {
    TemplateRoundTrip([Text(s)], bt);
    assert DoubleColons(s) + TemplateSource([]) == DoubleColons(s) && s + Meant(bt, [], 1) == s;
    assert [Text(s)][1..] == [];
  }
}
