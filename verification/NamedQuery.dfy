/** The named-query compiler: a one-pass byte machine that turns `:name` parameters
    into one of four placeholder styles. Its specification has two stages. `Lex`
    splits the query into tokens without looking at the dialect, and `Render` prints
    tokens in a dialect. `Source` is the exact inverse of `Lex` on every query the
    compiler accepts. */
module NamedQuery {
  import opened Text

  predicate Alnum(b: char) {
    'a' <= b <= 'z' || 'A' <= b <= 'Z' || '0' <= b <= '9'
  }

  predicate NameByte(b: char) {
    Alnum(b) || b == '_' || b == '.'
  }

  predicate NameBytes(s: string) {
    forall i :: 0 <= i < |s| ==> NameByte(s[i])
  }

  /** What the pieces of a query are: an ordinary byte, `::`, `:=`, `:name`, and the
      lone colon that ends a query and is dropped. */
  datatype Token = Lit(c: char) | Escape | Assign | Param(name: string) | Dangling

  /** Whether the machine is inside a name, and the bytes of that name so far. */
  datatype Mode = Outside | InName(name: string)

  /** The tokens of a query, or the position of the colon that cut a name short
      together with the tokens before that name. */
  datatype Lexed = Tokens(ts: seq<Token>) | Clash(at: nat, ts: seq<Token>)

  function Prepend(consumed: nat, before: seq<Token>, rest: Lexed): Lexed {
    match rest
    case Tokens(ts) => Tokens(before + ts)
    case Clash(at, ts) => Clash(consumed + at, before + ts)
  }

  /** The tokens of the remaining text `s`, starting in `mode`. */
  function Lex(s: string, mode: Mode): Lexed
    decreases |s|
  {
    if s == "" then
      Tokens(if mode.InName? then [Dangling] else [])
    else
      var b, rest := s[0], s[1..];
      match mode
      case Outside =>
        if b == ':' then Prepend(1, [], Lex(rest, InName("")))
        else Prepend(1, [Lit(b)], Lex(rest, Outside))
      case InName(name) =>
        if b == ':' then
          if name == "" then Prepend(1, [Escape], Lex(rest, Outside)) else Clash(0, [])
        else if b == '=' && name == "" then
          Prepend(1, [Assign], Lex(rest, Outside))
        else if NameByte(b) && rest != "" then
          Prepend(1, [], Lex(rest, InName(name + [b])))
        else if Alnum(b) then
          Tokens([Param(name + [b])])
        else
          Prepend(1, [Param(name), Lit(b)], Lex(rest, Outside))
  }

  /** The query text a token stands for. */
  function TokenSource(t: Token): (s: string)
    ensures s != ""
  {
    match t
    case Lit(c) => [c]
    case Escape => "::"
    case Assign => ":="
    case Param(name) => ":" + name
    case Dangling => ":"
  }

  function Source(ts: seq<Token>): string {
    if ts == [] then "" else TokenSource(ts[0]) + Source(ts[1..])
  }

  /** The token lists that are the reading of some query: a name is made of name
      bytes and is ended by the end of the query or by a byte that cannot continue
      it. A `_` or `.` can end a name only as the very last byte. */
  predicate WellFormed(ts: seq<Token>) {
    ts == [] ||
    var rest := ts[1..];
    match ts[0]
    case Lit(c) => c != ':' && WellFormed(rest)
    case Escape => WellFormed(rest)
    case Assign => WellFormed(rest)
    case Dangling => rest == []
    case Param(name) =>
      && NameBytes(name)
      && (if rest == [] then
            name != "" && Alnum(name[|name| - 1])
          else
            && rest[0].Lit?
            && !(rest[0].c == '=' && name == "")
            && (NameByte(rest[0].c) ==> !Alnum(rest[0].c) && |rest| == 1)
            && WellFormed(rest))
  }

  /** The placeholder of parameter number `k` in each dialect. */
  function Placeholder(bt: BindType, name: string, k: nat): string {
    match bt
    case Named => ":" + name
    case Question => "?"
    case Unknown => "?"
    case Dollar => "$" + Decimal(k)
    case At => "@p" + Decimal(k)
    case Other(_) => ""
  }

  function Emit(bt: BindType, t: Token, k: nat): string {
    match t
    case Lit(c) => [c]
    case Escape => ":"
    case Assign => ":="
    case Param(name) => Placeholder(bt, name, k)
    case Dangling => ""
  }

  function NamesOf(ts: seq<Token>): seq<string> {
    if ts == [] then []
    else (if ts[0].Param? then [ts[0].name] else []) + NamesOf(ts[1..])
  }

  /** The tokens printed in a dialect, parameters numbered from `k`. */
  function Render(bt: BindType, ts: seq<Token>, k: nat): string {
    if ts == [] then ""
    else Emit(bt, ts[0], k) + Render(bt, ts[1..], if ts[0].Param? then k + 1 else k)
  }

  datatype CompileResult =
    | Compiled(query: string, names: seq<string>)
    | SyntaxError(at: nat, names: seq<string>)

  /** What compiling a query means. */
  function Compile(q: string, bt: BindType): CompileResult {
    match Lex(q, Outside)
    case Tokens(ts) => Compiled(Render(bt, ts, 1), NamesOf(ts))
    case Clash(at, ts) => SyntaxError(at, NamesOf(ts))
  }

  // ---- the compiler loop ------------------------------------------------------

  lemma {:induction false} NamesOfConcat(s: seq<Token>, t: seq<Token>)
    ensures NamesOf(s + t) == NamesOf(s) + NamesOf(t)
  {
    if s == [] {
      assert s + t == t;
    } else {
      NamesOfConcat(s[1..], t);
      assert (s + t)[1..] == s[1..] + t && (s + t)[0] == s[0];
      Assoc(if s[0].Param? then [s[0].name] else [], NamesOf(s[1..]), NamesOf(t));
    }
  }

  lemma {:induction false} RenderConcat(bt: BindType, s: seq<Token>, t: seq<Token>, k: nat)
    ensures Render(bt, s + t, k) == Render(bt, s, k) + Render(bt, t, k + |NamesOf(s)|)
  {
    if s == [] {
      assert s + t == t;
    } else {
      hide Emit;
      var k' := if s[0].Param? then k + 1 else k;
      RenderConcat(bt, s[1..], t, k');
      assert (s + t)[1..] == s[1..] + t && (s + t)[0] == s[0];
      Assoc(Emit(bt, s[0], k), Render(bt, s[1..], k'), Render(bt, t, k + |NamesOf(s)|));
    }
  }

  /** The number the machine would print next. Only two dialects count. */
  function Counter(bt: BindType, params: nat): nat {
    if bt == Dollar || bt == At then params + 1 else 1
  }

  /** The machine after `done`: its output buffer, its names and its counter. */
  ghost predicate Written(bt: BindType, done: seq<Token>, rebound: string, names: seq<string>, currentVar: nat) {
    && rebound == Render(bt, done, 1)
    && names == NamesOf(done)
    && currentVar == Counter(bt, |names|)
  }

  /** One token more: what it adds to the output, the names and the counter. */
  lemma Emitted(bt: BindType, done: seq<Token>, t: Token, rebound: string, names: seq<string>, currentVar: nat)
    requires Written(bt, done, rebound, names, currentVar)
    ensures t.Param? ==>
              Written(bt, done + [t], rebound + Emit(bt, t, currentVar), names + [t.name],
                      if bt == Dollar || bt == At then currentVar + 1 else currentVar)
    ensures !t.Param? ==> Written(bt, done + [t], rebound + Emit(bt, t, currentVar), names, currentVar)
  {
    RenderConcat(bt, done, [t], 1);
    NamesOfConcat(done, [t]);
    assert Render(bt, [t], 1 + |names|) == Emit(bt, t, 1 + |names|) + "";
    assert names + [] == names;
  }

  lemma PrependTwice(n: nat, a: seq<Token>, m: nat, b: seq<Token>, l: Lexed)
    ensures Prepend(n, a, Prepend(m, b, l)) == Prepend(n + m, a + b, l)
  {
    assert a + (b + l.ts) == (a + b) + l.ts;
  }

  /** The machine stands before byte `i` in `mode`, having read the tokens `done`. */
  ghost predicate Reached(qs: string, i: nat, done: seq<Token>, mode: Mode) {
    && i <= |qs|
    && Lex(qs, Outside) == Prepend(i, done, Lex(qs[i..], mode))
    && (mode.InName? ==>
          && 0 < i && (qs[i - 1] == ':' <==> mode.name == "") && NameBytes(mode.name)
          && (i == |qs| ==> mode.name == ""))
  }

  /** Reading one byte, whose tokens are `out`, moves the machine one byte on. */
  lemma NextByte(qs: string, i: nat, done: seq<Token>, entry: Mode, out: seq<Token>, exit: Mode)
    requires Reached(qs, i, done, entry) && i < |qs|
    requires Lex(qs[i..], entry) == Prepend(1, out, Lex(qs[i + 1..], exit))
    requires exit.InName? ==>
               && (qs[i] == ':' <==> exit.name == "") && NameBytes(exit.name)
               && (i + 1 == |qs| ==> exit.name == "")
    ensures Reached(qs, i + 1, done + out, exit)
  {
    PrependTwice(i, done, 1, out, Lex(qs[i + 1..], exit));
  }

  /** What the machine does with byte `i`: the mode it leaves in and its tokens. */
  lemma ReadByte(qs: string, i: nat, done: seq<Token>, entry: Mode)
    requires Reached(qs, i, done, entry) && i < |qs|
    ensures entry == Outside && qs[i] == ':' ==> Reached(qs, i + 1, done, InName(""))
    ensures entry == Outside && qs[i] != ':' ==> Reached(qs, i + 1, done + [Lit(qs[i])], Outside)
    ensures entry == InName("") && qs[i] == ':' ==> Reached(qs, i + 1, done + [Escape], Outside)
    ensures entry == InName("") && qs[i] == '=' ==> Reached(qs, i + 1, done + [Assign], Outside)
    ensures entry.InName? && entry.name != "" && qs[i] == ':' ==> Lex(qs, Outside) == Clash(i, done)
    ensures entry.InName? && NameByte(qs[i]) && i + 1 < |qs| ==>
              Reached(qs, i + 1, done, InName(entry.name + [qs[i]]))
    ensures entry.InName? && Alnum(qs[i]) && i + 1 == |qs| ==>
              Reached(qs, i + 1, done + [Param(entry.name + [qs[i]])], Outside)
    ensures entry.InName? && qs[i] != ':' && !(qs[i] == '=' && entry.name == "")
            && !(NameByte(qs[i]) && i + 1 < |qs|) && !Alnum(qs[i]) ==>
              Reached(qs, i + 1, done + [Param(entry.name)] + [Lit(qs[i])], Outside)
  {
    var b, rest := qs[i], qs[i + 1..];
    assert qs[i..][1..] == rest;
    assert done + [] == done;
    match entry
    case Outside =>
      if b == ':' {
        NextByte(qs, i, done, entry, [], InName(""));
      } else {
        NextByte(qs, i, done, entry, [Lit(b)], Outside);
      }
    case InName(name) =>
      if b == ':' {
        if name == "" {
          NextByte(qs, i, done, entry, [Escape], Outside);
        }
      } else if b == '=' && name == "" {
        NextByte(qs, i, done, entry, [Assign], Outside);
      } else if NameByte(b) && rest != "" {
        NextByte(qs, i, done, entry, [], InName(name + [b]));
      } else if Alnum(b) {
        assert [Param(name + [b])] + [] == [Param(name + [b])];
        NextByte(qs, i, done, entry, [Param(name + [b])], Outside);
      } else {
        assert done + [Param(name), Lit(b)] == done + [Param(name)] + [Lit(b)];
        NextByte(qs, i, done, entry, [Param(name), Lit(b)], Outside);
      }
  }

  /** Inside a name the machine has just read a colon or a non-empty name. */
  lemma InsideName(qs: string, i: nat, done: seq<Token>, mode: Mode)
    requires Reached(qs, i, done, mode) && mode.InName?
    ensures 0 < i <= |qs| && (qs[i - 1] == ':' <==> mode.name == "")
  {
  }

  lemma Starts(qs: string, bt: BindType)
    ensures Written(bt, [], "", [], 1) && Reached(qs, 0, [], Outside)
  {
    assert qs[0..] == qs;
  }

  /** At the end a name that has only its colon is dropped. */
  lemma Ends(qs: string, bt: BindType, done: seq<Token>, mode: Mode, rebound: string, names: seq<string>,
             currentVar: nat)
    requires Reached(qs, |qs|, done, mode) && Written(bt, done, rebound, names, currentVar)
    ensures Compile(qs, bt) == Compiled(rebound, names)
  {
    assert qs[|qs|..] == "";
    if mode.InName? {
      Emitted(bt, done, Dangling, rebound, names, currentVar);
      assert rebound + "" == rebound;
    }
    assert done + [] == done;
  }

  lemma Clashes(qs: string, bt: BindType, at: nat, done: seq<Token>, rebound: string, names: seq<string>,
                currentVar: nat)
    requires Lex(qs, Outside) == Clash(at, done) && Written(bt, done, rebound, names, currentVar)
    ensures Compile(qs, bt) == SyntaxError(at, names)
  {
  }

  /** The compiler itself, one pass over the bytes. */
  method CompileNamedQuery(qs: string, bt: BindType) returns (r: CompileResult)
    ensures r == Compile(qs, bt)
  {
    var rebound, names, name := "", [], "";
    var inName, last, currentVar := false, |qs| - 1, 1;
    ghost var done: seq<Token> := [];
    hide Written, Reached, Lex, Compile, NameBytes;
    Starts(qs, bt);
    var i := 0;
    while i < |qs|
      invariant 0 <= i <= |qs|
      invariant Written(bt, done, rebound, names, currentVar)
      invariant Reached(qs, i, done, if inName then InName(name) else Outside)
    {
      var b := qs[i];
      ReadByte(qs, i, done, if inName then InName(name) else Outside);
      if inName {
        InsideName(qs, i, done, InName(name));
      }
      if b == ':' {
        if inName && i > 0 && qs[i - 1] == ':' {
          Emitted(bt, done, Escape, rebound, names, currentVar);
          rebound, done := rebound + ":", done + [Escape];
          inName := false;
        } else if inName {
          Clashes(qs, bt, i, done, rebound, names, currentVar);
          return SyntaxError(i, names);
        } else {
          inName := true;
          name := "";
        }
      } else if inName && i > 0 && b == '=' && |name| == 0 {
        Emitted(bt, done, Assign, rebound, names, currentVar);
        rebound, done := rebound + ":=", done + [Assign];
        inName := false;
      } else if inName && NameByte(b) && i != last {
        name := name + [b];
      } else if inName {
        inName := false;
        if i == last && Alnum(b) {
          name := name + [b];
        }
        Emitted(bt, done, Param(name), rebound, names, currentVar);
        names, done := names + [name], done + [Param(name)];
        match bt {
          case Named => rebound := rebound + (":" + name);
          case Question => rebound := rebound + "?";
          case Unknown => rebound := rebound + "?";
          case Dollar =>
            rebound := rebound + ("$" + Decimal(currentVar));
            currentVar := currentVar + 1;
          case At =>
            rebound := rebound + ("@p" + Decimal(currentVar));
            currentVar := currentVar + 1;
          case Other(_) => rebound := rebound + "";
        }
        if i != last {
          Emitted(bt, done, Lit(b), rebound, names, currentVar);
          rebound, done := rebound + [b], done + [Lit(b)];
        } else if !Alnum(b) {
          Emitted(bt, done, Lit(b), rebound, names, currentVar);
          rebound, done := rebound + [b], done + [Lit(b)];
        }
      } else {
        Emitted(bt, done, Lit(b), rebound, names, currentVar);
        rebound, done := rebound + [b], done + [Lit(b)];
      }
      i := i + 1;
    }
    Ends(qs, bt, done, if inName then InName(name) else Outside, rebound, names, currentVar);
    r := Compiled(rebound, names);
  }
}
