/** Rebinding: the `?` marks of a query are replaced by numbered placeholders. */
module Rebind {
  import opened Text

  /** What is written before the number of a placeholder. A style the switch does not
      know gets nothing in front of its number. */
  function Prefix(bt: BindType): string {
    match bt
    case Dollar => "$"
    case Named => ":arg"
    case At => "@p"
    case _ => ""
  }

  /** Every mark replaced by prefix and number, counting from `k`. */
  function Numbered(bt: BindType, q: string, k: nat): string {
    if q == "" then ""
    else if q[0] == '?' then Prefix(bt) + Decimal(k) + Numbered(bt, q[1..], k + 1)
    else [q[0]] + Numbered(bt, q[1..], k)
  }

  function Rebound(bt: BindType, q: string): string {
    if bt == Question || bt == Unknown then q else Numbered(bt, q, 1)
  }

  lemma NumberedFirst(bt: BindType, q: string, k: nat)
    requires q != ""
    ensures Marks(q) == (if q[0] == '?' then 1 else 0) + Marks(q[1..])
    ensures q[0] == '?' ==> Numbered(bt, q, k) == Prefix(bt) + Decimal(k) + Numbered(bt, q[1..], k + 1)
    ensures q[0] != '?' ==> Numbered(bt, q, k) == [q[0]] + Numbered(bt, q[1..], k)
  {
  }

  lemma {:induction false} NumberedConcat(bt: BindType, s: string, t: string, k: nat)
    ensures Numbered(bt, s + t, k) == Numbered(bt, s, k) + Numbered(bt, t, k + Marks(s))
    decreases |s|, 1
  {
    if s == "" {
      assert s + t == t;
    } else {
      NumberedConcatStep(bt, s, t, k);
    }
  }

  lemma {:induction false} NumberedConcatStep(bt: BindType, s: string, t: string, k: nat)
    requires s != ""
    ensures Numbered(bt, s + t, k) == Numbered(bt, s, k) + Numbered(bt, t, k + Marks(s))
    decreases |s|, 0
  {
    hide Numbered, Marks, Prefix, Decimal;
    var rest, n := s[1..], k + Marks(s);
    assert (s + t)[1..] == rest + t && (s + t)[0] == s[0];
    NumberedFirst(bt, s, k);
    NumberedFirst(bt, s + t, k);
    if s[0] == '?' {
      NumberedConcat(bt, rest, t, k + 1);
      Assoc(Prefix(bt) + Decimal(k), Numbered(bt, rest, k + 1), Numbered(bt, t, n));
    } else {
      NumberedConcat(bt, rest, t, k);
      Assoc([s[0]], Numbered(bt, rest, k), Numbered(bt, t, n));
    }
  }

  lemma {:induction false} NumberedPlain(bt: BindType, s: string, k: nat)
    requires '?' !in s
    ensures Numbered(bt, s, k) == s
  {
    if s == "" {
    } else {
      NumberedPlain(bt, s[1..], k);
      assert s == [s[0]] + s[1..];
    }
  }

  lemma NumberedAtMark(bt: BindType, q: string, i: nat, k: nat)
    requires i < |q| && q[i] == '?' && '?' !in q[..i]
    ensures Numbered(bt, q, k) == q[..i] + Prefix(bt) + Decimal(k) + Numbered(bt, q[i + 1..], k + 1)
  {
    var after := q[i + 1..];
    assert q == q[..i] + q[i..] && q[i..][1..] == after;
    NumberedConcat(bt, q[..i], q[i..], k);
    NumberedPlain(bt, q[..i], k);
    Assoc(q[..i], Prefix(bt) + Decimal(k), Numbered(bt, after, k + 1));
    Assoc(q[..i], Prefix(bt), Decimal(k));
  }

  /** The rebinding loop: it finds the next mark, writes what precedes it and the
      placeholder, and goes on with the query cut after the mark. */
  method RebindQuery(bt: BindType, q: string) returns (r: string)
    ensures r == Rebound(bt, q)
  {
    if bt == Question || bt == Unknown {
      return q;
    }
    var rqb, query, j := "", q, 0;
    var i := IndexFrom(query, '?', 0);
    while i != -1
      invariant 0 <= j
      invariant rqb + Numbered(bt, query, j + 1) == Numbered(bt, q, 1)
      invariant i == -1 ==> '?' !in query
      invariant i != -1 ==> 0 <= i < |query| && query[i] == '?' && '?' !in query[..i]
      decreases |query|
    {
      NumberedAtMark(bt, query, i, j + 1);
      ghost var head := query[..i] + Prefix(bt) + Decimal(j + 1);
      Assoc(rqb, head, Numbered(bt, query[i + 1..], j + 2));
      Assoc(rqb, query[..i] + Prefix(bt), Decimal(j + 1));
      Assoc(rqb, query[..i], Prefix(bt));
      rqb := rqb + query[..i];
      rqb := rqb + Prefix(bt);
      j := j + 1;
      rqb := rqb + Decimal(j);
      query := query[i + 1..];
      i := IndexFrom(query, '?', 0);
    }
    NumberedPlain(bt, query, j + 1);
    r := rqb + query;
  }

  // ---- what rebinding keeps -------------------------------------------------------

  lemma {:induction false} NoMarksLeft(bt: BindType, q: string, k: nat)
    ensures '?' !in Numbered(bt, q, k)
  {
    if q == "" {
    } else {
      NoMarksLeft(bt, q[1..], if q[0] == '?' then k + 1 else k);
    }
  }

  /** Total length of `n` placeholders numbered from `k`. */
  function PlaceholdersLength(bt: BindType, k: nat, n: nat): nat
    decreases n
  {
    if n == 0 then 0 else |Prefix(bt)| + |Decimal(k)| + PlaceholdersLength(bt, k + 1, n - 1)
  }

  /** The output is as long as the input with each mark traded for its placeholder. */
  lemma {:induction false} NumberedLength(bt: BindType, q: string, k: nat)
    ensures |Numbered(bt, q, k)| == |q| - Marks(q) + PlaceholdersLength(bt, k, Marks(q))
  {
    if q == "" {
    } else {
      NumberedLength(bt, q[1..], if q[0] == '?' then k + 1 else k);
    }
  }

  /** The inverse: after the prefix character it drops the rest of the prefix and as
      many characters as the expected number has. */
  function Stripped(bt: BindType, s: string, k: nat): string
    requires Prefix(bt) != ""
    decreases |s|
  {
    if s == "" then ""
    else
      var n := |Prefix(bt)| + |Decimal(k)|;
      if s[0] == Prefix(bt)[0] && n <= |s| then "?" + Stripped(bt, s[n..], k + 1)
      else [s[0]] + Stripped(bt, s[1..], k)
  }

  /** On queries without the prefix character the inverse recovers the query, even
      where digits follow a mark. */
  lemma {:induction false} StrippedUndoes(bt: BindType, q: string, k: nat)
    requires Prefix(bt) != "" && Prefix(bt)[0] !in q
    ensures Stripped(bt, Numbered(bt, q, k), k) == q
    decreases |q|
  {
    if q == "" {
    } else if q[0] == '?' {
      StrippedUndoes(bt, q[1..], k + 1);
      var head, tail := Prefix(bt) + Decimal(k), Numbered(bt, q[1..], k + 1);
      assert Numbered(bt, q, k)[|head|..] == tail;
      assert q == "?" + q[1..];
    } else {
      StrippedUndoes(bt, q[1..], k);
      assert Numbered(bt, q, k)[1..] == Numbered(bt, q[1..], k);
      assert q == [q[0]] + q[1..];
    }
  }

  /** Rebinding is injective on queries that do not contain the prefix character. */
  lemma ReboundInjective(bt: BindType, p: string, q: string)
    requires bt.Dollar? || bt.Named? || bt.At?
    requires Prefix(bt)[0] !in p && Prefix(bt)[0] !in q
    requires Rebound(bt, p) == Rebound(bt, q)
    ensures p == q
  {
    StrippedUndoes(bt, p, 1);
    StrippedUndoes(bt, q, 1);
  }

  predicate StandsAt(t: string, s: string, i: nat) {
    i + |t| <= |s| && s[i..i + |t|] == t
  }

  /** `t` occurs in `s`. */
  ghost predicate Occurs(t: string, s: string) {
    exists i: nat :: StandsAt(t, s, i)
  }

  lemma OccursBetween(a: string, t: string, b: string)
    ensures Occurs(t, a + t + b)
  {
    assert StandsAt(t, a + t + b, |a|);
  }

  /** A text with a mark, rebound, shows the first placeholder. */
  lemma MarkLeavesPlaceholder(bt: BindType, p: string)
    requires '?' in p && bt != Question && bt != Unknown
    ensures Occurs(Prefix(bt) + Decimal(1), Rebound(bt, p))
  {
    hide Numbered, Decimal, Prefix, Occurs;
    var i := IndexOf(p, '?', 0);
    NumberedAtMark(bt, p, i, 1);
    Assoc(p[..i], Prefix(bt), Decimal(1));
    OccursBetween(p[..i], Prefix(bt) + Decimal(1), Numbered(bt, p[i + 1..], 2));
  }

  /** A text that shows the first placeholder and has no mark is what the text with a
      mark in its place is rebound to. */
  lemma PlaceholderHidesMark(bt: BindType, q: string, i: nat) returns (p: string)
    requires '?' !in q && bt != Question && bt != Unknown
    requires StandsAt(Prefix(bt) + Decimal(1), q, i)
    ensures p != q && Rebound(bt, p) == Rebound(bt, q)
  {
    hide Numbered, Decimal, Prefix;
    var n := |Prefix(bt) + Decimal(1)|;
    var a, b := q[..i], q[i + n..];
    p := a + "?" + b;
    assert p[i] == '?' && p[..i] == a && p[i + 1..] == b;
    NumberedAtMark(bt, p, i, 1);
    Assoc(a, Prefix(bt), Decimal(1));
    NumberedPlain(bt, b, 2);
    assert q == a + q[i..i + n] + b;
    NumberedPlain(bt, q, 1);
  }

  /** Exactly which queries another query is confused with after rebinding: those that
      have a mark, and those in which the first placeholder already occurs. */
  lemma CollidesExactly(bt: BindType, q: string)
    requires bt != Question && bt != Unknown
    ensures (exists p :: p != q && Rebound(bt, p) == Rebound(bt, q))
       <==> ('?' in q || Occurs(Prefix(bt) + Decimal(1), q))
  {
    hide Numbered, Decimal, Prefix;
    if '?' in q {
      var p := Rebound(bt, q);
      NoMarksLeft(bt, q, 1);
      NumberedPlain(bt, p, 1);
      assert p != q && Rebound(bt, p) == Rebound(bt, q);
    } else {
      NumberedPlain(bt, q, 1);
      if Occurs(Prefix(bt) + Decimal(1), q) {
        var i: nat :| StandsAt(Prefix(bt) + Decimal(1), q, i);
        var p := PlaceholderHidesMark(bt, q, i);
      }
      if p :| p != q && Rebound(bt, p) == Rebound(bt, q) {
        if '?' in p {
          MarkLeavesPlaceholder(bt, p);
        } else {
          NumberedPlain(bt, p, 1);
        }
      }
    }
  }

  /** The smallest such pair: `$1` already looks like a rebound mark. */
  lemma PrefixCharacterCollides()
    ensures Rebound(Dollar, "?") == Rebound(Dollar, "$1") && "?" != "$1"
  {
    assert "$1"[1..] == "1" && "1"[1..] == "" && "?"[1..] == "";
    assert Decimal(1) == "1";
  }
}
