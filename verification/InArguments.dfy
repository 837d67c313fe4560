/** The expansion of `In`, argument by argument: what stands for each argument in the query,
    and which values it brings along. */
module InArguments {
  import opened Text
  import opened InExpand

  lemma {:induction false} ExpandConcat<V>(a: string, b: string, us: seq<Plain<V>>, vs: seq<Plain<V>>)
    requires Marks(a) == |us|
    ensures Expand(a + b, us + vs) == Expand(a, us) + Expand(b, vs)
  {
    if a == "" {
      assert a + b == b && us + vs == vs;
      assert "" + Expand(b, vs) == Expand(b, vs);
    } else {
      assert (a + b)[1..] == a[1..] + b && (a + b)[0] == a[0];
      if a[0] == '?' {
        assert (us + vs)[1..] == us[1..] + vs && (us + vs)[0] == us[0];
        ExpandConcat(a[1..], b, us[1..], vs);
        ExpandFirst(a, us);
        ExpandFirst(a + b, us + vs);
        hide Expand, Marks, MoreMarks;
        Assoc("?" + MoreMarks(Extra(us[0])), Expand(a[1..], us[1..]), Expand(b, vs));
      } else {
        ExpandConcat(a[1..], b, us, vs);
        Assoc([a[0]], Expand(a[1..], us), Expand(b, vs));
      }
    }
  }

  /** The marks an argument needs besides its first. */
  function Extra<V>(p: Plain<V>): nat {
    if Width(p) == 0 then 0 else Width(p) - 1
  }

  lemma ExpandFirst<V>(q: string, ps: seq<Plain<V>>)
    requires q != "" && q[0] == '?' && ps != []
    ensures Expand(q, ps) == "?" + MoreMarks(Extra(ps[0])) + Expand(q[1..], ps[1..])
  {
  }

  lemma {:induction false} FlatConcat<V>(us: seq<Plain<V>>, vs: seq<Plain<V>>)
    ensures Flat(us + vs) == Flat(us) + Flat(vs)
  {
    if us == [] {
      assert us + vs == vs;
    } else {
      FlatConcat(us[1..], vs);
      assert (us + vs)[1..] == us[1..] + vs;
      Assoc(Elements(us[0]), Flat(us[1..]), Flat(vs));
    }
  }

  /** `n` marks with a comma and a space between each and the next. */
  ghost predicate MarkList(s: string, n: nat) {
    && n > 0 && |s| == 3 * n - 2
    && forall k :: 0 <= k < |s| ==> s[k] == if k % 3 == 0 then '?' else if k % 3 == 1 then ',' else ' '
  }

  lemma {:induction false} MarksListed(n: nat)
    ensures MarkList("?" + MoreMarks(n), n + 1)
  {
    if n > 0 {
      MarksListed(n - 1);
      Assoc("?", MoreMarks(n - 1), ", ?");
      MarkAppended("?" + MoreMarks(n - 1), n);
    }
  }

  lemma MarkAppended(s: string, n: nat)
    requires MarkList(s, n)
    ensures MarkList(s + ", ?", n + 1)
  {
    var t := s + ", ?";
    forall k | 0 <= k < |t|
      ensures t[k] == if k % 3 == 0 then '?' else if k % 3 == 1 then ',' else ' '
    {
      if k >= |s| {
        assert t[k] == ", ?"[k - |s|];
      }
    }
  }

  /** What argument `a` brings along: itself, or the elements of the slice it is. */
  ghost predicate Brings<V>(a: Arg<V>, vs: seq<V>) {
    match a
    case Given(Scalar(v)) => vs == [v]
    case Given(Slice(elems)) => vs == elems
    case Valuer(Some(Scalar(v))) => vs == [v]
    case Valuer(Some(Slice(elems))) => vs == elems
    case _ => false
  }

  lemma PlainKept<V>(s: string)
    requires '?' !in s
    ensures Expand<V>(s, []) == s
  {
    ExpandPlain<V>(s, "", []);
    assert s + "" == s;
  }

  lemma TakenApart<V>(q: string, ps: seq<Plain<V>>, i: nat)
    requires i < |ps| == Marks(q)
    ensures var at := MarkAt(q, i);
            && Marks(q[..at]) == i && q[at] == '?'
            && Flat(ps) == Flat(ps[..i]) + Elements(ps[i]) + Flat(ps[i + 1..])
            && Expand(q, ps)
               == Expand(q[..at], ps[..i]) + ("?" + MoreMarks(Extra(ps[i]))) + Expand(q[at + 1..], ps[i + 1..])
  {
    hide Marks, Expand, Flat, MoreMarks, Elements, Extra, MarkAt;
    MarksAround(q, i);
    FlatAround(ps, i);
    TextAround(q, MarkAt(q, i), ps, i);
  }

  lemma CutAt<T>(s: seq<T>, i: nat)
    requires i < |s|
    ensures s == s[..i] + s[i..] && s[i..] != [] && s[i..][0] == s[i] && s[i..][1..] == s[i + 1..]
  {
  }

  lemma FlatAround<V>(ps: seq<Plain<V>>, i: nat)
    requires i < |ps|
    ensures Flat(ps) == Flat(ps[..i]) + Elements(ps[i]) + Flat(ps[i + 1..])
  {
    hide Flat, Elements;
    CutAt(ps, i);
    FlatConcat(ps[..i], ps[i..]);
    FlatFirst(ps[i..]);
    Assoc(Flat(ps[..i]), Elements(ps[i]), Flat(ps[i + 1..]));
  }

  lemma TextAround<V>(q: string, at: nat, ps: seq<Plain<V>>, i: nat)
    requires at < |q| && q[at] == '?' && i < |ps| && Marks(q[..at]) == i
    ensures Expand(q, ps)
         == Expand(q[..at], ps[..i]) + ("?" + MoreMarks(Extra(ps[i]))) + Expand(q[at + 1..], ps[i + 1..])
  {
    hide Marks, Expand, MoreMarks, Extra;
    CutAt(q, at);
    CutAt(ps, i);
    ExpandConcat(q[..at], q[at..], ps[..i], ps[i..]);
    ExpandFirst(q[at..], ps[i..]);
    Assoc(Expand(q[..at], ps[..i]), "?" + MoreMarks(Extra(ps[i])), Expand(q[at + 1..], ps[i + 1..]));
  }

  /** An expansion, taken apart at mark and argument `i`: between what becomes of the query
      and the arguments before and after, there stand the values that argument brings along
      and as many marks. A text without marks is kept. */
  lemma ArgumentInPlace<V>(q: string, args: seq<Arg<V>>, i: nat) returns (block: string, vs: seq<V>)
    requires InSpec(q, args).Expanded? && i < |args|
    ensures AllUsable(args) && i < Marks(q) == |args|
    ensures Brings(args[i], vs) && MarkList(block, |vs|)
    ensures var r, ps, at := InSpec(q, args), PlainArgs(args), MarkAt(q, i);
            && Marks(q[..at]) == i && q[at] == '?'
            && r.args == Flat(ps[..i]) + vs + Flat(ps[i + 1..])
            && r.query == Expand(q[..at], ps[..i]) + block + Expand(q[at + 1..], ps[i + 1..])
    ensures forall s: string :: '?' !in s ==> Expand<V>(s, []) == s
  {
    hide Marks, Expand, Flat, MoreMarks, PlainArgs, FirstError, MarkAt, Elements, MarkList, Brings;
    var ps := PlainArgs(args);
    block, vs := "?" + MoreMarks(Extra(ps[i])), Elements(ps[i]);
    assert Resolved(args[i]) == Some(ps[i]) && Width(ps[i]) > 0;
    BringsElements(args[i], ps[i]);
    MarksListed(Extra(ps[i]));
    TakenApart(q, ps, i);
    forall s: string | '?' !in s
      ensures Expand<V>(s, []) == s
    {
      PlainKept<V>(s);
    }
  }

  lemma FlatFirst<V>(ps: seq<Plain<V>>)
    requires ps != []
    ensures Flat(ps) == Elements(ps[0]) + Flat(ps[1..])
  {
  }

  lemma BringsElements<V>(a: Arg<V>, p: Plain<V>)
    requires Resolved(a) == Some(p)
    ensures Brings(a, Elements(p))
  {
  }
}
