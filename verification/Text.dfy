/** Text and numbers as the binder sees them. A Go string is a sequence of bytes;
    one `char` stands for one byte. Nothing below depends on a character being
    smaller than 256, so every result holds for byte strings in particular. */
module Text {

  datatype Option<+T> = None | Some(value: T)

  /** The parameter styles of the supported drivers. `Other` is any further
      integer, which the binder accepts without complaint. */
  datatype BindType = Unknown | Question | Dollar | Named | At | Other(code: int)

  /** Decimal notation without sign or leading zeros. */
  function Decimal(n: nat): (s: string)
    ensures s != "" && forall i :: 0 <= i < |s| ==> '0' <= s[i] <= '9'
  {
    if n < 10 then ['0' + n as char] else Decimal(n / 10) + ['0' + (n % 10) as char]
  }

  /** The number a text of digits denotes. */
  function ValueOf(s: string): int {
    if s == "" then 0 else 10 * ValueOf(s[..|s| - 1]) + (s[|s| - 1] as int - '0' as int)
  }

  /** Decimal notation denotes the number and has no leading zero. */
  lemma {:induction false} DecimalDenotes(n: nat)
    ensures ValueOf(Decimal(n)) == n
    ensures Decimal(n)[0] == '0' ==> n == 0
  {
    if n < 10 {
      assert Decimal(n)[..0] == "";
    } else {
      DecimalDenotes(n / 10);
      assert Decimal(n)[..|Decimal(n)| - 1] == Decimal(n / 10);
    }
  }

  /** Number of `?` in a text. */
  function Marks(s: string): (n: nat)
    ensures n <= |s|
    ensures n == 0 <==> '?' !in s
  {
    if s == "" then 0 else (if s[0] == '?' then 1 else 0) + Marks(s[1..])
  }

  lemma Assoc<T>(a: seq<T>, b: seq<T>, c: seq<T>)
    ensures (a + b) + c == a + (b + c)
  {
  }

  lemma {:induction false} MarksConcat(s: string, t: string)
    ensures Marks(s + t) == Marks(s) + Marks(t)
  {
    if s == "" {
      assert s + t == t;
    } else {
      MarksConcat(s[1..], t);
      assert (s + t)[1..] == s[1..] + t;
    }
  }

  /** First position of `c` at or after `from`, or -1. */
  function IndexOf(s: string, c: char, from: nat): (i: int)
    requires from <= |s|
    ensures i == -1 ==> forall k :: from <= k < |s| ==> s[k] != c
    ensures i != -1 ==> from <= i < |s| && s[i] == c && forall k :: from <= k < i ==> s[k] != c
    decreases |s| - from
  {
    if from == |s| then -1 else if s[from] == c then from else IndexOf(s, c, from + 1)
  }

  method IndexFrom(s: string, c: char, from: nat) returns (i: int)
    requires from <= |s|
    ensures i == IndexOf(s, c, from)
  {
    i := from;
    while i < |s|
      invariant from <= i <= |s|
      invariant IndexOf(s, c, from) == IndexOf(s, c, i)
    {
      if s[i] == c {
        return;
      }
      i := i + 1;
    }
    i := -1;
  }

  /** Last position of `c` before `until`, or -1. */
  function LastIndexOf(s: string, c: char, until: nat): (i: int)
    requires until <= |s|
    ensures i == -1 ==> forall k :: 0 <= k < until ==> s[k] != c
    ensures i != -1 ==> 0 <= i < until && s[i] == c && forall k :: i < k < until ==> s[k] != c
  {
    if until == 0 then -1 else if s[until - 1] == c then until - 1 else LastIndexOf(s, c, until - 1)
  }

  method LastIndexBefore(s: string, c: char, until: nat) returns (i: int)
    requires until <= |s|
    ensures i == LastIndexOf(s, c, until)
  {
    i := until - 1;
    while 0 <= i
      invariant -1 <= i < until
      invariant LastIndexOf(s, c, until) == LastIndexOf(s, c, i + 1)
    {
      if s[i] == c {
        return;
      }
      i := i - 1;
    }
    i := -1;
  }
}
