/** The row loops: the generic one with its callback, its three users, and the two fast
    versions that bypass it. A row source is a list of rows that decode or fail, an error
    after the last row, and an error on close. */
module RowLoops {
  import opened Text

  datatype Error =
    | SetupFailed(code: int)   // columns, tags or metadata: found before the first row
    | ScanFailed(code: int)    // a row that does not decode
    | RowsFailed(code: int)    // reported by the source after the last row
    | CloseFailed(code: int)
    | Refused(code: int)       // returned by a callback
    | NoRows

  datatype Row<V> = Good(v: V) | Bad(code: int)

  datatype Source<V> = Source(setupCode: Option<int>, rows: seq<Row<V>>, finalCode: Option<int>, closeCode: Option<int>)
  {
    function Setup(): Option<Error> {
      if setupCode.Some? then Some(SetupFailed(setupCode.value)) else None
    }

    function Final(): Option<Error> {
      if finalCode.Some? then Some(RowsFailed(finalCode.value)) else None
    }

    function OnClose(): Option<Error> {
      if closeCode.Some? then Some(CloseFailed(closeCode.value)) else None
    }
  }

  /** A cursor over a source, as a loop owns it. */
  class Rows<V> {
    const src: Source<V>
    var pos: nat
    var closes: nat

    constructor (src: Source<V>)
      ensures this.src == src && pos == 0 && closes == 0
    {
      this.src := src;
      pos, closes := 0, 0;
    }

    method Next() returns (more: bool)
      requires pos <= |src.rows|
      modifies this`pos
      ensures more <==> old(pos) < |src.rows|
      ensures pos == if more then old(pos) + 1 else old(pos)
    {
      more := pos < |src.rows|;
      if more {
        pos := pos + 1;
      }
    }

    method Close() returns (err: Option<Error>)
      modifies this`closes
      ensures closes == old(closes) + 1 && err == src.OnClose()
    {
      closes := closes + 1;
      err := src.OnClose();
    }
  }

  // ---- the generic loop -----------------------------------------------------------------

  /** What a callback answers to a row; it may depend on all rows it was given. */
  datatype Decision = Continue | Stop | Fail(code: int)

  /** The rows given to the callback and the error, from a point of the loop on. */
  function Looped<V>(rows: seq<Row<V>>, final: Option<Error>, decide: seq<V> -> Decision, done: seq<V>)
    : (seq<V>, Option<Error>)
    decreases |rows|
  {
    if rows == [] then (done, final)
    else match rows[0]
         case Bad(code) => (done, Some(ScanFailed(code)))
         case Good(v) =>
           match decide(done + [v])
           case Continue => Looped(rows[1..], final, decide, done + [v])
           case Stop => (done + [v], None)
           case Fail(code) => (done + [v], Some(Refused(code)))
  }

  /** The first error wins; the close error counts only if there is none. */
  function Closing(err: Option<Error>, close: Option<Error>): Option<Error> {
    if err.Some? then err else close
  }

  function Iterated<V>(src: Source<V>, decide: seq<V> -> Decision): (seq<V>, Option<Error>) {
    if src.Setup().Some? then ([], src.Setup())
    else
      var (yielded, err) := Looped(src.rows, src.Final(), decide, []);
      (yielded, Closing(err, src.OnClose()))
  }

  /** What the loop did, told by the rows alone: the first `|yielded|` rows decoded, to the
      values yielded; the callback went on after all of them but perhaps the last; and the
      error is that of whatever ended the loop first, or the one on close. */
  ghost predicate Ran<V>(src: Source<V>, decide: seq<V> -> Decision, yielded: seq<V>, err: Option<Error>) {
    var k := |yielded|;
    var atClose := if src.closeCode.Some? then Some(CloseFailed(src.closeCode.value)) else None;
    if src.setupCode.Some? then yielded == [] && err == Some(SetupFailed(src.setupCode.value))
    else
      && k <= |src.rows| && (forall i :: 0 <= i < k ==> src.rows[i] == Good(yielded[i]))
      && (forall i :: 0 < i < k ==> decide(yielded[..i]) == Continue)
      && if k > 0 && decide(yielded) == Stop then err == atClose
         else if k > 0 && decide(yielded).Fail? then err == Some(Refused(decide(yielded).code))
         else if k < |src.rows| then src.rows[k].Bad? && err == Some(ScanFailed(src.rows[k].code))
         else err == if src.finalCode.Some? then Some(RowsFailed(src.finalCode.value)) else atClose
  }

  lemma {:induction false} LoopedRan<V>(src: Source<V>, decide: seq<V> -> Decision, done: seq<V>)
    requires src.setupCode.None? && |done| <= |src.rows|
    requires forall i :: 0 <= i < |done| ==> src.rows[i] == Good(done[i])
    requires forall i :: 0 < i <= |done| ==> decide(done[..i]) == Continue
    ensures var (yielded, err) := Looped(src.rows[|done|..], src.Final(), decide, done);
            Ran(src, decide, yielded, Closing(err, src.OnClose()))
    decreases |src.rows| - |done|
  {
    var rest := src.rows[|done|..];
    assert done[..|done|] == done;
    if rest != [] && rest[0].Good? {
      var done' := done + [rest[0].v];
      assert forall i :: 0 <= i <= |done| ==> done'[..i] == done[..i];
      if decide(done') == Continue {
        assert done'[..|done'|] == done' && rest[1..] == src.rows[|done'|..];
        LoopedRan(src, decide, done');
      }
    }
  }

  method IterateScan<V>(rows: Rows<V>, decide: seq<V> -> Decision) returns (yielded: seq<V>, err: Option<Error>)
    requires rows.pos == 0
    modifies rows
    ensures (yielded, err) == Iterated(rows.src, decide)
    ensures Ran(rows.src, decide, yielded, err)
    ensures rows.closes == old(rows.closes) + 1
  {
    if rows.src.Setup().None? {
      LoopedRan(rows.src, decide, []);
      assert rows.src.rows[0..] == rows.src.rows;
    }
    yielded, err := IterateOpen(rows, decide);
    var cerr := rows.Close();
    if cerr.Some? && err.None? {
      err := cerr;
    }
  }

  /** The loop before its deferred close. */
  method IterateOpen<V>(rows: Rows<V>, decide: seq<V> -> Decision) returns (yielded: seq<V>, err: Option<Error>)
    requires rows.pos == 0
    modifies rows`pos
    ensures rows.src.Setup().Some? ==> (yielded, err) == ([], rows.src.Setup())
    ensures rows.src.Setup().None? ==> (yielded, err) == Looped(rows.src.rows, rows.src.Final(), decide, [])
  {
    yielded := [];
    if rows.src.Setup().Some? {
      return [], rows.src.Setup();
    }
    var more := rows.Next();
    while more
      invariant rows.pos <= |rows.src.rows| && (more ==> rows.pos > 0) && (!more ==> rows.pos == |rows.src.rows|)
      invariant Looped(rows.src.rows, rows.src.Final(), decide, [])
             == Looped(rows.src.rows[if more then rows.pos - 1 else rows.pos..], rows.src.Final(), decide, yielded)
      decreases |rows.src.rows| - rows.pos, more
    {
      match rows.src.rows[rows.pos - 1] {
        case Bad(code) => return yielded, Some(ScanFailed(code));
        case Good(v) =>
          yielded := yielded + [v];
          match decide(yielded) {
            case Stop => return yielded, None;
            case Fail(code) => return yielded, Some(Refused(code));
            case Continue =>
          }
      }
      more := rows.Next();
    }
    err := rows.src.Final();
  }

  // ---- its users --------------------------------------------------------------------------

  /** The rows decoded before the first one that fails. */
  function Decoded<V>(rows: seq<Row<V>>): seq<V> {
    if rows == [] || rows[0].Bad? then [] else [rows[0].v] + Decoded(rows[1..])
  }

  /** The error a loop over all rows ends with. */
  function EndOf<V>(rows: seq<Row<V>>, final: Option<Error>): Option<Error> {
    if rows == [] then final
    else if rows[0].Bad? then Some(ScanFailed(rows[0].code))
    else EndOf(rows[1..], final)
  }

  lemma {:induction false} LoopedAll<V>(rows: seq<Row<V>>, final: Option<Error>, decide: seq<V> -> Decision,
                                        done: seq<V>)
    requires forall s :: decide(s) == Continue
    ensures Looped(rows, final, decide, done) == (done + Decoded(rows), EndOf(rows, final))
  {
    if rows == [] || rows[0].Bad? {
      assert done + [] == done;
    } else {
      LoopedAll(rows[1..], final, decide, done + [rows[0].v]);
      Assoc(done, [rows[0].v], Decoded(rows[1..]));
    }
  }

  /** The values of all rows before the first that does not decode, and that row's error or
      the one after the rows. */
  lemma {:induction false} DecodedRows<V>(rows: seq<Row<V>>, final: Option<Error>)
    ensures var vs := Decoded(rows);
            && |vs| <= |rows| && (forall i :: 0 <= i < |vs| ==> rows[i] == Good(vs[i]))
            && (if |vs| < |rows| then rows[|vs|].Bad? && EndOf(rows, final) == Some(ScanFailed(rows[|vs|].code))
                else EndOf(rows, final) == final)
  {
    if rows != [] && rows[0].Good? {
      DecodedRows(rows[1..], final);
    }
  }

  /** All rows up to the first that does not decode were read, to the values `vs`. */
  ghost predicate ReadAll<V>(src: Source<V>, vs: seq<V>) {
    && |vs| <= |src.rows| && (forall i :: 0 <= i < |vs| ==> src.rows[i] == Good(vs[i]))
    && (|vs| < |src.rows| ==> src.rows[|vs|].Bad?)
  }

  /** The error of a loop that read the rows `vs`: that of the row after them, that after
      the rows, or that on close, whichever comes first. A loop that was stopped meets only
      the last. */
  ghost predicate EndedWith<V>(src: Source<V>, vs: seq<V>, stopped: bool, err: Option<Error>) {
    if !stopped && |vs| < |src.rows| then src.rows[|vs|].Bad? && err == Some(ScanFailed(src.rows[|vs|].code))
    else if !stopped && src.finalCode.Some? then err == Some(RowsFailed(src.finalCode.value))
    else if src.closeCode.Some? then err == Some(CloseFailed(src.closeCode.value))
    else err == None
  }

  /** Appends to `dest` exactly the rows decoded before the first failure. */
  method SelectScan<V>(rows: Rows<V>, dest: seq<V>) returns (dest': seq<V>, err: Option<Error>)
    requires rows.pos == 0
    modifies rows
    ensures rows.closes == old(rows.closes) + 1
    ensures dest' == if rows.src.Setup().Some? then dest else dest + Decoded(rows.src.rows)
    ensures err == if rows.src.Setup().Some? then rows.src.Setup()
                   else Closing(EndOf(rows.src.rows, rows.src.Final()), rows.src.OnClose())
    ensures rows.src.setupCode.Some? ==> dest' == dest && err == Some(SetupFailed(rows.src.setupCode.value))
    ensures rows.src.setupCode.None? ==>
              exists vs :: ReadAll(rows.src, vs) && EndedWith(rows.src, vs, false, err) && dest' == dest + vs
  {
    DecodedRows(rows.src.rows, rows.src.Final());
    assert ReadAll(rows.src, Decoded(rows.src.rows));
    var decide := (s: seq<V>) => Continue;
    var yielded;
    yielded, err := IterateScan(rows, decide);
    LoopedAll(rows.src.rows, rows.src.Final(), decide, []);
    assert [] + Decoded(rows.src.rows) == Decoded(rows.src.rows);
    dest' := dest + yielded;
  }

  /** The value and error of reading at most one row through the generic loop. */
  function GetScanSpec<V>(src: Source<V>): (Option<V>, Option<Error>) {
    if src.Setup().Some? then (None, src.Setup())
    else if src.rows == [] then
      (None, if Closing(src.Final(), src.OnClose()).Some? then Closing(src.Final(), src.OnClose()) else Some(NoRows))
    else match src.rows[0]
         case Bad(code) => (None, Some(ScanFailed(code)))
         case Good(v) => (Some(v), src.OnClose())
  }

  /** What reading at most one row gives, but for the error when there is none: the value of
      the first row, or the first error. */
  ghost predicate HeadRead<V>(src: Source<V>, dest: Option<V>, err: Option<Error>) {
    if src.setupCode.Some? then dest == None && err == Some(SetupFailed(src.setupCode.value))
    else if src.rows != [] && src.rows[0].Good? then
      dest == Some(src.rows[0].v) && EndedWith(src, [src.rows[0].v], true, err)
    else if src.rows != [] then dest == None && err == Some(ScanFailed(src.rows[0].code))
    else dest == None && err.Some? && (src.finalCode.Some? ==> err == Some(RowsFailed(src.finalCode.value)))
  }

  method GetScan<V>(rows: Rows<V>) returns (dest: Option<V>, err: Option<Error>)
    requires rows.pos == 0
    modifies rows
    ensures rows.closes == old(rows.closes) + 1
    ensures (dest, err) == GetScanSpec(rows.src)
    ensures HeadRead(rows.src, dest, err)
    ensures rows.src.setupCode.None? && rows.src.rows == [] && rows.src.finalCode.None? ==>
              err == if rows.src.closeCode.Some? then Some(CloseFailed(rows.src.closeCode.value)) else Some(NoRows)
  {
    var yielded;
    yielded, err := IterateScan(rows, (s: seq<V>) => Stop);
    dest := if |yielded| > 0 then Some(yielded[0]) else None;
    if err.Some? {
      return;
    }
    if |yielded| == 0 {
      err := Some(NoRows);
    }
  }

  /** What the consumer of an iterator is given: a row, or a zero value with an error. */
  datatype Event<V> = Value(v: V) | Failure(e: Error)

  function AsValues<V>(vs: seq<V>): seq<Event<V>> {
    if vs == [] then [] else AsValues(vs[..|vs| - 1]) + [Value(vs[|vs| - 1])]
  }

  function Until<V>(goesOn: seq<V> -> bool): seq<V> -> Decision {
    s => if goesOn(s) then Continue else Stop
  }

  /** All the consumer is given: the rows, and last the error if there is one. */
  function IterEvents<V>(src: Source<V>, goesOn: seq<V> -> bool): seq<Event<V>> {
    var (yielded, err) := Iterated(src, Until(goesOn));
    AsValues(yielded) + (if err.Some? then [Failure(err.value)] else [])
  }

  /** What the consumer was given, told by the rows alone: event `i` is the value of row `i`;
      the values stop at the first row after which the consumer declines, at the first row
      that does not decode, or at the end; and at most one failure follows, with the error
      of whatever ended the loop. */
  ghost predicate Delivered<V>(src: Source<V>, goesOn: seq<V> -> bool, events: seq<Event<V>>, yielded: seq<V>,
                               err: Option<Error>) {
    var k := |yielded|;
    var declined := k > 0 && !goesOn(yielded);
    && |events| == k + (if err.Some? then 1 else 0)
    && (forall i :: 0 <= i < k ==> events[i] == Value(yielded[i]))
    && (err.Some? ==> events[k] == Failure(err.value))
    && if src.setupCode.Some? then k == 0 && err == Some(SetupFailed(src.setupCode.value))
       else
         && k <= |src.rows| && (forall i :: 0 <= i < k ==> src.rows[i] == Good(yielded[i]))
         && (forall i :: 0 < i < k ==> goesOn(yielded[..i]))
         && (declined || k == |src.rows| || src.rows[k].Bad?)
         && EndedWith(src, yielded, declined, err)
  }

  lemma {:induction false} ValuesInOrder<V>(vs: seq<V>)
    ensures |AsValues(vs)| == |vs| && forall i :: 0 <= i < |vs| ==> AsValues(vs)[i] == Value(vs[i])
  {
    if vs != [] {
      ValuesInOrder(vs[..|vs| - 1]);
    }
  }

  method SelectIter<V>(rows: Rows<V>, goesOn: seq<V> -> bool) returns (events: seq<Event<V>>)
    requires rows.pos == 0
    modifies rows
    ensures rows.closes == old(rows.closes) + 1
    ensures events == IterEvents(rows.src, goesOn)
    ensures exists yielded, err :: Delivered(rows.src, goesOn, events, yielded, err)
  {
    var yielded, err := IterateScan(rows, Until(goesOn));
    events := AsValues(yielded);
    if err.Some? {
      events := events + [Failure(err.value)];
    } else {
      assert events + [] == events;
    }
    ValuesInOrder(yielded);
    assert Delivered(rows.src, goesOn, events, yielded, err);
  }

  // ---- the fast versions -----------------------------------------------------------------------

  /** 8, 16, 32, ... */
  predicate Doubled(cap: nat) {
    cap == 8 || (cap > 8 && cap % 2 == 0 && Doubled(cap / 2))
  }

  /** The buffer after `n` rows: its capacity and how many elements growing has copied. */
  ghost predicate Grown(n: nat, cap: nat, copied: nat) {
    && n <= cap
    && (if n == 0 then cap == 0 else Doubled(cap))
    && (n > 8 ==> cap / 2 < n) && (0 < n <= 8 ==> cap == 8)
    && copied == (if n == 0 then 0 else cap - 8)
  }

  /** One more row fits, or the buffer doubles. */
  lemma GrownOneMore(n: nat, cap: nat, copied: nat)
    requires Grown(n, cap, copied)
    ensures n < cap ==> Grown(n + 1, cap, copied)
    ensures n == cap ==> Grown(n + 1, if cap == 0 then 8 else cap * 2, copied + n)
  {
  }

  /** In total less than two elements are copied per row. */
  lemma CopiesAreFew(n: nat, cap: nat, copied: nat)
    requires Grown(n, cap, copied) && n > 0
    ensures copied < 2 * n
  {
  }

  /** How many rows a loop over all rows tries to decode: the one that fails counts. */
  function Attempted<V>(rows: seq<Row<V>>): nat {
    |Decoded(rows)| + (if |Decoded(rows)| < |rows| then 1 else 0)
  }

  /** The select that decodes each row in place, into a buffer that doubles. Its result
      is the first `n` elements of `buffer`; the account of growth covers failing runs too. */
  method SelectG<V>(rows: Rows<V>, zero: V) returns (buffer: array<V>, n: nat, err: Option<Error>, ghost copied: nat)
    requires rows.pos == 0
    modifies rows
    ensures rows.closes == old(rows.closes) + 1
    ensures fresh(buffer) && n <= buffer.Length
    ensures var src := rows.src;
            var end := if src.Setup().Some? then src.Setup() else EndOf(src.rows, src.Final());
            && err == Closing(end, src.OnClose()) && (src.Setup().Some? ==> err == src.Setup())
            && buffer[..n] == (if end.Some? then [] else Decoded(src.rows))
            && Grown(if src.Setup().Some? then 0 else Attempted(src.rows), buffer.Length, copied)
    ensures rows.src.setupCode.Some? ==> n == 0 && err == Some(SetupFailed(rows.src.setupCode.value))
    ensures rows.src.setupCode.None? ==>
              exists vs :: ReadAll(rows.src, vs) && EndedWith(rows.src, vs, false, err)
                           && buffer[..n] == if |vs| < |rows.src.rows| || rows.src.finalCode.Some? then [] else vs
  {
    DecodedRows(rows.src.rows, rows.src.Final());
    assert ReadAll(rows.src, Decoded(rows.src.rows));
    buffer, n, err, copied := SelectOpen(rows, zero);
    var cerr := rows.Close();
    if cerr.Some? && err.None? {
      err := cerr;
    }
  }

  /** Decoding a row in place: what the row leaves at the address if it fails is unknown. */
  method ScanInto<V>(rows: Rows<V>, a: array<V>, i: nat) returns (err: Option<Error>)
    requires 0 < rows.pos <= |rows.src.rows| && i < a.Length
    modifies a
    ensures match rows.src.rows[rows.pos - 1]
            case Good(v) => err == None && a[..] == old(a[..])[i := v]
            case Bad(code) => err == Some(ScanFailed(code)) && a[..i] == old(a[..i]) && a[i + 1..] == old(a[i + 1..])
  {
    match rows.src.rows[rows.pos - 1]
    case Good(v) =>
      a[i] := v;
      err := None;
    case Bad(code) =>
      a[i] := *;
      err := Some(ScanFailed(code));
  }

  lemma DecodedStep<V>(rows: seq<Row<V>>, final: Option<Error>, i: nat)
    requires i < |rows|
    ensures rows[i].Good? ==>
              && Decoded(rows[i..]) == [rows[i].v] + Decoded(rows[i + 1..])
              && EndOf(rows[i..], final) == EndOf(rows[i + 1..], final)
    ensures rows[i].Bad? ==> Decoded(rows[i..]) == [] && EndOf(rows[i..], final) == Some(ScanFailed(rows[i].code))
  {
    assert rows[i..][1..] == rows[i + 1..];
  }

  method SelectOpen<V>(rows: Rows<V>, zero: V)
    returns (results: array<V>, n: nat, err: Option<Error>, ghost copied: nat)
    requires rows.pos == 0
    modifies rows`pos
    ensures fresh(results) && n <= results.Length
    ensures var src := rows.src;
            var end := if src.Setup().Some? then src.Setup() else EndOf(src.rows, src.Final());
            && err == end
            && results[..n] == (if end.Some? then [] else Decoded(src.rows))
            && Grown(if src.Setup().Some? then 0 else Attempted(src.rows), results.Length, copied)
  {
    hide Doubled;
    results, n, copied := new V[0], 0, 0;
    if rows.src.Setup().Some? {
      return results, 0, rows.src.Setup(), 0;
    }
    var all := rows.src.rows;
    var more := rows.Next();
    while more
      invariant fresh(results) && n <= results.Length && Grown(n, results.Length, copied)
      invariant rows.pos <= |all| && rows.pos == (if more then n + 1 else n) && (!more ==> rows.pos == |all|)
      invariant Decoded(all) == results[..n] + Decoded(all[n..])
      invariant EndOf(all, rows.src.Final()) == EndOf(all[n..], rows.src.Final())
      decreases |all| - rows.pos, more
    {
      GrownOneMore(n, results.Length, copied);
      if n == results.Length {
        var newCap := results.Length * 2;
        if newCap == 0 {
          newCap := 8;
        }
        var newResults := Enlarged(results, n, newCap, zero);
        copied := copied + n;
        results := newResults;
      }
      DecodedStep(all, rows.src.Final(), n);
      ghost var before := results[..n];
      err := ScanInto(rows, results, n);
      if err.Some? {
        return results, 0, err, copied;
      }
      assert results[..n + 1] == before + [all[n].v];
      Assoc(before, [all[n].v], Decoded(all[n + 1..]));
      n := n + 1;
      more := rows.Next();
    }
    assert all[n..] == [] && results[..n] + [] == results[..n];
    if rows.src.Final().Some? {
      return results, 0, rows.src.Final(), copied;
    }
    err := None;
  }

  /** A larger buffer with the same first `n` elements and zeros after them. */
  method Enlarged<V>(from: array<V>, n: nat, newCap: nat, zero: V) returns (a: array<V>)
    requires n <= from.Length && n <= newCap
    ensures fresh(a) && a.Length == newCap && a[..n] == from[..n]
  {
    a := new V[newCap](_ => zero);
    for i := 0 to n
      invariant a[..i] == from[..i]
    {
      a[i] := from[i];
      assert a[..i + 1] == a[..i] + [from[i]];
    }
  }

  function GetGSpec<V>(src: Source<V>): (Option<V>, Option<Error>) {
    if src.Setup().Some? then (None, src.Setup())
    else if src.rows == [] then (None, if src.Final().Some? then src.Final() else Some(NoRows))
    else match src.rows[0]
         case Bad(code) => (None, Some(ScanFailed(code)))
         case Good(v) => (Some(v), src.OnClose())
  }

  method GetG<V>(rows: Rows<V>) returns (res: Option<V>, err: Option<Error>)
    requires rows.pos == 0
    modifies rows
    ensures rows.closes == old(rows.closes) + 1
    ensures (res, err) == GetGSpec(rows.src)
    ensures HeadRead(rows.src, res, err)
    ensures rows.src.setupCode.None? && rows.src.rows == [] && rows.src.finalCode.None? ==> err == Some(NoRows)
  {
    res, err := GetOpen(rows);
    var cerr := rows.Close();
    if cerr.Some? && err.None? {
      err := cerr;
    }
  }

  method GetOpen<V>(rows: Rows<V>) returns (res: Option<V>, err: Option<Error>)
    requires rows.pos == 0
    modifies rows`pos
    ensures err.Some? ==> (res, err) == GetGSpec(rows.src)
    ensures err.None? ==> res.Some? && (res, rows.src.OnClose()) == GetGSpec(rows.src)
  {
    if rows.src.Setup().Some? {
      return None, rows.src.Setup();
    }
    var more := rows.Next();
    if !more {
      if rows.src.Final().Some? {
        return None, rows.src.Final();
      }
      return None, Some(NoRows);
    }
    match rows.src.rows[0]
    case Bad(code) => return None, Some(ScanFailed(code));
    case Good(v) => return Some(v), None;
  }

  // ---- where the versions agree and where they do not --------------------------------------------

  /** The two single-row reads agree on value and error, except exactly when there is no
      row, no error but the one on close: then one reports the close error and the other
      that there was no row. */
  lemma GetsAgree<V>(src: Source<V>)
    ensures GetScanSpec(src) != GetGSpec(src)
            <==> src.Setup().None? && src.rows == [] && src.Final().None? && src.OnClose().Some?
  {
  }

  /** The consumer is given rows in order until it stops or the source ends: what it saw
      is the decoded prefix, cut where it first declined to go on. */
  lemma {:induction false} IterYieldsPrefix<V>(rows: seq<Row<V>>, final: Option<Error>, goesOn: seq<V> -> bool,
                                               done: seq<V>)
    ensures var (yielded, err) := Looped(rows, final, Until(goesOn), done);
            && done <= yielded <= done + Decoded(rows)
            && (forall i :: |done| < i < |yielded| ==> goesOn(yielded[..i]))
            && (if |yielded| > |done| && !goesOn(yielded) then err == None
                else yielded == done + Decoded(rows) && err == EndOf(rows, final))
    decreases |rows|
  {
    if rows == [] || rows[0].Bad? {
      assert done + [] == done;
    } else {
      var done' := done + [rows[0].v];
      Assoc(done, [rows[0].v], Decoded(rows[1..]));
      if goesOn(done') {
        IterYieldsPrefix(rows[1..], final, goesOn, done');
        var yielded := Looped(rows[1..], final, Until(goesOn), done').0;
        assert yielded[..|done'|] == done';
        forall i | |done| < i < |yielded|
          ensures goesOn(yielded[..i])
        {
          if i == |done'| {
            assert yielded[..i] == done';
          }
        }
      } else {
        assert done' <= done' + Decoded(rows[1..]);
      }
    }
  }

  /** The consumer is given something after it declined to go on. */
  ghost predicate DisturbedAfterStop<V>(src: Source<V>, goesOn: seq<V> -> bool) {
    var yielded := Iterated(src, Until(goesOn)).0;
    exists i :: 0 < i <= |yielded| && !goesOn(yielded[..i]) && i < |IterEvents(src, goesOn)|
  }

  /** The iterator calls its consumer again after the consumer stopped if and only if
      the loop starts, the consumer stops at some decoded row, and closing the rows fails. */
  lemma StoppedConsumer<V>(src: Source<V>, goesOn: seq<V> -> bool)
    ensures DisturbedAfterStop(src, goesOn)
            <==> src.Setup().None? && src.OnClose().Some?
                 && exists i :: 0 < i <= |Decoded(src.rows)| && !goesOn(Decoded(src.rows)[..i])
  {
    var (yielded, err) := Iterated(src, Until(goesOn));
    IterYieldsPrefix(src.rows, src.Final(), goesOn, []);
    ValuesInOrder(yielded);
    var all := Decoded(src.rows);
    assert [] + all == all && yielded[..|yielded|] == yielded;
    if src.Setup().None? {
      if yielded == [] || goesOn(yielded) {
        NeverStopped(all, goesOn);
      } else {
        assert all[..|yielded|] == yielded;
      }
    }
  }

  lemma NeverStopped<V>(all: seq<V>, goesOn: seq<V> -> bool)
    requires forall i :: 0 < i < |all| ==> goesOn(all[..i])
    requires all == [] || goesOn(all)
    ensures forall i :: 0 < i <= |all| ==> goesOn(all[..i])
  {
    assert all[..|all|] == all;
  }

  /** A source whose close fails, and a consumer that stops at once. */
  lemma StoppedConsumerIsCalledAgain()
    ensures DisturbedAfterStop(Source(None, [Good(0)], None, Some(1)), (s: seq<int>) => false)
  {
    var src, goesOn := Source(None, [Good(0)], None, Some(1)), (s: seq<int>) => false;
    StoppedConsumer(src, goesOn);
    assert src.rows[1..] == [];
    assert Decoded(src.rows) == [0];
    assert !goesOn(Decoded(src.rows)[..1]);
  }

  /** A source without rows whose close fails. */
  lemma GetsDiffer()
    ensures GetScanSpec<int>(Source(None, [], None, Some(1))) == (None, Some(CloseFailed(1)))
    ensures GetGSpec<int>(Source(None, [], None, Some(1))) == (None, Some(NoRows))
  {
  }
}
