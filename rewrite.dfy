/**
 * `process_output_line`: find `output.pde:<line>` in a line of compiler
 * output, replace it with the translated location, keep the column, drop
 * any further `:<number>` position fields, and print the result; and the
 * reassembly of the child process's output bytes into such lines.
 */
module Rewrite {
  import opened Text
  import opened Collect
  import opened Aggregate
  import opened Translate

  const MARKER := "output.pde:"

  predicate MarkerAt(s: string, q: nat)
  {
    q + |MARKER| <= |s| && s[q..q + |MARKER|] == MARKER
  }

  /** `strstr(s + p, "output.pde:")`. */
  function FindFrom(s: string, p: nat): (r: Option<nat>)
    requires p <= |s|
    ensures r.Some? ==> p <= r.value && MarkerAt(s, r.value)
                        && forall q :: p <= q < r.value ==> !MarkerAt(s, q)
    ensures r.None? ==> forall q :: p <= q ==> !MarkerAt(s, q)
    decreases |s| - p
  {
    if p + |MARKER| > |s| then None
    else if MarkerAt(s, p) then Some(p)
    else FindFrom(s, p + 1)
  }

  /** Two occurrences of the marker never overlap: no proper suffix of it
      is a prefix of it. */
  lemma NoOverlap(s: string, a: nat, b: nat)
    requires MarkerAt(s, a) && MarkerAt(s, b) && a < b
    ensures a + |MARKER| <= b
  {
    assert s[b] == s[b..b + |MARKER|][0] == 'o';
    forall k | a < k < a + |MARKER|
      ensures s[k] != 'o'
    {
      assert s[k] == s[a..a + |MARKER|][k - a];
    }
  }

  /** Nor does one start inside another: its first letter would have to
      be one of the later letters of the marker, none of which is `o`. */
  lemma NoMarkerInside(s: string, a: nat, k: nat)
    requires MarkerAt(s, a) && a < k < a + |MARKER|
    ensures !MarkerAt(s, k)
  {
    assert s[k] == s[a..a + |MARKER|][k - a];
    if k + |MARKER| <= |s| {
      assert s[k..k + |MARKER|][0] == s[k];
    }
  }

  /** The marker at `q` is followed by a positive number: the test
      `end_ptr != ptr && line_num > 0`. */
  predicate Accepted(s: string, q: nat)
  {
    MarkerAt(s, q) && DigitsEnd(s, q + |MARKER|) > q + |MARKER| && NumberAt(s, q + |MARKER|) > 0
  }

  /** `s[e..r]` is a run of whole `:<number>` fields and no such field
      follows it: the run holds only `:` and digits, starts with `:`, ends
      with a digit, every `:` in it is followed by a digit, it does not stop
      inside a number, and what is left does not start with `:` and a
      digit. */
  predicate FieldRun(s: string, e: nat, r: nat)
  {
    e <= r <= |s|
    && (forall k :: e <= k < r ==> s[k] == ':' || IsDigit(s[k]))
    && (forall k :: e <= k < r && s[k] == ':' ==> k + 1 < r && IsDigit(s[k + 1]))
    && (e < r ==> s[e] == ':' && IsDigit(s[r - 1]))
    && (e < r && r < |s| ==> !IsDigit(s[r]))
    && !(r + 1 < |s| && s[r] == ':' && IsDigit(s[r + 1]))
  }

  /** Where the loop that skips `:<number>` fields stops, starting at `e`:
      after a run of `:` and digits that starts with `:`, ends with a
      digit and does not stop inside a number, where no `:digit` follows.
      That every `:` in the run starts a number is `SkipPositionsRun`. */
  function SkipPositions(s: string, e: nat): (r: nat)
    requires e <= |s|
    ensures e <= r <= |s|
    ensures forall k :: e <= k < r ==> s[k] == ':' || IsDigit(s[k])
    ensures e < r ==> s[e] == ':' && IsDigit(s[r - 1])
    ensures e < r && r < |s| ==> !IsDigit(s[r])
    ensures !(r + 1 < |s| && s[r] == ':' && IsDigit(s[r + 1]))
    decreases |s| - e
  {
    if e < |s| && s[e] == ':' && DigitsEnd(s, e + 1) > e + 1 then
      DigitsEndRun(s, e + 1);
      SkipPositions(s, DigitsEnd(s, e + 1))
    else e
  }

  /** What the skip loop consumes is a run of whole `:<number>` fields. */
  lemma {:induction false} SkipPositionsRun(s: string, e: nat)
    requires e <= |s|
    ensures FieldRun(s, e, SkipPositions(s, e))
    decreases |s| - e
  {
    if e < |s| && s[e] == ':' && DigitsEnd(s, e + 1) > e + 1 {
      var d := DigitsEnd(s, e + 1);
      DigitsEndRun(s, e + 1);
      SkipPositionsRun(s, d);
    }
  }

  /** Only one stop point fits that description, so it is the loop's. */
  lemma {:induction false} SkipPositionsUnique(s: string, e: nat, r: nat)
    requires FieldRun(s, e, r)
    ensures SkipPositions(s, e) == r
    decreases |s| - e
  {
    if e < r {
      var d := DigitsEnd(s, e + 1);
      DigitsEndRun(s, e + 1);
      assert IsDigit(s[e + 1]);
      DigitsEndBefore(s, e + 1, r);
      assert FieldRun(s, d, r) by {
        if d < r {
          assert s[d] == ':';
        }
      }
      SkipPositionsUnique(s, d, r);
    }
  }

  /** A number read from `j` ends by `r` when no digit stands at `r`. */
  lemma {:induction false} DigitsEndBefore(s: string, j: nat, r: nat)
    requires j <= r <= |s| && (r < |s| ==> !IsDigit(s[r]))
    ensures DigitsEnd(s, j) <= r
    decreases |s| - j
  {
    if j < |s| && IsDigit(s[j]) {
      DigitsEndBefore(s, j + 1, r);
    }
  }

  /** `":%d"` of the column when a `:` follows the line number; with no
      digits after it `strtol` gives 0, so `":0"` is printed. */
  function ColumnText(s: string, e: nat): string
    requires e <= |s|
  {
    if e < |s| && s[e] == ':' then ":" + Decimal(NumberAt(s, e + 1)) else ""
  }

  /** The printed line when the marker at `q` is the one translated: the
      text before the FIRST marker of the line, the translation, the
      column, and the text after the skipped position fields. */
  function Rewritten(translate: int -> string, s: string, q: nat): string
    requires Accepted(s, q)
  {
    var e := DigitsEnd(s, q + |MARKER|);
    var first := FindFrom(s, 0).value;
    s[..first] + translate(NumberAt(s, q + |MARKER|)) + ColumnText(s, e)
      + s[SkipPositions(s, e)..]
  }

  /** The search loop from `p` on: a marker not followed by a positive
      number is skipped, and the search goes on right after it. The result
      is the marker that gets translated, if any. */
  function SearchFrom(s: string, p: nat): (r: Option<nat>)
    requires p <= |s|
    ensures r.Some? ==> p <= r.value && Accepted(s, r.value)
    decreases |s| - p
  {
    match FindFrom(s, p)
    case None => None
    case Some(q) => if Accepted(s, q) then Some(q) else SearchFrom(s, q + |MARKER|)
  }

  /** `translate_line` over the line map `m` of an output of `total` lines. */
  function Translator(m: seq<LineMapping>, total: int): int -> string
  {
    n => Translation(m, total, n)
  }

  /** What `process_output_line(s)` prints. */
  function RewriteLine(m: seq<LineMapping>, total: int, s: string): string
  {
    match SearchFrom(s, 0)
    case None => s
    case Some(q) => Rewritten(Translator(m, total), s, q)
  }

  // ---- what the rewriting does ----

  lemma {:induction false} SearchNone(s: string, p: nat)
    requires p <= |s| && forall q :: !Accepted(s, q)
    ensures SearchFrom(s, p) == None
    decreases |s| - p
  {
    var r := FindFrom(s, p);
    if r.Some? {
      SearchNone(s, r.value + |MARKER|);
    }
  }

  /** A line in which no `output.pde:` is followed by a positive number is
      printed unchanged. */
  lemma Passthrough(m: seq<LineMapping>, total: int, s: string)
    requires forall q :: !Accepted(s, q)
    ensures RewriteLine(m, total, s) == s
  {
    SearchNone(s, 0);
  }

  /** The search stops at the first accepted marker: the rejected ones
      before it are stepped over whole, so none of them can hide it. */
  lemma {:induction false} SearchFirst(s: string, p: nat, q: nat)
    requires p <= q && Accepted(s, q)
    requires forall q': nat :: p <= q' < q ==> !Accepted(s, q')
    ensures SearchFrom(s, p) == Some(q)
    decreases |s| - p
  {
    var r := FindFrom(s, p);
    assert r.Some?;
    var q1 := r.value;
    if q1 < q {
      assert !Accepted(s, q1) && SearchFrom(s, p) == SearchFrom(s, q1 + |MARKER|);
      NoOverlap(s, q1, q);
      SearchFirst(s, q1 + |MARKER|, q);
    } else {
      assert q1 == q;
    }
  }

  /** Conversely, the marker the search returns is the first accepted one. */
  lemma {:induction false} SearchFound(s: string, p: nat, q: nat)
    requires p <= |s| && SearchFrom(s, p) == Some(q)
    ensures forall q': nat :: p <= q' < q ==> !Accepted(s, q')
    decreases |s| - p
  {
    var r := FindFrom(s, p);
    assert r.Some?;
    var q1 := r.value;
    if q1 != q {
      assert !Accepted(s, q1) && SearchFrom(s, q1 + |MARKER|) == Some(q);
      SearchFound(s, q1 + |MARKER|, q);
    }
    forall q': nat | p <= q' < q
      ensures !Accepted(s, q')
    {
      if q' < q1 {
        assert !MarkerAt(s, q');
      } else if q1 < q' < q1 + |MARKER| {
        NoMarkerInside(s, q1, q');
      }
    }
  }

  /** Otherwise the first marker followed by a positive number `n` is the
      one translated, and the line printed is: the text before the first
      `output.pde:` of the line (which may be an earlier, rejected one),
      the translation of `n`, `:<column>` if a `:` follows `n`, and the
      rest of the line after every `:<number>` field that follows. */
  lemma AtFirstAccepted(m: seq<LineMapping>, total: int, s: string, q: nat)
    requires Accepted(s, q) && forall q': nat :: q' < q ==> !Accepted(s, q')
    ensures var first := FindFrom(s, 0);
            var e := DigitsEnd(s, q + |MARKER|);
            first.Some? && first.value <= q
            && RewriteLine(m, total, s)
               == s[..first.value] + Translation(m, total, NumberAt(s, q + |MARKER|))
                  + ColumnText(s, e) + s[SkipPositions(s, e)..]
  {
    SearchFirst(s, 0, q);
  }

  /** A `:` right after the line number with no digit after it still
      prints `":0"`, and the `:` itself stays in the rest of the line. */
  lemma ColonWithoutColumn(m: seq<LineMapping>, total: int, s: string, q: nat)
    requires Accepted(s, q) && forall q': nat :: q' < q ==> !Accepted(s, q')
    requires var e := DigitsEnd(s, q + |MARKER|);
             e < |s| && s[e] == ':' && (e + 1 == |s| || !IsDigit(s[e + 1]))
    ensures var e := DigitsEnd(s, q + |MARKER|);
            var first := FindFrom(s, 0).value;
            RewriteLine(m, total, s)
            == s[..first] + Translation(m, total, NumberAt(s, q + |MARKER|)) + ":0" + s[e..]
  {
    AtFirstAccepted(m, total, s, q);
    var e := DigitsEnd(s, q + |MARKER|);
    ZeroColumn(s, e);
  }

  lemma ZeroColumn(s: string, e: nat)
    requires e < |s| && s[e] == ':' && (e + 1 == |s| || !IsDigit(s[e + 1]))
    ensures ColumnText(s, e) == ":0" && SkipPositions(s, e) == e
  {
    assert DigitsEnd(s, e + 1) == e + 1;
    assert s[e + 1..e + 1] == [];
  }

  /** `strtol` reads exactly the digit run `d` placed at `j`. */
  lemma DigitsRun(s: string, j: nat, d: string)
    requires j + |d| <= |s| && s[j..j + |d|] == d && AllDigits(d)
    requires j + |d| == |s| || !IsDigit(s[j + |d|])
    ensures DigitsEnd(s, j) == j + |d| && NumberAt(s, j) == DigitsValue(d)
  {
    DigitsRunEnd(s, j, d);
  }

  lemma {:induction false} DigitsRunEnd(s: string, j: nat, d: string)
    requires j + |d| <= |s| && s[j..j + |d|] == d && AllDigits(d)
    requires j + |d| == |s| || !IsDigit(s[j + |d|])
    ensures DigitsEnd(s, j) == j + |d|
    decreases |d|
  {
    if |d| > 0 {
      assert s[j] == d[0];
      assert s[j + 1..j + |d|] == d[1..];
      DigitsRunEnd(s, j + 1, d[1..]);
    }
  }

  /** A marker-free `prefix` of `s` holds no marker of `s` before the
      one that follows it. */
  lemma MarkerFirst(s: string, prefix: string)
    requires |prefix| <= |s| && s[..|prefix|] == prefix
    requires forall q: nat :: !MarkerAt(prefix, q)
    requires MarkerAt(s, |prefix|)
    ensures forall q: nat :: q < |prefix| ==> !MarkerAt(s, q)
  {
    forall q: nat | q < |prefix|
      ensures !MarkerAt(s, q)
    {
      if q + |MARKER| <= |prefix| {
        assert !MarkerAt(prefix, q);
        assert s[q..q + |MARKER|] == s[..|prefix|][q..q + |MARKER|];
      } else if MarkerAt(s, q) {
        NoOverlap(s, q, |prefix|);
      }
    }
  }

  /** Where the pieces of `prefix + MARKER + d1 + ":" + d2 + f + rest` sit. */
  lemma Layout(prefix: string, d1: string, d2: string, f: string, rest: string)
    ensures var s := prefix + MARKER + d1 + ":" + d2 + f + rest;
            var a := |prefix| + |MARKER|;
            var e := a + |d1|;
            var r := e + 1 + |d2| + |f|;
            |s| == r + |rest|
            && s[..|prefix|] == prefix && s[|prefix|..a] == MARKER && s[a..e] == d1
            && s[e] == ':' && s[e..r] == ":" + d2 + f && s[r..] == rest
            && s == prefix + (MARKER + d1 + ":" + d2 + f + rest)
  {
  }

  /** A non-empty run of decimal digits, as `strtol` reads one. */
  predicate DigitRun(d: string)
  {
    d != [] && AllDigits(d)
  }

  /** The text `:d1:d2...` of further position fields, as processing-java
      writes them after the column (`L:C:L2:C2`). */
  function Fields(ds: seq<string>): string
    decreases |ds|
  {
    if ds == [] then "" else ":" + ds[0] + Fields(ds[1..])
  }

  /** What ends a message's position fields: no digit, and no `:` with a
      digit after it. */
  predicate NoFieldAhead(rest: string)
  {
    rest == [] || (!IsDigit(rest[0]) && !(rest[0] == ':' && 1 < |rest| && IsDigit(rest[1])))
  }

  /** Where the pieces of a field `:d` followed by `f` sit. */
  lemma FieldAt(s: string, e: nat, d: string, f: string)
    requires e + 1 + |d| + |f| <= |s| && s[e..e + 1 + |d| + |f|] == ":" + d + f
    ensures var j := e + 1 + |d|;
            s[e] == ':' && s[e + 1..j] == d && s[j..j + |f|] == f
  {
    var j := e + 1 + |d|;
    var w := s[e..j + |f|];
    assert s[e] == w[0];
    forall k | e + 1 <= k < j
      ensures s[k] == d[k - e - 1]
    {
      assert s[k] == w[k - e];
    }
    forall k | j <= k < j + |f|
      ensures s[k] == f[k - j]
    {
      assert s[k] == w[k - e];
    }
  }

  /** A field `:<digits>` in front of a run of whole fields makes a longer
      such run. */
  lemma FieldRunCons(s: string, e: nat, j: nat, r: nat)
    requires e + 1 < j <= r <= |s| && s[e] == ':'
    requires forall k :: e + 1 <= k < j ==> IsDigit(s[k])
    requires j == |s| || !IsDigit(s[j])
    requires FieldRun(s, j, r)
    ensures FieldRun(s, e, r)
  {
  }

  /** The fields `ds` at `e`, followed by no further field, are such a run. */
  lemma {:induction false} FieldsRun(s: string, e: nat, ds: seq<string>)
    requires e + |Fields(ds)| <= |s| && s[e..e + |Fields(ds)|] == Fields(ds)
    requires NoFieldAhead(s[e + |Fields(ds)|..])
    requires forall i :: 0 <= i < |ds| ==> DigitRun(ds[i])
    ensures FieldRun(s, e, e + |Fields(ds)|)
    decreases |ds|
  {
    if ds == [] {
      NoFieldRun(s, e);
    } else {
      FieldAt(s, e, ds[0], Fields(ds[1..]));
      FieldsRun(s, e + 1 + |ds[0]|, ds[1..]);
      FieldsCons(s, e, ds);
    }
  }

  /** Nothing is a run of whole fields when no field follows. */
  lemma NoFieldRun(s: string, e: nat)
    requires e <= |s| && NoFieldAhead(s[e..])
    ensures FieldRun(s, e, e)
  {
    if e < |s| {
      assert s[e] == s[e..][0];
      assert e + 1 < |s| ==> s[e + 1] == s[e..][1];
    }
  }

  /** The first field of `ds` in front of the run of the others. */
  lemma FieldsCons(s: string, e: nat, ds: seq<string>)
    requires ds != [] && DigitRun(ds[0])
    requires e + |Fields(ds)| <= |s| && s[e..e + |Fields(ds)|] == Fields(ds)
    requires NoFieldAhead(s[e + |Fields(ds)|..])
    requires FieldRun(s, e + 1 + |ds[0]|, e + |Fields(ds)|)
    ensures FieldRun(s, e, e + |Fields(ds)|)
  {
    FieldAt(s, e, ds[0], Fields(ds[1..]));
    NextNotDigit(s, e + 1 + |ds[0]|, ds[1..]);
    FieldStep(s, e, ds[0], e + |Fields(ds)|);
  }

  /** One field `:<digits>` at `e` in front of such a run. */
  lemma FieldStep(s: string, e: nat, d: string, r: nat)
    requires DigitRun(d)
    requires e + 1 + |d| <= r <= |s| && s[e] == ':' && s[e + 1..e + 1 + |d|] == d
    requires e + 1 + |d| == |s| || !IsDigit(s[e + 1 + |d|])
    requires FieldRun(s, e + 1 + |d|, r)
    ensures FieldRun(s, e, r)
  {
    var j := e + 1 + |d|;
    forall k | e + 1 <= k < j
      ensures IsDigit(s[k])
    {
      assert s[k] == s[e + 1..j][k - e - 1];
    }
    FieldRunCons(s, e, j, r);
  }

  /** The skip loop consumes exactly the position fields `ds` at `e`. */
  lemma FieldsSkipped(s: string, e: nat, ds: seq<string>)
    requires e + |Fields(ds)| <= |s| && s[e..e + |Fields(ds)|] == Fields(ds)
    requires NoFieldAhead(s[e + |Fields(ds)|..])
    requires forall i :: 0 <= i < |ds| ==> DigitRun(ds[i])
    ensures SkipPositions(s, e) == e + |Fields(ds)|
  {
    FieldsRun(s, e, ds);
    SkipPositionsUnique(s, e, e + |Fields(ds)|);
  }

  /** After a field's digits comes the next field's `:`, or the rest. */
  lemma NextNotDigit(s: string, j: nat, ds: seq<string>)
    requires j + |Fields(ds)| <= |s| && s[j..j + |Fields(ds)|] == Fields(ds)
    requires NoFieldAhead(s[j + |Fields(ds)|..])
    ensures j == |s| || !IsDigit(s[j])
  {
    if ds != [] {
      assert s[j] == s[j..j + |Fields(ds)|][0] == ':';
    } else if j < |s| {
      assert s[j] == s[j..][0];
    }
  }

  /** The column and the fields after it, in such a diagnostic: `:col` is
      printed and the skip loop consumes the column and every field. */
  lemma ColumnRun(s: string, e: nat, col: nat, ds: seq<string>)
    requires var f := ":" + Decimal(col) + Fields(ds);
             e + |f| <= |s| && s[e..e + |f|] == f && NoFieldAhead(s[e + |f|..])
    requires forall i :: 0 <= i < |ds| ==> DigitRun(ds[i])
    ensures ColumnText(s, e) == ":" + Decimal(col)
    ensures SkipPositions(s, e) == e + 1 + |Decimal(col)| + |Fields(ds)|
  {
    DecimalRoundTrip(col);
    ColumnDigits(s, e, Decimal(col), ds);
  }

  /** The same for a column written as the digits `d`. */
  lemma ColumnDigits(s: string, e: nat, d: string, ds: seq<string>)
    requires DigitRun(d)
    requires var f := ":" + d + Fields(ds);
             e + |f| <= |s| && s[e..e + |f|] == f && NoFieldAhead(s[e + |f|..])
    requires forall i :: 0 <= i < |ds| ==> DigitRun(ds[i])
    ensures ColumnText(s, e) == ":" + Decimal(DigitsValue(d))
    ensures SkipPositions(s, e) == e + 1 + |d| + |Fields(ds)|
  {
    FieldAt(s, e, d, Fields(ds));
    NextNotDigit(s, e + 1 + |d|, ds);
    ColumnValue(s, e, d);
    ColumnSkipped(s, e, d, ds);
  }

  /** The column is the first of the fields the skip loop consumes. */
  lemma ColumnSkipped(s: string, e: nat, d: string, ds: seq<string>)
    requires DigitRun(d)
    requires var f := ":" + d + Fields(ds);
             e + |f| <= |s| && s[e..e + |f|] == f && NoFieldAhead(s[e + |f|..])
    requires forall i :: 0 <= i < |ds| ==> DigitRun(ds[i])
    ensures SkipPositions(s, e) == e + 1 + |d| + |Fields(ds)|
  {
    var ds' := [d] + ds;
    assert ds'[0] == d && ds'[1..] == ds;
    assert Fields(ds') == ":" + d + Fields(ds);
    FieldsSkipped(s, e, ds');
  }

  /** `strtol` reads the column's digits `d` after the `:`. */
  lemma ColumnValue(s: string, e: nat, d: string)
    requires DigitRun(d)
    requires e + 1 + |d| <= |s| && s[e] == ':' && s[e + 1..e + 1 + |d|] == d
    requires e + 1 + |d| == |s| || !IsDigit(s[e + 1 + |d|])
    ensures ColumnText(s, e) == ":" + Decimal(DigitsValue(d))
  {
    DigitsRun(s, e + 1, d);
  }

  /** `AtFirstAccepted` with its pieces named. */
  lemma RewriteAt(m: seq<LineMapping>, total: int, s: string, q: nat, L: int, e: nat, column: string,
                  r: nat)
    requires Accepted(s, q) && forall q': nat :: q' < q ==> !MarkerAt(s, q')
    requires NumberAt(s, q + |MARKER|) == L && DigitsEnd(s, q + |MARKER|) == e
    requires ColumnText(s, e) == column
    requires SkipPositions(s, e) == r
    ensures r <= |s|
    ensures RewriteLine(m, total, s) == s[..q] + Translation(m, total, L) + column + s[r..]
  {
    AtFirstAccepted(m, total, s, q);
    var first := FindFrom(s, 0);
    assert first == Some(q) by {
      assert first.Some? && first.value <= q && MarkerAt(s, first.value);
    }
  }

  /** A compiler diagnostic for line `L` and column `col` of
      `output.pde`, with any further position fields `ds`, after a text
      holding no `output.pde:`, prints the translation of `L`, then `:col`,
      then the rest of the message. */
  lemma DiagnosticLine(m: seq<LineMapping>, total: int, prefix: string, L: nat, col: nat,
                       ds: seq<string>, rest: string)
    requires L > 0 && forall q: nat :: !MarkerAt(prefix, q)
    requires forall i :: 0 <= i < |ds| ==> DigitRun(ds[i])
    requires NoFieldAhead(rest)
    ensures RewriteLine(m, total, prefix + MARKER + Decimal(L) + ":" + Decimal(col) + Fields(ds) + rest)
            == prefix + Translation(m, total, L) + (":" + Decimal(col)) + rest
  {
    DecimalRoundTrip(L);
    DecimalRoundTrip(col);
    DiagnosticDigits(m, total, prefix, Decimal(L), Decimal(col), ds, rest);
  }

  /** The same for a line number and a column written as the digits `d1`
      and `d2`. */
  lemma DiagnosticDigits(m: seq<LineMapping>, total: int, prefix: string, d1: string, d2: string,
                         ds: seq<string>, rest: string)
    requires DigitRun(d1) && DigitsValue(d1) > 0 && DigitRun(d2)
    requires forall q: nat :: !MarkerAt(prefix, q)
    requires forall i :: 0 <= i < |ds| ==> DigitRun(ds[i])
    requires NoFieldAhead(rest)
    ensures RewriteLine(m, total, prefix + MARKER + d1 + ":" + d2 + Fields(ds) + rest)
            == prefix + Translation(m, total, DigitsValue(d1)) + (":" + Decimal(DigitsValue(d2))) + rest
  {
    var s := prefix + MARKER + d1 + ":" + d2 + Fields(ds) + rest;
    var a := |prefix| + |MARKER|;
    Layout(prefix, d1, d2, Fields(ds), rest);
    DigitsRun(s, a, d1);
    DiagnosticAt(m, total, s, prefix, d1, d2, ds, rest);
  }

  /** The same for a line `s` whose pieces are given by position. */
  lemma DiagnosticAt(m: seq<LineMapping>, total: int, s: string, prefix: string, d1: string,
                     d2: string, ds: seq<string>, rest: string)
    requires DigitRun(d1) && DigitRun(d2)
    requires forall q: nat :: !MarkerAt(prefix, q)
    requires forall i :: 0 <= i < |ds| ==> DigitRun(ds[i])
    requires NoFieldAhead(rest)
    requires var a := |prefix| + |MARKER|;
             var e := a + |d1|;
             var r := e + 1 + |d2| + |Fields(ds)|;
             |s| == r + |rest| && s[..|prefix|] == prefix && MarkerAt(s, |prefix|)
             && s[a..e] == d1 && s[e..r] == ":" + d2 + Fields(ds) && s[r..] == rest
    requires NumberAt(s, |prefix| + |MARKER|) > 0
    ensures RewriteLine(m, total, s)
            == prefix + Translation(m, total, NumberAt(s, |prefix| + |MARKER|))
               + (":" + Decimal(DigitsValue(d2))) + rest
  {
    var a := |prefix| + |MARKER|;
    var e := a + |d1|;
    var r := e + 1 + |d2| + |Fields(ds)|;
    assert s[e] == s[e..r][0];
    DigitsRunEnd(s, a, d1);
    MarkerFirst(s, prefix);
    DiagnosticColumn(s, e, d2, ds, rest);
    ColumnValue(s, e, d2);
    RewriteAt(m, total, s, |prefix|, NumberAt(s, a), e, ":" + Decimal(DigitsValue(d2)), r);
  }

  /** The column of such a line is the digits `d2` after a `:` at `e`,
      and the skip loop stops where `rest` begins. */
  lemma DiagnosticColumn(s: string, e: nat, d2: string, ds: seq<string>, rest: string)
    requires DigitRun(d2) && forall i :: 0 <= i < |ds| ==> DigitRun(ds[i])
    requires NoFieldAhead(rest)
    requires var r := e + 1 + |d2| + |Fields(ds)|;
             |s| == r + |rest| && s[e..r] == ":" + d2 + Fields(ds) && s[r..] == rest
    ensures SkipPositions(s, e) == e + 1 + |d2| + |Fields(ds)|
    ensures s[e] == ':' && s[e + 1..e + 1 + |d2|] == d2
    ensures e + 1 + |d2| == |s| || !IsDigit(s[e + 1 + |d2|])
  {
    FieldAt(s, e, d2, Fields(ds));
    NextNotDigit(s, e + 1 + |d2|, ds);
    ColumnSkipped(s, e, d2, ds);
  }

  /** A diagnostic at line `n` of sketch file `files[i]`, reported at its
      line of `output.pde` with any further position fields `ds`, prints as
      `relative:n:col` followed by the rest of the message, when
      `output.pde` stays below 65536 lines. */
  lemma DiagnosticReported(contents: map<string, seq<string>>, files: seq<FileEntry>, i: nat, n: int,
                           col: nat, ds: seq<string>, prefix: string, rest: string)
    requires i < |files| && 1 <= n <= |LinesOf(contents, files[i].path)|
    requires |Folded(contents, files)| <= LINE_WRAP
    requires forall q: nat :: !MarkerAt(prefix, q)
    requires forall k :: 0 <= k < |ds| ==> DigitRun(ds[k])
    requires NoFieldAhead(rest)
    ensures var L := Mapping(contents, files)[i].startLine + n - 1;
            L > 0
            && RewriteLine(Mapping(contents, files), |Folded(contents, files)|,
                           prefix + MARKER + Decimal(L) + ":" + Decimal(col) + Fields(ds) + rest)
               == prefix + (files[i].relative + ":" + Decimal(n)) + (":" + Decimal(col)) + rest
  {
    RangeInside(contents, files, i);
    var L := Mapping(contents, files)[i].startLine + n - 1;
    DiagnosticLine(Mapping(contents, files), |Folded(contents, files)|, prefix, L, col, ds, rest);
    RoundTrip(contents, files, i, n);
  }

  // ---- process_output_line ----

  /** The loop that skips further `:<number>` fields after the column. */
  method SkipPositionFields(s: string, e0: nat) returns (e: nat)
    requires e0 <= |s|
    ensures e == SkipPositions(s, e0)
  {
    e := e0;
    while e < |s| && s[e] == ':'
      invariant e0 <= e <= |s|
      invariant SkipPositions(s, e) == SkipPositions(s, e0)
      decreases |s| - e
    {
      var next := DigitsEnd(s, e + 1);
      if next == e + 1 {
        break;
      }
      e := next;
    }
  }

  /** The branch of `process_output_line` taken once the marker at `q` is
      followed by a positive line number. */
  method PrintTranslated(lineMap: array<LineMapping>, fileCount: nat, totalLines: int,
                         line: string, q: nat)
    returns (printed: string)
    requires fileCount <= lineMap.Length && Accepted(line, q)
    ensures printed == Rewritten(Translator(lineMap[..fileCount], totalLines), line, q)
  {
    var endPtr := DigitsEnd(line, q + |MARKER|);
    var lineNum := NumberAt(line, q + |MARKER|);
    var translated := TranslateLine(lineMap, fileCount, totalLines, lineNum);
    var colNum: int := -1;
    ghost var e := endPtr;
    if endPtr < |line| && line[endPtr] == ':' {
      var colEnd := DigitsEnd(line, endPtr + 1);
      colNum := NumberAt(line, endPtr + 1);
      if colEnd != endPtr + 1 {
        endPtr := colEnd;
      }
    }
    assert SkipPositions(line, endPtr) == SkipPositions(line, e);
    endPtr := SkipPositionFields(line, endPtr);
    var start := FindFrom(line, 0).value;
    var column := if colNum >= 0 then ":" + Decimal(colNum) else "";
    assert column == ColumnText(line, e);
    printed := line[..start] + translated + column + line[endPtr..];
  }

  /** `process_output_line`: returns the text it prints for `line`, before
      the newline. */
  method ProcessOutputLine(lineMap: array<LineMapping>, fileCount: nat, totalLines: int, line: string)
    returns (printed: string)
    requires fileCount <= lineMap.Length
    ensures printed == RewriteLine(lineMap[..fileCount], totalLines, line)
  {
    ghost var m := lineMap[..fileCount];
    var ptr: nat := 0;
    while true
      invariant ptr <= |line|
      invariant SearchFrom(line, ptr) == SearchFrom(line, 0)
      decreases |line| - ptr
    {
      var found := FindFrom(line, ptr);
      if found.None? {
        break;
      }
      var q := found.value;
      ptr := q + |MARKER|;
      var endPtr := DigitsEnd(line, ptr);
      var lineNum := NumberAt(line, ptr);
      if endPtr != ptr && lineNum > 0 {
        printed := PrintTranslated(lineMap, fileCount, totalLines, line, q);
        return;
      }
    }
    printed := line;
  }

  // ---- reassembly of the child's output into lines ----

  const MAX_LINE := 8192

  predicate IsTerminator(c: char)
  {
    c == '\n' || c == '\r'
  }

  predicate NoTerminator(s: string)
  {
    forall k :: 0 <= k < |s| ==> !IsTerminator(s[k])
  }

  /** What one output stream has produced so far: the lines already
      handed to `process_output_line`, and the line being assembled. */
  datatype Reassembly = Reassembly(lines: seq<string>, pending: string)

  /** One byte. A terminator ends a non-empty line (an empty one is not
      passed on); any other byte is kept while the buffer has room for it
      and its terminating NUL, and dropped after that. */
  function Consume(st: Reassembly, c: char): Reassembly
  {
    if IsTerminator(c) then
      (if |st.pending| > 0 then Reassembly(st.lines + [st.pending], "") else st)
    else if |st.pending| < MAX_LINE - 1 then Reassembly(st.lines, st.pending + [c])
    else st
  }

  function Run(st: Reassembly, bytes: seq<char>): Reassembly
    decreases |bytes|
  {
    if bytes == [] then st else Run(Consume(st, bytes[0]), bytes[1..])
  }

  /** The flush when the child has exited: a non-empty unfinished line is
      passed on too. */
  function Finish(st: Reassembly): seq<string>
  {
    if |st.pending| > 0 then st.lines + [st.pending] else st.lines
  }

  /** The string `process_output_line` sees: the buffer up to its first NUL. */
  function CString(s: string): (r: string)
    ensures r <= s && '\0' !in r
    ensures |r| < |s| ==> s[|r|] == '\0'
  {
    if s == [] || s[0] == '\0' then "" else [s[0]] + CString(s[1..])
  }

  /** `process_output_line` as a value: what it prints for one line. */
  function Rewriter(m: seq<LineMapping>, total: int): string -> string
  {
    line => RewriteLine(m, total, line)
  }

  /** What is printed for a sequence of assembled lines, each rewritten by
      `rewrite` and followed by a newline. */
  function PrintAll(rewrite: string -> string, lines: seq<string>): string
    decreases |lines|
  {
    if lines == [] then ""
    else PrintAll(rewrite, lines[..|lines| - 1]) + (rewrite(CString(lines[|lines| - 1])) + "\n")
  }

  lemma {:induction false} PrintAllAppend(rewrite: string -> string, a: seq<string>, b: seq<string>)
    ensures PrintAll(rewrite, a + b) == PrintAll(rewrite, a) + PrintAll(rewrite, b)
    decreases |b|
  {
    if b != [] {
      var b' := b[..|b| - 1];
      var last := rewrite(CString(b[|b| - 1])) + "\n";
      assert (a + b)[..|a + b| - 1] == a + b' && (a + b)[|a + b| - 1] == b[|b| - 1];
      calc {
        PrintAll(rewrite, a + b);
        PrintAll(rewrite, a + b') + last;
        { PrintAllAppend(rewrite, a, b'); }
        (PrintAll(rewrite, a) + PrintAll(rewrite, b')) + last;
        { Associative(PrintAll(rewrite, a), PrintAll(rewrite, b'), last); }
        PrintAll(rewrite, a) + (PrintAll(rewrite, b') + last);
      }
    } else {
      assert a + b == a;
    }
  }

  /** Reading a stream in chunks: only the concatenation of the chunks
      matters, not where they were split. */
  lemma {:induction false} RunAppend(st: Reassembly, a: seq<char>, b: seq<char>)
    ensures Run(st, a + b) == Run(Run(st, a), b)
    decreases |a|
  {
    if a != [] {
      assert (a + b)[0] == a[0] && (a + b)[1..] == a[1..] + b;
      RunAppend(Consume(st, a[0]), a[1..], b);
    } else {
      assert a + b == b;
    }
  }

  /** The line being assembled never exceeds `MAX_LINE - 1` characters,
      and completed lines are never taken back. */
  lemma {:induction false} RunBounded(st: Reassembly, bytes: seq<char>)
    requires |st.pending| <= MAX_LINE - 1
    ensures |Run(st, bytes).pending| <= MAX_LINE - 1
    ensures st.lines <= Run(st, bytes).lines
    decreases |bytes|
  {
    if bytes != [] {
      RunBounded(Consume(st, bytes[0]), bytes[1..]);
    }
  }

  // ---- reference: split at terminators, drop empty pieces, truncate ----

  /** Index of the first terminator of `s`, or `|s|`. */
  function TerminatorIndex(s: seq<char>): (i: nat)
    ensures i <= |s| && (i < |s| ==> IsTerminator(s[i]))
    ensures forall k :: 0 <= k < i ==> !IsTerminator(s[k])
  {
    if s == [] || IsTerminator(s[0]) then 0 else 1 + TerminatorIndex(s[1..])
  }

  /** The pieces of `s` between terminators, empty ones included. */
  function Split(s: seq<char>): seq<string>
    decreases |s|
  {
    var i := TerminatorIndex(s);
    if i == |s| then [s] else [s[..i]] + Split(s[i + 1..])
  }

  function Truncate(piece: string): string
  {
    if |piece| <= MAX_LINE - 1 then piece else piece[..MAX_LINE - 1]
  }

  /** The non-empty pieces, each cut to `MAX_LINE - 1` characters. */
  function Kept(pieces: seq<string>): seq<string>
    decreases |pieces|
  {
    if pieces == [] then []
    else (if pieces[0] == [] then [] else [Truncate(pieces[0])]) + Kept(pieces[1..])
  }

  lemma {:induction false} KeptAppend(a: seq<string>, b: seq<string>)
    ensures Kept(a + b) == Kept(a) + Kept(b)
    decreases |a|
  {
    if a != [] {
      assert (a + b)[0] == a[0] && (a + b)[1..] == a[1..] + b;
      KeptAppend(a[1..], b);
    } else {
      assert a + b == b;
    }
  }

  lemma KeptPiece(piece: string)
    ensures Kept([piece]) == if piece == [] then [] else [Truncate(piece)]
  {
    assert [piece][1..] == [];
  }

  /** A terminator right after a terminator-free `cur` ends the first piece. */
  lemma SplitAt(cur: string, c: char, rest: seq<char>)
    requires NoTerminator(cur)
    requires IsTerminator(c)
    ensures Split(cur + ([c] + rest)) == [cur] + Split(rest)
  {
    var whole := cur + ([c] + rest);
    assert whole[|cur|] == c;
    assert forall k :: 0 <= k < |cur| ==> whole[k] == cur[k];
    assert TerminatorIndex(whole) == |cur|;
    assert whole[..|cur|] == cur && whole[|cur| + 1..] == rest;
  }

  lemma SplitWhole(cur: string)
    requires NoTerminator(cur)
    ensures Split(cur) == [cur]
  {
    assert TerminatorIndex(cur) == |cur|;
  }

  /** Appending to the buffer keeps it the truncation of the whole piece. */
  lemma StepTruncates(lines: seq<string>, cur: string, c: char)
    requires !IsTerminator(c)
    ensures Consume(Reassembly(lines, Truncate(cur)), c) == Reassembly(lines, Truncate(cur + [c]))
  {
    if |cur| > MAX_LINE - 1 {
      assert (cur + [c])[..MAX_LINE - 1] == cur[..MAX_LINE - 1];
    }
  }

  /** The line a terminator completes, after the lines before it. */
  function Completed(lines: seq<string>, cur: string): seq<string>
  {
    if cur == [] then lines else lines + [Truncate(cur)]
  }

  lemma KeptTerminated(lines: seq<string>, cur: string, c: char, rest: seq<char>)
    requires NoTerminator(cur) && IsTerminator(c)
    ensures Completed(lines, cur) + Kept(Split(rest)) == lines + Kept(Split(cur + ([c] + rest)))
  {
    calc {
      Completed(lines, cur) + Kept(Split(rest));
      { KeptPiece(cur); }
      lines + (Kept([cur]) + Kept(Split(rest)));
      { KeptAppend([cur], Split(rest)); }
      lines + Kept([cur] + Split(rest));
      { SplitAt(cur, c, rest); }
      lines + Kept(Split(cur + ([c] + rest)));
    }
  }

  /** The terminator step of `RunSplit`, given the claim for the rest. */
  lemma SplitTerminated(lines: seq<string>, cur: string, c: char, rest: seq<char>)
    requires NoTerminator(cur) && IsTerminator(c)
    requires Finish(Run(Reassembly(Completed(lines, cur), Truncate([])), rest))
             == Completed(lines, cur) + Kept(Split([] + rest))
    ensures Finish(Run(Reassembly(lines, Truncate(cur)), [c] + rest)) == lines + Kept(Split(cur + ([c] + rest)))
  {
    var st := Reassembly(lines, Truncate(cur));
    assert ([c] + rest)[0] == c && ([c] + rest)[1..] == rest;
    assert Consume(st, c) == Reassembly(Completed(lines, cur), Truncate([]));
    assert [] + rest == rest;
    KeptTerminated(lines, cur, c, rest);
  }

  /** The other step of `RunSplit`, given the claim for the rest. */
  lemma SplitContinued(lines: seq<string>, cur: string, c: char, rest: seq<char>)
    requires !IsTerminator(c)
    requires Finish(Run(Reassembly(lines, Truncate(cur + [c])), rest)) == lines + Kept(Split((cur + [c]) + rest))
    ensures Finish(Run(Reassembly(lines, Truncate(cur)), [c] + rest)) == lines + Kept(Split(cur + ([c] + rest)))
  {
    assert ([c] + rest)[0] == c && ([c] + rest)[1..] == rest;
    StepTruncates(lines, cur, c);
    assert cur + ([c] + rest) == (cur + [c]) + rest;
  }

  lemma {:induction false} RunSplit(lines: seq<string>, cur: string, bytes: seq<char>)
    requires NoTerminator(cur)
    ensures Finish(Run(Reassembly(lines, Truncate(cur)), bytes)) == lines + Kept(Split(cur + bytes))
    decreases |bytes|
  {
    if bytes == [] {
      assert cur + bytes == cur;
      SplitWhole(cur);
      KeptPiece(cur);
    } else {
      var c, rest := bytes[0], bytes[1..];
      assert bytes == [c] + rest;
      if IsTerminator(c) {
        RunSplit(Completed(lines, cur), [], rest);
        SplitTerminated(lines, cur, c, rest);
      } else {
        assert NoTerminator(cur + [c]);
        RunSplit(lines, cur + [c], rest);
        SplitContinued(lines, cur, c, rest);
      }
    }
  }

  /** The lines one stream hands to `process_output_line`, from start to
      flush, are exactly the non-empty pieces of the byte stream between
      `\n`/`\r` terminators, each truncated to `MAX_LINE - 1` characters. */
  lemma StreamLines(bytes: seq<char>)
    ensures Finish(Run(Reassembly([], ""), bytes)) == Kept(Split(bytes))
  {
    assert Truncate([]) == "";
    RunSplit([], [], bytes);
    assert [] + bytes == bytes;
  }

  // ---- the per-stream line buffer ----

  /** The concatenation of the chunks read from one pipe, in order. */
  function Flatten(chunks: seq<seq<char>>): seq<char>
    decreases |chunks|
  {
    if chunks == [] then [] else Flatten(chunks[..|chunks| - 1]) + chunks[|chunks| - 1]
  }

  lemma PrintOne(m: seq<LineMapping>, total: int, lines: seq<string>, line: string)
    ensures (lines + [line])[|lines|..] == [line]
    ensures PrintAll(Rewriter(m, total), [line]) == RewriteLine(m, total, CString(line)) + "\n"
  {
    assert [line][..0] == [];
  }

  lemma PrintNone(rewrite: string -> string, lines: seq<string>)
    ensures PrintAll(rewrite, lines[|lines|..]) == ""
  {
    assert lines[|lines|..] == [];
  }

  /** Printing what was added in two steps is printing what was added. */
  lemma PrintedGrows(rewrite: string -> string, l0: seq<string>, l1: seq<string>, l2: seq<string>,
                      p0: string, p1: string, p2: string)
    requires l0 <= l1 <= l2
    requires p1 == p0 + PrintAll(rewrite, l1[|l0|..]) && p2 == p1 + PrintAll(rewrite, l2[|l1|..])
    ensures p2 == p0 + PrintAll(rewrite, l2[|l0|..])
  {
    var a, b := l1[|l0|..], l2[|l1|..];
    assert l2[|l0|..] == a + b;
    PrintAllAppend(rewrite, a, b);
    Associative(p0, PrintAll(rewrite, a), PrintAll(rewrite, b));
  }

  lemma PrintedFromStart(rewrite: string -> string, l1: seq<string>, l2: seq<string>, p1: string, p2: string)
    requires l1 <= l2
    requires p1 == PrintAll(rewrite, l1) && p2 == p1 + PrintAll(rewrite, l2[|l1|..])
    ensures p2 == PrintAll(rewrite, l2)
  {
    assert l2 == l1 + l2[|l1|..];
    PrintAllAppend(rewrite, l1, l2[|l1|..]);
  }

  lemma RunSnoc(st: Reassembly, bytes: seq<char>, i: nat)
    requires i < |bytes|
    ensures Run(st, bytes[..i + 1]) == Consume(Run(st, bytes[..i]), bytes[i])
  {
    assert bytes[..i + 1] == bytes[..i] + [bytes[i]];
    RunAppend(st, bytes[..i], [bytes[i]]);
    assert [bytes[i]][1..] == [];
  }

  /** One of the two line buffers (`stdout_line_buffer` with `stdout_pos`,
      or the `stderr` pair) together with what it has printed. */
  class LineAssembler {
    var buffer: array<char>
    var pos: nat
    /** The text this stream has printed to the console. */
    var printed: string
    /** The lines handed to `process_output_line` so far. */
    ghost var lines: seq<string>

    ghost predicate Valid()
      reads this
    {
      buffer.Length == MAX_LINE && pos <= MAX_LINE - 1
    }

    ghost function State(): Reassembly
      reads this, buffer
      requires pos <= buffer.Length
    {
      Reassembly(lines, buffer[..pos])
    }

    constructor ()
      ensures Valid() && State() == Reassembly([], "") && printed == ""
      ensures fresh(buffer)
    {
      buffer := new char[MAX_LINE](_ => '\0');
      pos := 0;
      printed := "";
      lines := [];
    }

    /** Hands the assembled line to `process_output_line` and prints the
        newline after it. */
    method EmitLine(lineMap: array<LineMapping>, fileCount: nat, totalLines: int)
      requires Valid() && fileCount <= lineMap.Length && pos > 0
      modifies this, buffer
      ensures Valid() && buffer == old(buffer) && pos == old(pos)
      ensures lines == old(lines) + [old(buffer[..pos])]
      ensures printed == old(printed) + PrintAll(Rewriter(lineMap[..fileCount], totalLines), lines[|old(lines)|..])
    {
      var line := buffer[..pos];
      buffer[pos] := '\0';
      var out := ProcessOutputLine(lineMap, fileCount, totalLines, CString(line));
      printed := printed + out + "\n";
      PrintOne(lineMap[..fileCount], totalLines, lines, line);
      lines := lines + [line];
    }

    /** The body of the loop over the bytes of a chunk. */
    method Feed(lineMap: array<LineMapping>, fileCount: nat, totalLines: int, c: char)
      requires Valid() && fileCount <= lineMap.Length
      modifies this, buffer
      ensures Valid() && buffer == old(buffer)
      ensures State() == Consume(old(State()), c)
      ensures old(lines) <= lines
      ensures printed == old(printed) + PrintAll(Rewriter(lineMap[..fileCount], totalLines), lines[|old(lines)|..])
    {
      if c == '\n' || c == '\r' {
        if pos > 0 {
          EmitLine(lineMap, fileCount, totalLines);
          pos := 0;
        } else {
          PrintNone(Rewriter(lineMap[..fileCount], totalLines), lines);
        }
      } else if pos < MAX_LINE - 1 {
        buffer[pos] := c;
        pos := pos + 1;
        assert buffer[..pos] == old(buffer[..pos]) + [c];
        PrintNone(Rewriter(lineMap[..fileCount], totalLines), lines);
      } else {
        PrintNone(Rewriter(lineMap[..fileCount], totalLines), lines);
      }
    }

    /** The loop over one chunk read from the pipe. */
    method FeedChunk(lineMap: array<LineMapping>, fileCount: nat, totalLines: int, chunk: seq<char>)
      requires Valid() && fileCount <= lineMap.Length
      modifies this, buffer
      ensures Valid() && buffer == old(buffer)
      ensures State() == Run(old(State()), chunk)
      ensures old(lines) <= lines
      ensures printed == old(printed) + PrintAll(Rewriter(lineMap[..fileCount], totalLines), lines[|old(lines)|..])
    {
      ghost var m := lineMap[..fileCount];
      ghost var s0, l0, p0 := State(), lines, printed;
      PrintNone(Rewriter(m, totalLines), lines);
      for i := 0 to |chunk|
        invariant Valid() && buffer == old(buffer)
        invariant State() == Run(s0, chunk[..i])
        invariant l0 <= lines
        invariant printed == p0 + PrintAll(Rewriter(m, totalLines), lines[|l0|..])
      {
        ghost var l1, p1 := lines, printed;
        RunSnoc(s0, chunk, i);
        Feed(lineMap, fileCount, totalLines, chunk[i]);
        PrintedGrows(Rewriter(m, totalLines), l0, l1, lines, p0, p1, printed);
      }
      assert chunk[..|chunk|] == chunk;
    }

    /** The flush of a partial line after the child has exited. */
    method Flush(lineMap: array<LineMapping>, fileCount: nat, totalLines: int)
      requires Valid() && fileCount <= lineMap.Length
      modifies this, buffer
      ensures Valid() && buffer == old(buffer) && pos == old(pos)
      ensures lines == Finish(old(State()))
      ensures printed == old(printed) + PrintAll(Rewriter(lineMap[..fileCount], totalLines), lines[|old(lines)|..])
    {
      if pos > 0 {
        EmitLine(lineMap, fileCount, totalLines);
      } else {
        PrintNone(Rewriter(lineMap[..fileCount], totalLines), lines);
      }
    }
  }

  /** Everything one output stream of the child contributes to the console:
      its chunks fed through a fresh line buffer, then the flush. It is the
      rewriting of each non-empty, `MAX_LINE - 1`-truncated piece of the
      stream between terminators, each followed by a newline, whatever the
      chunk boundaries. */
  method Relay(lineMap: array<LineMapping>, fileCount: nat, totalLines: int, chunks: seq<seq<char>>)
    returns (printed: string)
    requires fileCount <= lineMap.Length
    ensures printed == PrintAll(Rewriter(lineMap[..fileCount], totalLines), Kept(Split(Flatten(chunks))))
  {
    ghost var m := lineMap[..fileCount];
    var stream := new LineAssembler();
    for i := 0 to |chunks|
      invariant fresh(stream) && fresh(stream.buffer) && stream.Valid()
      invariant stream.State() == Run(Reassembly([], ""), Flatten(chunks[..i]))
      invariant stream.printed == PrintAll(Rewriter(m, totalLines), stream.lines)
    {
      ghost var before, p1 := stream.lines, stream.printed;
      stream.FeedChunk(lineMap, fileCount, totalLines, chunks[i]);
      assert chunks[..i + 1][..i] == chunks[..i];
      RunAppend(Reassembly([], ""), Flatten(chunks[..i]), chunks[i]);
      PrintedFromStart(Rewriter(m, totalLines), before, stream.lines, p1, stream.printed);
    }
    ghost var before, p1 := stream.lines, stream.printed;
    stream.Flush(lineMap, fileCount, totalLines);
    assert chunks[..|chunks|] == chunks;
    StreamLines(Flatten(chunks));
    PrintedFromStart(Rewriter(m, totalLines), before, stream.lines, p1, stream.printed);
    printed := stream.printed;
  }

  lemma {:induction false} SplitPieces(s: seq<char>)
    ensures forall j :: 0 <= j < |Split(s)| ==> NoTerminator(Split(s)[j])
    decreases |s|
  {
    var i := TerminatorIndex(s);
    if i < |s| {
      SplitPieces(s[i + 1..]);
    }
  }

  lemma {:induction false} KeptShape(pieces: seq<string>)
    requires forall j :: 0 <= j < |pieces| ==> NoTerminator(pieces[j])
    ensures forall j :: 0 <= j < |Kept(pieces)| ==>
              0 < |Kept(pieces)[j]| <= MAX_LINE - 1 && NoTerminator(Kept(pieces)[j])
    decreases |pieces|
  {
    if pieces != [] {
      KeptShape(pieces[1..]);
      assert NoTerminator(pieces[0]);
    }
  }

  /** Every line a stream buffers is non-empty, holds no `\n` or `\r`, and
      fits the buffer with its terminating NUL. Its C string may still be
      empty, when the line starts with a NUL. */
  lemma StreamLinesShape(bytes: seq<char>)
    ensures var lines := Finish(Run(Reassembly([], ""), bytes));
            forall j :: 0 <= j < |lines| ==> 0 < |lines[j]| <= MAX_LINE - 1 && NoTerminator(lines[j])
  {
    StreamLines(bytes);
    SplitPieces(bytes);
    KeptShape(Split(bytes));
  }
}
