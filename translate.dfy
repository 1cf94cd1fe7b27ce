/**
 * `translate_line`: map a line number reported against `output.pde` back to
 * a fragment and a line in it.  The Java class file stores line numbers in
 * 16 bits, so a reported number may be the true one minus a multiple of
 * 65536: the translator tries the number plus `k * 65536` for `k < 10`,
 * stops once that passes `total_lines`, and keeps, for each try, the first
 * line-map entry whose range holds it.
 */
module Translate {
  import opened Text
  import opened Collect
  import opened Aggregate

  const LINE_WRAP := 65536
  const MAX_CANDIDATES := 10

  /** `MatchCandidate`. */
  datatype Candidate = Candidate(fileIndex: nat, actualLine: int, originalLine: int)

  predicate Contains(e: LineMapping, line: int)
  {
    e.startLine <= line <= e.endLine
  }

  /** The first entry from `i` on whose range holds `line`. */
  function FirstFrom(m: seq<LineMapping>, line: int, i: nat): (r: Option<nat>)
    requires i <= |m|
    ensures r.Some? ==> i <= r.value < |m| && Contains(m[r.value], line)
                        && forall j :: i <= j < r.value ==> !Contains(m[j], line)
    ensures r.None? ==> forall j :: i <= j < |m| ==> !Contains(m[j], line)
    decreases |m| - i
  {
    if i == |m| then None
    else if Contains(m[i], line) then Some(i)
    else FirstFrom(m, line, i + 1)
  }

  /** The inner search of `translate_line`: the first range, in file order, that holds the line. */
  function FirstContaining(m: seq<LineMapping>, line: int): Option<nat>
  {
    FirstFrom(m, line, 0)
  }

  /** The candidate recorded for the line `c`, if a range holds it. */
  function Found(m: seq<LineMapping>, c: int): seq<Candidate>
  {
    match FirstContaining(m, c)
    case None => []
    case Some(i) => [Candidate(i, c, c - m[i].startLine + 1)]
  }

  /** What the turn `k` of the outer loop adds, provided the loop reaches it:
      nothing once `k * 65536` reaches `total_lines` or the candidate line
      passes it. */
  function Try(m: seq<LineMapping>, total: int, lineNum: int, k: nat): seq<Candidate>
  {
    if k * LINE_WRAP < total && lineNum + k * LINE_WRAP <= total
    then Found(m, lineNum + k * LINE_WRAP)
    else []
  }

  /** The candidates of the turns before `k`. */
  function Tried(m: seq<LineMapping>, total: int, lineNum: int, k: nat): seq<Candidate>
  {
    if k == 0 then [] else Tried(m, total, lineNum, k - 1) + Try(m, total, lineNum, k - 1)
  }

  /** The candidates `translate_line(lineNum, ...)` collects. */
  function Candidates(m: seq<LineMapping>, total: int, lineNum: int): seq<Candidate>
  {
    Tried(m, total, lineNum, MAX_CANDIDATES)
  }

  predicate IndicesIn(m: seq<LineMapping>, cs: seq<Candidate>)
  {
    forall j :: 0 <= j < |cs| ==> cs[j].fileIndex < |m|
  }

  /** `"%s:%d"` of one candidate. */
  function Location(m: seq<LineMapping>, c: Candidate): string
    requires c.fileIndex < |m|
  {
    m[c.fileIndex].relative + ":" + Decimal(c.originalLine)
  }

  /** The `part` the `strncat` loop appends for candidate `j`. */
  function Part(m: seq<LineMapping>, cs: seq<Candidate>, j: nat): string
    requires j < |cs| && IndicesIn(m, cs)
  {
    (if j > 0 then " or " else "") + Location(m, cs[j])
  }

  /** The text the `strncat` loop has built after `j` candidates. */
  function Alternatives(m: seq<LineMapping>, cs: seq<Candidate>, j: nat): string
    requires j <= |cs| && IndicesIn(m, cs)
  {
    if j == 0 then "" else Alternatives(m, cs, j - 1) + Part(m, cs, j - 1)
  }

  /** The three output forms of `translate_line`. */
  function Render(m: seq<LineMapping>, lineNum: int, cs: seq<Candidate>): string
    requires IndicesIn(m, cs)
  {
    if |cs| == 0 then "output.pde:" + Decimal(lineNum)
    else if |cs| == 1 then Location(m, cs[0])
    else Alternatives(m, cs, |cs|) + " (line wrapping)"
  }

  /** What `translate_line(lineNum, ...)` writes, given the line map and `total_lines`. */
  function Translation(m: seq<LineMapping>, total: int, lineNum: int): string
  {
    TriedIndices(m, total, lineNum, MAX_CANDIDATES);
    Render(m, lineNum, Candidates(m, total, lineNum))
  }

  lemma {:induction false} TriedIndices(m: seq<LineMapping>, total: int, lineNum: int, k: nat)
    ensures IndicesIn(m, Tried(m, total, lineNum, k))
    decreases k
  {
    if k > 0 {
      TriedIndices(m, total, lineNum, k - 1);
      var prev: seq<Candidate> := Tried(m, total, lineNum, k - 1);
      var t: seq<Candidate> := Try(m, total, lineNum, k - 1);
      forall j | 0 <= j < |prev + t|
        ensures (prev + t)[j].fileIndex < |m|
      {
        if j >= |prev| {
          assert (prev + t)[j] == t[j - |prev|];
        }
      }
    }
  }

  /** Once the loop guard fails or the candidate line passes `total_lines`,
      no later turn adds anything: the wrapped offsets only grow. */
  lemma {:induction false} TriedStable(m: seq<LineMapping>, total: int, lineNum: int, k: nat, n: nat)
    requires k <= n <= MAX_CANDIDATES
    requires k < MAX_CANDIDATES ==> !(k * LINE_WRAP < total) || lineNum + k * LINE_WRAP > total
    ensures Tried(m, total, lineNum, n) == Tried(m, total, lineNum, k)
    decreases n
  {
    if k < n {
      TriedStable(m, total, lineNum, k, n - 1);
      assert (n - 1) * LINE_WRAP >= k * LINE_WRAP;
      assert Try(m, total, lineNum, n - 1) == [];
      assert Tried(m, total, lineNum, n - 1) + [] == Tried(m, total, lineNum, n - 1);
    }
  }

  // ---- the loops ----

  method FindRange(lineMap: array<LineMapping>, fileCount: nat, line: int) returns (r: Option<nat>)
    requires fileCount <= lineMap.Length
    ensures r == FirstContaining(lineMap[..fileCount], line)
  {
    ghost var m := lineMap[..fileCount];
    var i := 0;
    while i < fileCount
      invariant 0 <= i <= fileCount
      invariant FirstFrom(m, line, i) == FirstContaining(m, line)
    {
      if lineMap[i].startLine <= line && line <= lineMap[i].endLine {
        return Some(i);
      }
      i := i + 1;
    }
    return None;
  }

  /** The candidate search loop, filling `candidates[0..candidate_count)`. */
  method CollectCandidates(lineMap: array<LineMapping>, fileCount: nat, totalLines: int, lineNum: int)
    returns (candidates: array<Candidate>, candidateCount: nat)
    requires fileCount <= lineMap.Length
    ensures candidates.Length == MAX_CANDIDATES && candidateCount <= MAX_CANDIDATES
    ensures candidates[..candidateCount] == Candidates(lineMap[..fileCount], totalLines, lineNum)
  {
    ghost var m := lineMap[..fileCount];
    candidates := new Candidate[MAX_CANDIDATES];
    candidateCount := 0;
    var k := 0;
    while k * LINE_WRAP < totalLines && k < MAX_CANDIDATES
      invariant 0 <= candidateCount <= k <= MAX_CANDIDATES
      invariant candidates[..candidateCount] == Tried(m, totalLines, lineNum, k)
      decreases MAX_CANDIDATES - k
    {
      var candidateLine := lineNum + k * LINE_WRAP;
      if candidateLine > totalLines {
        break;
      }
      candidateCount := Record(lineMap, fileCount, m, candidates, candidateCount, candidateLine);
      k := k + 1;
    }
    TriedStable(m, totalLines, lineNum, k, MAX_CANDIDATES);
  }

  /** The body of the outer loop for one candidate line that is in bounds. */
  method Record(lineMap: array<LineMapping>, fileCount: nat, ghost m: seq<LineMapping>,
                candidates: array<Candidate>, count: nat, candidateLine: int)
    returns (count': nat)
    requires fileCount <= lineMap.Length && m == lineMap[..fileCount] && count < candidates.Length
    modifies candidates
    ensures count' <= count + 1
    ensures candidates[..count'] == old(candidates[..count]) + Found(m, candidateLine)
  {
    var found := FindRange(lineMap, fileCount, candidateLine);
    count' := count;
    if found.Some? {
      var i := found.value;
      candidates[count] := Candidate(i, candidateLine, candidateLine - lineMap[i].startLine + 1);
      count' := count + 1;
      assert candidates[..count'] == old(candidates[..count]) + [candidates[count]];
    }
  }

  /** The report: the literal location, one location, or all of them. */
  method RenderCandidates(lineMap: array<LineMapping>, fileCount: nat, lineNum: int,
                          candidates: array<Candidate>, candidateCount: nat)
    returns (output: string)
    requires fileCount <= lineMap.Length && candidateCount <= candidates.Length
    requires IndicesIn(lineMap[..fileCount], candidates[..candidateCount])
    ensures output == Render(lineMap[..fileCount], lineNum, candidates[..candidateCount])
  {
    ghost var m := lineMap[..fileCount];
    ghost var cs := candidates[..candidateCount];
    if candidateCount == 0 {
      output := "output.pde:" + Decimal(lineNum);
    } else if candidateCount == 1 {
      var i := candidates[0].fileIndex;
      output := lineMap[i].relative + ":" + Decimal(candidates[0].originalLine);
    } else {
      var temp := JoinCandidates(lineMap, fileCount, candidates, candidateCount);
      output := temp + " (line wrapping)";
    }
  }

  /** The `strncat` loop over all candidates. */
  method JoinCandidates(lineMap: array<LineMapping>, fileCount: nat, candidates: array<Candidate>, candidateCount: nat)
    returns (temp: string)
    requires fileCount <= lineMap.Length && candidateCount <= candidates.Length
    requires IndicesIn(lineMap[..fileCount], candidates[..candidateCount])
    ensures temp == Alternatives(lineMap[..fileCount], candidates[..candidateCount], candidateCount)
  {
    ghost var m := lineMap[..fileCount];
    ghost var cs := candidates[..candidateCount];
    temp := "";
    for j := 0 to candidateCount
      invariant temp == Alternatives(m, cs, j)
    {
      var i := candidates[j].fileIndex;
      assert cs[j] == candidates[j] && i < |m| && m[i] == lineMap[i];
      var part := (if j > 0 then " or " else "") + (lineMap[i].relative + ":" + Decimal(candidates[j].originalLine));
      assert part == Part(m, cs, j);
      temp := temp + part;
    }
  }

  /** `translate_line(lineNum, output, ...)`. */
  method TranslateLine(lineMap: array<LineMapping>, fileCount: nat, totalLines: int, lineNum: int)
    returns (output: string)
    requires fileCount <= lineMap.Length
    ensures output == Translation(lineMap[..fileCount], totalLines, lineNum)
  {
    var candidates, candidateCount := CollectCandidates(lineMap, fileCount, totalLines, lineNum);
    TriedIndices(lineMap[..fileCount], totalLines, lineNum, MAX_CANDIDATES);
    output := RenderCandidates(lineMap, fileCount, lineNum, candidates, candidateCount);
  }

  // ---- what the candidates are ----

  /** A candidate from one of the turns `w < k`: it is the reported number
      plus `w * 65536`, at most `total_lines`, in the range of the first entry
      that holds it, at a line of at least 1 in that fragment. */
  predicate Admissible(m: seq<LineMapping>, total: int, lineNum: int, c: Candidate, k: nat)
  {
    && c.fileIndex < |m|
    && Contains(m[c.fileIndex], c.actualLine)
    && (forall e :: 0 <= e < c.fileIndex ==> !Contains(m[e], c.actualLine))
    && c.originalLine == c.actualLine - m[c.fileIndex].startLine + 1
    && c.originalLine >= 1
    && c.actualLine <= total
    && (exists w :: 0 <= w < k && c.actualLine == lineNum + w * LINE_WRAP)
  }

  /** At most one candidate per turn, each admissible, in increasing order. */
  predicate WellFormed(m: seq<LineMapping>, total: int, lineNum: int, cs: seq<Candidate>, k: nat)
  {
    && |cs| <= k
    && (forall j :: 0 <= j < |cs| ==> Admissible(m, total, lineNum, cs[j], k))
    && (forall j1, j2 :: 0 <= j1 < j2 < |cs| ==> cs[j1].actualLine < cs[j2].actualLine)
  }

  lemma FoundAdmissible(m: seq<LineMapping>, total: int, lineNum: int, k: nat)
    requires k * LINE_WRAP < total && lineNum + k * LINE_WRAP <= total
    ensures var f := Found(m, lineNum + k * LINE_WRAP);
            f == [] || (|f| == 1 && Admissible(m, total, lineNum, f[0], k + 1)
                        && f[0].actualLine == lineNum + k * LINE_WRAP)
  {
    var c := lineNum + k * LINE_WRAP;
    var r := FirstContaining(m, c);
    if r.Some? {
      var x := Found(m, c)[0];
      assert x == Candidate(r.value, c, c - m[r.value].startLine + 1);
      assert Admissible(m, total, lineNum, x, k + 1);
    }
  }

  lemma {:induction false} TriedWellFormed(m: seq<LineMapping>, total: int, lineNum: int, k: nat)
    ensures WellFormed(m, total, lineNum, Tried(m, total, lineNum, k), k)
    decreases k
  {
    if k > 0 {
      var p := k - 1;
      TriedWellFormed(m, total, lineNum, p);
      var prev: seq<Candidate> := Tried(m, total, lineNum, p);
      var t: seq<Candidate> := Try(m, total, lineNum, p);
      var c := lineNum + p * LINE_WRAP;
      assert Tried(m, total, lineNum, k) == prev + t;
      forall j | 0 <= j < |prev|
        ensures Admissible(m, total, lineNum, prev[j], k) && prev[j].actualLine < c
      {
        var w :| 0 <= w < p && prev[j].actualLine == lineNum + w * LINE_WRAP;
        assert w * LINE_WRAP < p * LINE_WRAP;
      }
      if t != [] {
        FoundAdmissible(m, total, lineNum, p);
      }
      forall j | 0 <= j < |prev + t|
        ensures Admissible(m, total, lineNum, (prev + t)[j], k)
      {
        if j >= |prev| {
          assert (prev + t)[j] == t[j - |prev|];
        }
      }
      forall j1, j2 | 0 <= j1 < j2 < |prev + t|
        ensures (prev + t)[j1].actualLine < (prev + t)[j2].actualLine
      {
        if j2 >= |prev| {
          assert (prev + t)[j2] == t[j2 - |prev|];
        }
      }
    }
  }

  /** The candidates: at most ten, in ascending order, each at most
      `total_lines`, congruent to the reported number modulo 65536 (it is the
      reported number plus `w * 65536` for some `w < 10`), held by the first
      range that holds it, at a line of at least 1 in that fragment. */
  lemma CandidatesShape(m: seq<LineMapping>, total: int, lineNum: int)
    ensures WellFormed(m, total, lineNum, Candidates(m, total, lineNum), MAX_CANDIDATES)
  {
    TriedWellFormed(m, total, lineNum, MAX_CANDIDATES);
  }

  predicate HasLine(cs: seq<Candidate>, line: int)
  {
    exists j :: 0 <= j < |cs| && cs[j].actualLine == line
  }

  /** `line` is the reported number plus `w * 65536` for some `w < k`, at
      most `total_lines` and held by some range. */
  predicate Reachable(m: seq<LineMapping>, total: int, lineNum: int, k: nat, line: int)
  {
    exists w :: 0 <= w < k && line == lineNum + w * LINE_WRAP
                && line <= total && FirstContaining(m, line).Some?
  }

  lemma HasLineAppend(a: seq<Candidate>, b: seq<Candidate>, line: int)
    ensures HasLine(a + b, line) <==> HasLine(a, line) || HasLine(b, line)
  {
    if HasLine(a + b, line) {
      var j :| 0 <= j < |a + b| && (a + b)[j].actualLine == line;
      if j >= |a| {
        assert b[j - |a|] == (a + b)[j];
      }
    }
    if HasLine(b, line) {
      var j :| 0 <= j < |b| && b[j].actualLine == line;
      assert (a + b)[|a| + j] == b[j];
    }
    if HasLine(a, line) {
      var j :| 0 <= j < |a| && a[j].actualLine == line;
      assert (a + b)[j] == a[j];
    }
  }

  lemma ReachableStep(m: seq<LineMapping>, total: int, lineNum: int, p: nat, line: int)
    ensures Reachable(m, total, lineNum, p + 1, line)
        <==> Reachable(m, total, lineNum, p, line)
             || (line == lineNum + p * LINE_WRAP && line <= total && FirstContaining(m, line).Some?)
  {
    if Reachable(m, total, lineNum, p + 1, line) {
      var w :| 0 <= w < p + 1 && line == lineNum + w * LINE_WRAP
               && line <= total && FirstContaining(m, line).Some?;
      if w < p {
        assert Reachable(m, total, lineNum, p, line);
      }
    }
    if line == lineNum + p * LINE_WRAP && line <= total && FirstContaining(m, line).Some? {
      assert Reachable(m, total, lineNum, p + 1, line);
    }
  }

  lemma HasLineFound(m: seq<LineMapping>, c: int, line: int)
    ensures HasLine(Found(m, c), line) <==> line == c && FirstContaining(m, c).Some?
  {
    if FirstContaining(m, c).Some? {
      assert Found(m, c)[0].actualLine == c;
    }
  }

  lemma {:induction false} TriedComplete(m: seq<LineMapping>, total: int, lineNum: int, k: nat, line: int)
    requires lineNum > 0
    ensures HasLine(Tried(m, total, lineNum, k), line) <==> Reachable(m, total, lineNum, k, line)
    decreases k
  {
    if k > 0 {
      var p := k - 1;
      TriedComplete(m, total, lineNum, p, line);
      HasLineAppend(Tried(m, total, lineNum, p), Try(m, total, lineNum, p), line);
      ReachableStep(m, total, lineNum, p, line);
      var c := lineNum + p * LINE_WRAP;
      if c <= total {
        assert p * LINE_WRAP < total;
        HasLineFound(m, c, line);
      } else {
        assert Try(m, total, lineNum, p) == [];
      }
    }
  }

  /** For a positive reported number, a line is among the candidates exactly
      when it is the number plus `w * 65536` for some `w < 10`, it is at most
      `total_lines`, and some range holds it. */
  lemma CandidatesComplete(m: seq<LineMapping>, total: int, lineNum: int, line: int)
    requires lineNum > 0
    ensures HasLine(Candidates(m, total, lineNum), line) <==> Reachable(m, total, lineNum, MAX_CANDIDATES, line)
  {
    TriedComplete(m, total, lineNum, MAX_CANDIDATES, line);
  }

  // ---- the report ----

  /** Joining strings with a separator, first to last: the reference for the
      `" or "` list. */
  function JoinWith(parts: seq<string>, sep: string): string
  {
    if |parts| == 0 then ""
    else if |parts| == 1 then parts[0]
    else parts[0] + sep + JoinWith(parts[1..], sep)
  }

  function Locations(m: seq<LineMapping>, cs: seq<Candidate>): seq<string>
    requires IndicesIn(m, cs)
  {
    seq(|cs|, j requires 0 <= j < |cs| => Location(m, cs[j]))
  }

  lemma {:induction false} JoinSnoc(parts: seq<string>, x: string, sep: string)
    requires parts != []
    ensures JoinWith(parts + [x], sep) == JoinWith(parts, sep) + (sep + x)
    decreases |parts|
  {
    if |parts| == 1 {
      assert (parts + [x])[1..] == [x];
    } else {
      var p0, rest := parts[0], JoinWith(parts[1..], sep);
      assert (parts + [x])[0] == p0 && (parts + [x])[1..] == parts[1..] + [x];
      calc {
        JoinWith(parts + [x], sep);
        (p0 + sep) + JoinWith(parts[1..] + [x], sep);
        { JoinSnoc(parts[1..], x, sep); }
        (p0 + sep) + (rest + (sep + x));
        { Associative(p0 + sep, rest, sep + x); }
        ((p0 + sep) + rest) + (sep + x);
      }
    }
  }

  /** The `strncat` loop joins the locations with `" or "`. */
  lemma {:induction false} AlternativesJoin(m: seq<LineMapping>, cs: seq<Candidate>, j: nat)
    requires j <= |cs| && IndicesIn(m, cs)
    ensures Alternatives(m, cs, j) == JoinWith(Locations(m, cs)[..j], " or ")
    decreases j
  {
    var ls := Locations(m, cs);
    if j == 1 {
      assert ls[..1] == [Location(m, cs[0])];
    } else if j > 1 {
      calc {
        Alternatives(m, cs, j);
        Alternatives(m, cs, j - 1) + (" or " + Location(m, cs[j - 1]));
        { AlternativesJoin(m, cs, j - 1); }
        JoinWith(ls[..j - 1], " or ") + (" or " + ls[j - 1]);
        { JoinSnoc(ls[..j - 1], ls[j - 1], " or "); }
        JoinWith(ls[..j - 1] + [ls[j - 1]], " or ");
        { assert ls[..j] == ls[..j - 1] + [ls[j - 1]]; }
        JoinWith(ls[..j], " or ");
      }
    }
  }

  /** The forms of the report: the literal `output.pde:N` without a
      candidate, the single location for one, and otherwise every location
      joined with `" or "` and followed by `" (line wrapping)"`. */
  lemma TranslationForms(m: seq<LineMapping>, total: int, lineNum: int)
    ensures var cs := Candidates(m, total, lineNum);
            IndicesIn(m, cs)
            && (|cs| == 0 ==> Translation(m, total, lineNum) == "output.pde:" + Decimal(lineNum))
            && (|cs| == 1 ==> Translation(m, total, lineNum) == Location(m, cs[0]))
            && (|cs| > 1 ==> Translation(m, total, lineNum)
                             == JoinWith(Locations(m, cs), " or ") + " (line wrapping)")
  {
    var cs := Candidates(m, total, lineNum);
    TriedIndices(m, total, lineNum, MAX_CANDIDATES);
    AlternativesJoin(m, cs, |cs|);
    assert Locations(m, cs)[..|cs|] == Locations(m, cs);
  }

  /** A positive reported number that no try can place stays literal. */
  lemma Unplaced(m: seq<LineMapping>, total: int, lineNum: int)
    requires lineNum > 0
    requires forall line :: !Reachable(m, total, lineNum, MAX_CANDIDATES, line)
    ensures Translation(m, total, lineNum) == "output.pde:" + Decimal(lineNum)
  {
    var cs := Candidates(m, total, lineNum);
    if |cs| > 0 {
      CandidatesComplete(m, total, lineNum, cs[0].actualLine);
      assert false;
    }
  }

  // ---- translating the aggregated output ----

  /** In the line map the aggregation builds, a line in fragment `i`'s range
      is in no earlier range, so the search stops at entry `i`. */
  lemma OwnerFound(contents: map<string, seq<string>>, files: seq<FileEntry>, i: nat, line: int)
    requires i < |files| && Contains(Mapping(contents, files)[i], line)
    ensures FirstContaining(Mapping(contents, files), line) == Some(i)
  {
    var m := Mapping(contents, files);
    forall j | 0 <= j < i
      ensures !Contains(m[j], line)
    {
      RangesIncrease(contents, files, j, i);
    }
    var r := FirstContaining(m, line);
    assert r.Some?;
    assert r.value == i;
  }

  /** Round trip: while `output.pde` has at most 65536 lines nothing wraps,
      and line `n` of fragment `i` (counted from 1) is translated back to
      exactly `relative[i]:n`. */
  lemma RoundTrip(contents: map<string, seq<string>>, files: seq<FileEntry>, i: nat, n: int)
    requires i < |files| && 1 <= n <= |LinesOf(contents, files[i].path)|
    requires |Folded(contents, files)| <= LINE_WRAP
    ensures Translation(Mapping(contents, files), |Folded(contents, files)|,
                        Mapping(contents, files)[i].startLine + n - 1)
            == files[i].relative + ":" + Decimal(n)
  {
    var m := Mapping(contents, files);
    var line := m[i].startLine + n - 1;
    MappingStep(contents, files, i);
    RangeInside(contents, files, i);
    OwnerFound(contents, files, i, line);
    Unwrapped(m, |Folded(contents, files)|, line, i);
  }

  /** Without wrapping only the first try can find a range, and the report
      is that range's location. */
  lemma Unwrapped(m: seq<LineMapping>, total: int, line: int, i: nat)
    requires 0 < line <= total <= LINE_WRAP
    requires FirstContaining(m, line) == Some(i)
    ensures i < |m|
    ensures Translation(m, total, line) == m[i].relative + ":" + Decimal(line - m[i].startLine + 1)
  {
    assert Try(m, total, line, 0) == Found(m, line);
    assert Tried(m, total, line, 1) == [] + Found(m, line);
    TriedStable(m, total, line, 1, MAX_CANDIDATES);
  }

  /** A line of fragment `i` below ten wraps, reported modulo 65536, is among
      the candidates for the reported number, naming fragment `i` and the
      line's position in it. */
  lemma WrappedLineRecovered(contents: map<string, seq<string>>, files: seq<FileEntry>, i: nat, line: int)
    requires i < |files| && Contains(Mapping(contents, files)[i], line)
    requires line / LINE_WRAP < MAX_CANDIDATES && line % LINE_WRAP > 0
    ensures var m := Mapping(contents, files);
            var cs := Candidates(m, |Folded(contents, files)|, line % LINE_WRAP);
            exists j :: 0 <= j < |cs| && cs[j] == Candidate(i, line, line - m[i].startLine + 1)
  {
    var m := Mapping(contents, files);
    var total := |Folded(contents, files)|;
    var lineNum := line % LINE_WRAP;
    var w := line / LINE_WRAP;
    assert line == lineNum + w * LINE_WRAP;
    RangeInside(contents, files, i);
    OwnerFound(contents, files, i, line);
    assert Reachable(m, total, lineNum, MAX_CANDIDATES, line);
    CandidatesComplete(m, total, lineNum, line);
    var cs := Candidates(m, total, lineNum);
    var j :| 0 <= j < |cs| && cs[j].actualLine == line;
    CandidatesShape(m, total, lineNum);
    assert Admissible(m, total, lineNum, cs[j], MAX_CANDIDATES);
    assert cs[j].fileIndex == i;
  }
}
