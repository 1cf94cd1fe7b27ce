/**
 * The aggregation loop of `main`: every collected fragment is written to
 * `output.pde` as a header comment line, its own lines, and a blank line,
 * while `line_map` records the output lines that hold the fragment's own
 * lines and `total_lines` the length of the whole file.
 *
 * A fragment's contents are a sequence of lines (without their newline);
 * a path that `fopen` cannot open contributes no lines.
 */
module Aggregate {
  import opened Collect

  /** `LineMapping`: output lines `startLine..endLine` (1-based, inclusive)
      hold the fragment whose relative path is `relative`. */
  datatype LineMapping = LineMapping(startLine: int, endLine: int, relative: string)

  /** The lines `fgets` reads from a fragment; nothing when it cannot be opened. */
  function LinesOf(contents: map<string, seq<string>>, path: string): seq<string>
  {
    if path in contents then contents[path] else []
  }

  /** The header comment written before each fragment. */
  function Header(rel: string): string
  {
    "//>/>/>" + rel
  }

  /** What one fragment adds to `output.pde`. */
  function Block(contents: map<string, seq<string>>, f: FileEntry): seq<string>
  {
    [Header(f.relative)] + LinesOf(contents, f.path) + [""]
  }

  /** The lines of `output.pde` for the fragments `files`, in order. */
  function Folded(contents: map<string, seq<string>>, files: seq<FileEntry>): seq<string>
    decreases |files|
  {
    if files == [] then []
    else Folded(contents, files[..|files| - 1]) + Block(contents, files[|files| - 1])
  }

  /** The line map: fragment `i` starts on the output line right after its
      header, that is after everything folded before it and the header. */
  function Mapping(contents: map<string, seq<string>>, files: seq<FileEntry>): (r: seq<LineMapping>)
    ensures |r| == |files|
    decreases |files|
  {
    if files == [] then []
    else
      var init := files[..|files| - 1];
      Mapping(contents, init)
      + [LineMapping(|Folded(contents, init)| + 2,
                     |Folded(contents, init)| + 1 + |LinesOf(contents, files[|files| - 1].path)|,
                     files[|files| - 1].relative)]
  }

  /** Entry `i` of the line map, in terms of the fragments before it. */
  lemma {:induction false} MappingAt(contents: map<string, seq<string>>, files: seq<FileEntry>, i: nat)
    requires i < |files|
    ensures Mapping(contents, files)[i]
         == LineMapping(|Folded(contents, files[..i])| + 2,
                        |Folded(contents, files[..i])| + 1 + |LinesOf(contents, files[i].path)|,
                        files[i].relative)
    decreases |files|
  {
    var init := files[..|files| - 1];
    if i < |init| {
      MappingAt(contents, init, i);
      assert init[..i] == files[..i] && init[i] == files[i];
    }
  }

  /** The number of content lines of each fragment plus two. */
  function BlockLines(contents: map<string, seq<string>>, files: seq<FileEntry>): nat
    decreases |files|
  {
    if files == [] then 0
    else BlockLines(contents, files[..|files| - 1]) + |LinesOf(contents, files[|files| - 1].path)| + 2
  }

  lemma FoldedStep(contents: map<string, seq<string>>, files: seq<FileEntry>, i: nat)
    requires i < |files|
    ensures Folded(contents, files[..i + 1]) == Folded(contents, files[..i]) + Block(contents, files[i])
  {
    var p := files[..i + 1];
    assert p[..|p| - 1] == files[..i] && p[|p| - 1] == files[i];
  }

  lemma MappingPrefix(contents: map<string, seq<string>>, files: seq<FileEntry>, i: nat)
    requires i < |files|
    ensures Mapping(contents, files[..i + 1])
         == Mapping(contents, files[..i])
            + [LineMapping(|Folded(contents, files[..i])| + 2,
                           |Folded(contents, files[..i])| + 1 + |LinesOf(contents, files[i].path)|,
                           files[i].relative)]
  {
    var p := files[..i + 1];
    assert p[..|p| - 1] == files[..i] && p[|p| - 1] == files[i];
  }

  /** The loop of `main` that writes `output.pde`, fills `line_map` and sets
      `total_lines`; `files` is the collected table `files[0..file_count)`. */
  method Fold(files: seq<FileEntry>, contents: map<string, seq<string>>, lineMap: array<LineMapping>)
    returns (totalLines: int, out: seq<string>)
    requires |files| <= lineMap.Length
    modifies lineMap
    ensures out == Folded(contents, files)
    ensures lineMap[..|files|] == Mapping(contents, files)
    ensures lineMap[|files|..] == old(lineMap[|files|..])
    ensures totalLines == |out|
  {
    var currentLine := 1;
    out := [];
    for i := 0 to |files|
      invariant out == Folded(contents, files[..i]) && currentLine == |out| + 1
      invariant lineMap[..i] == Mapping(contents, files[..i])
      invariant lineMap[|files|..] == old(lineMap[|files|..])
    {
      out, currentLine := FoldFragment(files, contents, lineMap, i, out, currentLine);
    }
    assert files[..|files|] == files;
    totalLines := currentLine - 1;
  }

  /** The body of the loop for fragment `i`: the output and the line map
      grow from the first `i` fragments to the first `i + 1`. */
  method FoldFragment(files: seq<FileEntry>, contents: map<string, seq<string>>, lineMap: array<LineMapping>,
                      i: nat, out: seq<string>, currentLine: int)
    returns (out': seq<string>, currentLine': int)
    requires i < |files| <= lineMap.Length
    requires out == Folded(contents, files[..i]) && currentLine == |out| + 1
    requires lineMap[..i] == Mapping(contents, files[..i])
    modifies lineMap
    ensures out' == Folded(contents, files[..i + 1]) && currentLine' == |out'| + 1
    ensures lineMap[..i + 1] == Mapping(contents, files[..i + 1])
    ensures lineMap[|files|..] == old(lineMap[|files|..])
  {
    FoldStep(contents, files, i, currentLine);
    var entry;
    out', currentLine', entry := WriteFragment(out, currentLine, files[i], contents);
    ghost var m := lineMap[..i];
    lineMap[i] := entry;
    assert lineMap[..i + 1] == m + [entry];
  }

  /** What one iteration of `Fold` adds to `output.pde` and to the line map. */
  lemma FoldStep(contents: map<string, seq<string>>, files: seq<FileEntry>, i: nat, currentLine: int)
    requires i < |files| && currentLine == |Folded(contents, files[..i])| + 1
    ensures Folded(contents, files[..i + 1]) == Folded(contents, files[..i]) + Block(contents, files[i])
    ensures Mapping(contents, files[..i + 1])
         == Mapping(contents, files[..i])
            + [LineMapping(currentLine + 1, currentLine + |LinesOf(contents, files[i].path)|, files[i].relative)]
  {
    FoldedStep(contents, files, i);
    MappingPrefix(contents, files, i);
  }

  /** One iteration of the loop: the header, the fragment's lines, the blank
      line, and the fragment's `line_map` entry. */
  method WriteFragment(out: seq<string>, currentLine: int, f: FileEntry, contents: map<string, seq<string>>)
    returns (out': seq<string>, currentLine': int, entry: LineMapping)
    ensures out' == out + Block(contents, f)
    ensures currentLine' == currentLine + |Block(contents, f)|
    ensures entry == LineMapping(currentLine + 1, currentLine + |LinesOf(contents, f.path)|, f.relative)
  {
    var start := currentLine + 1;
    out' := out + [Header(f.relative)];
    currentLine' := currentLine + 1;
    if f.path in contents {
      out', currentLine' := CopyLines(out', currentLine', contents[f.path]);
    }
    entry := LineMapping(start, currentLine' - 1, f.relative);
    out' := out' + [""];
    currentLine' := currentLine' + 1;
  }

  /** The `fgets`/`fputs` loop over one fragment, counting lines. */
  method CopyLines(out: seq<string>, currentLine: int, lines: seq<string>)
    returns (out': seq<string>, currentLine': int)
    ensures out' == out + lines && currentLine' == currentLine + |lines|
  {
    out', currentLine' := out, currentLine;
    for k := 0 to |lines|
      invariant out' == out + lines[..k] && currentLine' == currentLine + k
    {
      assert lines[..k + 1] == lines[..k] + [lines[k]];
      out' := out' + [lines[k]];
      currentLine' := currentLine' + 1;
    }
    assert lines[..|lines|] == lines;
  }

  // ---- the shape of the line map ----

  lemma {:induction false} FoldedLength(contents: map<string, seq<string>>, files: seq<FileEntry>)
    ensures |Folded(contents, files)| == BlockLines(contents, files)
    decreases |files|
  {
    if files != [] {
      FoldedLength(contents, files[..|files| - 1]);
    }
  }

  /** The first fragment starts on line 2, right after its header. */
  lemma FirstStart(contents: map<string, seq<string>>, files: seq<FileEntry>)
    requires files != []
    ensures Mapping(contents, files)[0].startLine == 2
  {
    MappingAt(contents, files, 0);
    assert files[..0] == [];
  }

  /** A fragment ends `n - 1` lines after it starts (an empty one ends just
      before its start), keeps its relative path, and the next one starts
      three lines after it ends (past the blank line and the next header). */
  lemma MappingStep(contents: map<string, seq<string>>, files: seq<FileEntry>, i: nat)
    requires i < |files|
    ensures Mapping(contents, files)[i].endLine
         == Mapping(contents, files)[i].startLine + |LinesOf(contents, files[i].path)| - 1
    ensures Mapping(contents, files)[i].relative == files[i].relative
    ensures i + 1 < |files| ==>
              Mapping(contents, files)[i + 1].startLine == Mapping(contents, files)[i].endLine + 3
  {
    MappingAt(contents, files, i);
    if i + 1 < |files| {
      MappingAt(contents, files, i + 1);
      FoldedStep(contents, files, i);
    }
  }

  /** `total_lines` is the sum of the fragments' line counts plus two each,
      and the last fragment ends one line (the blank one) before the end. */
  lemma TotalLines(contents: map<string, seq<string>>, files: seq<FileEntry>)
    ensures |Folded(contents, files)| == BlockLines(contents, files)
    ensures files != [] ==> Mapping(contents, files)[|files| - 1].endLine + 1 == |Folded(contents, files)|
  {
    FoldedLength(contents, files);
    if files != [] {
      var n := |files| - 1;
      MappingStep(contents, files, n);
      MappingAt(contents, files, n);
      FoldedStep(contents, files, n);
      assert files[..n + 1] == files;
    }
  }

  /** The folded output of a prefix is a prefix of the folded output. */
  lemma {:induction false} FoldedPrefix(contents: map<string, seq<string>>, files: seq<FileEntry>, i: nat)
    requires i <= |files|
    ensures Folded(contents, files[..i]) <= Folded(contents, files)
    decreases |files|
  {
    if i < |files| {
      var init := files[..|files| - 1];
      assert init[..i] == files[..i];
      FoldedPrefix(contents, init, i);
    } else {
      assert files[..i] == files;
    }
  }

  /** The ranges are strictly increasing and disjoint: between two fragments
      lie at least a blank line and a header. */
  lemma {:induction false} RangesIncrease(contents: map<string, seq<string>>, files: seq<FileEntry>, i: nat, j: nat)
    requires i < j < |files|
    ensures Mapping(contents, files)[i].endLine + 3 <= Mapping(contents, files)[j].startLine
    decreases j - i
  {
    MappingStep(contents, files, i);
    if i + 1 < j {
      RangesIncrease(contents, files, i + 1, j);
      MappingStep(contents, files, i + 1);
    }
  }

  /** Range `m` points at the right text of `out`: line `startLine - 1` is
      `header`, lines `startLine..endLine` are `lines` in order (line
      `startLine + k` is `lines[k]`, which is `out[startLine - 1 + k]`), and
      line `endLine + 1` is blank. */
  predicate Placed(out: seq<string>, m: LineMapping, header: string, lines: seq<string>)
  {
    1 <= m.startLine - 1 && m.endLine + 1 <= |out|
    && m.endLine == m.startLine + |lines| - 1
    && out[m.startLine - 2] == header
    && out[m.endLine] == ""
    && forall k :: 0 <= k < |lines| ==> out[m.startLine - 1 + k] == lines[k]
  }

  /** The line map points at the right text of `output.pde`: each fragment's
      header, then its lines, then a blank line. */
  lemma FoldedLines(contents: map<string, seq<string>>, files: seq<FileEntry>, i: nat)
    requires i < |files|
    ensures Placed(Folded(contents, files), Mapping(contents, files)[i],
                   Header(files[i].relative), LinesOf(contents, files[i].path))
  {
    MappingAt(contents, files, i);
    BlockInFolded(contents, files, i);
    PlacedBlock(Folded(contents, files), |Folded(contents, files[..i])|, Mapping(contents, files)[i],
                Header(files[i].relative), LinesOf(contents, files[i].path));
  }

  /** A block `[header] + lines + [""]` placed at index `b` of `out`, with
      its range starting two lines after `b`. */
  lemma PlacedBlock(out: seq<string>, b: nat, m: LineMapping, header: string, lines: seq<string>)
    requires m.startLine == b + 2 && m.endLine == b + 1 + |lines|
    requires b + |lines| + 2 <= |out| && out[b..b + |lines| + 2] == [header] + lines + [""]
    ensures Placed(out, m, header, lines)
  {
    var block := [header] + lines + [""];
    assert out[b] == out[b..b + |block|][0] == header;
    assert out[b + 1 + |lines|] == out[b..b + |block|][1 + |lines|] == "";
    forall k | 0 <= k < |lines| ensures out[b + 1 + k] == lines[k] {
      assert out[b + 1 + k] == out[b..b + |block|][1 + k] == block[1 + k];
    }
  }

  /** Each range lies inside `output.pde`, after the first line (a header). */
  lemma RangeInside(contents: map<string, seq<string>>, files: seq<FileEntry>, i: nat)
    requires i < |files|
    ensures 2 <= Mapping(contents, files)[i].startLine
    ensures Mapping(contents, files)[i].endLine < |Folded(contents, files)|
  {
    FoldedLines(contents, files, i);
  }

  /** Fragment `i`'s block sits in `output.pde` right after the blocks before it. */
  lemma BlockInFolded(contents: map<string, seq<string>>, files: seq<FileEntry>, i: nat)
    requires i < |files|
    ensures var b := |Folded(contents, files[..i])|;
            var lines := LinesOf(contents, files[i].path);
            b + |lines| + 2 <= |Folded(contents, files)|
            && Folded(contents, files)[b..b + |lines| + 2] == [Header(files[i].relative)] + lines + [""]
  {
    FoldedStep(contents, files, i);
    FoldedPrefix(contents, files, i + 1);
    var before := Folded(contents, files[..i]);
    var block := Block(contents, files[i]);
    var out := Folded(contents, files);
    assert out[..|before| + |block|] == before + block;
    assert out[|before|..|before| + |block|] == (before + block)[|before|..];
  }

  /** Every output line belongs to one fragment's block: its header, one of
      its lines, or the blank line after it. */
  lemma {:induction false} LinesCovered(contents: map<string, seq<string>>, files: seq<FileEntry>, line: int)
    requires 1 <= line <= |Folded(contents, files)|
    ensures exists i :: 0 <= i < |files|
              && Mapping(contents, files)[i].startLine - 1 <= line <= Mapping(contents, files)[i].endLine + 1
    decreases |files|
  {
    var n := |files| - 1;
    var init := files[..n];
    MappingPrefix(contents, files, n);
    assert files[..n + 1] == files;
    if line <= |Folded(contents, init)| {
      LinesCovered(contents, init, line);
      var i :| 0 <= i < |init|
              && Mapping(contents, init)[i].startLine - 1 <= line <= Mapping(contents, init)[i].endLine + 1;
      assert Mapping(contents, files)[i] == Mapping(contents, init)[i];
    } else {
      assert Mapping(contents, files)[n].startLine - 1 <= line <= Mapping(contents, files)[n].endLine + 1;
    }
  }
}
