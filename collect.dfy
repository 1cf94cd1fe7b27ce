/**
 * The fragment collector (`collect_files`): a depth-first walk of the sketch
 * directory that keeps the `.pde` files, skips `.`/`..`, the `output`
 * directory and every ignored path, sorts sub-directories and files by name
 * with an exchange sort, visits the sub-directories first and appends the
 * directory's own files last, up to a cap of `MAX_FILES` files in all.
 *
 * The directory tree is a value: what `FindFirstFile`/`FindNextFile` would
 * enumerate in each directory, in enumeration order.
 */
module Collect {
  import opened Text
  import opened Glob

  const MAX_FILES := 10000

  /** One entry of a directory listing. */
  datatype Node =
    | File(name: string)
    | Dir(name: string, children: seq<Node>)  // a directory that can be listed
    | Locked(name: string)                     // a directory whose listing fails

  predicate IsDirectory(n: Node)
  {
    n.Dir? || n.Locked?
  }

  /** `FileEntry`: the native path and the `/`-separated path relative to the root. */
  datatype FileEntry = FileEntry(path: string, relative: string)

  /** The two parallel arrays of the source read as one sequence of pairs. */
  function Zip(paths: seq<string>, rels: seq<string>): seq<FileEntry>
    requires |paths| == |rels|
  {
    seq(|paths|, i requires 0 <= i < |paths| => FileEntry(paths[i], rels[i]))
  }

  /** The `full_path` of a child: parent path, a backslash, the name. */
  function JoinPath(dir: string, name: string): string
  {
    dir + "\\" + name
  }

  /** The `new_relative` of a child: the bare name at the root, else parent + "/" + name. */
  function JoinRelative(rel: string, name: string): string
  {
    if |rel| == 0 then name else rel + "/" + name
  }

  predicate Lacks(s: string, sep: char)
  {
    forall k :: 0 <= k < |s| ==> s[k] != sep
  }

  /** `strrchr(s, sep)`: the position of the last `sep`. */
  function LastOf(s: string, sep: char): (r: Option<nat>)
    ensures r.Some? ==> r.value < |s| && s[r.value] == sep
                        && forall k :: r.value < k < |s| ==> s[k] != sep
    ensures r.None? ==> forall k :: 0 <= k < |s| ==> s[k] != sep
    decreases |s|
  {
    if s == [] then None
    else if s[|s| - 1] == sep then Some(|s| - 1)
    else LastOf(s[..|s| - 1], sep)
  }

  /** The text after the last `sep` (the whole text when there is none). */
  function After(s: string, sep: char): string
  {
    match LastOf(s, sep)
    case Some(k) => s[k + 1..]
    case None => s
  }

  /** The name at the end of a native path. */
  function BaseName(s: string): string
  {
    After(s, '\\')
  }

  /** The exchange condition of both sort loops: both paths have a backslash
      and `_stricmp` puts the first name after the second. */
  predicate Greater(a: FileEntry, b: FileEntry)
  {
    LastOf(a.path, '\\').Some? && LastOf(b.path, '\\').Some? && CaseGreater(BaseName(a.path), BaseName(b.path))
  }

  function Swap(s: seq<FileEntry>, i: nat, j: nat): seq<FileEntry>
    requires i < |s| && j < |s|
  {
    s[i := s[j]][j := s[i]]
  }

  /** The sort loops are written once below for any exchange test `gt`; both
      loops of `collect_files` use `Greater`. */
  type Test = (FileEntry, FileEntry) -> bool

  /** One test of the inner loop: exchange positions `i` and `j` when out of order. */
  function Step(gt: Test, s: seq<FileEntry>, i: nat, j: nat): (r: seq<FileEntry>)
    requires i < |s| && j < |s|
    ensures |r| == |s|
  {
    if gt(s[i], s[j]) then Swap(s, i, j) else s
  }

  /** The inner loop for position `i`, from `j` on. */
  function Pass(gt: Test, s: seq<FileEntry>, i: nat, j: nat): (r: seq<FileEntry>)
    requires i < j <= |s|
    ensures |r| == |s|
    decreases |s| - j
  {
    if j == |s| then s
    else Pass(gt, Step(gt, s, i, j), i, j + 1)
  }

  /** The outer loop from position `i` on. */
  function SortFrom(gt: Test, s: seq<FileEntry>, i: nat): (r: seq<FileEntry>)
    requires i <= |s|
    ensures |r| == |s|
    decreases |s| - i
  {
    if i + 1 >= |s| then s else SortFrom(gt, Pass(gt, s, i, i + 1), i + 1)
  }

  /** The exchange sort of `collect_files` on (path, relative) pairs. */
  function ExchangeSort(s: seq<FileEntry>): (r: seq<FileEntry>)
    ensures |r| == |s|
  {
    SortFrom(Greater, s, 0)
  }

  /** Every path has a backslash, so the exchange test compares names. */
  predicate AllSep(s: seq<FileEntry>)
  {
    forall k :: 0 <= k < |s| ==> LastOf(s[k].path, '\\').Some?
  }

  /** Non-decreasing case-insensitive order of the last path component. */
  predicate NameSorted(s: seq<FileEntry>)
  {
    forall k, l :: 0 <= k < l < |s| ==> !CaseGreater(BaseName(s[k].path), BaseName(s[l].path))
  }

  /** `gt` is a strict partial order: asymmetric and transitive. */
  ghost predicate StrictOrder(gt: Test)
  {
    (forall a, b :: gt(a, b) ==> !gt(b, a))
    && (forall a, b, c :: gt(a, b) && gt(b, c) ==> gt(a, c))
  }

  /** No later entry is below an earlier one. */
  predicate SortedBy(gt: Test, s: seq<FileEntry>)
  {
    forall k, l :: 0 <= k < l < |s| ==> !gt(s[k], s[l])
  }

  /** The exchange test of `collect_files` is a strict partial order (the
      comparison of `_stricmp` is one, and the backslash test only removes pairs).
      It is not a weak order: a path without a backslash is comparable to none. */
  lemma GreaterStrict()
    ensures StrictOrder(Greater)
  {
    forall a, b ensures Greater(a, b) ==> !Greater(b, a) {
      CaseOrder(BaseName(a.path), BaseName(b.path), BaseName(a.path));
    }
    forall a, b, c ensures Greater(a, b) && Greater(b, c) ==> Greater(a, c) {
      CaseOrder(BaseName(a.path), BaseName(b.path), BaseName(c.path));
    }
  }

  /** No entry strictly between `i` and `hi` is below the entry at `i`. */
  predicate LeastUpTo(gt: Test, s: seq<FileEntry>, i: nat, hi: nat)
    requires i < |s| && hi <= |s|
  {
    forall k :: i < k < hi ==> !gt(s[i], s[k])
  }

  /** A test at `j` keeps position `i` below everything up to `j`. */
  lemma StepKeepsLeast(gt: Test, s: seq<FileEntry>, i: nat, j: nat)
    requires i < j < |s| && StrictOrder(gt) && LeastUpTo(gt, s, i, j)
    ensures LeastUpTo(gt, Step(gt, s, i, j), i, j + 1)
  {
    var t := Step(gt, s, i, j);
    forall k | i < k < j + 1
      ensures !gt(t[i], t[k])
    {
      if gt(s[i], s[j]) && k < j {
        assert t[i] == s[j] && t[k] == s[k];
      }
    }
  }

  /** The inner loop leaves at position `i` an entry no later entry is below. */
  lemma {:induction false} PassLeavesLeast(gt: Test, s: seq<FileEntry>, i: nat, j: nat)
    requires i < j <= |s| && StrictOrder(gt) && LeastUpTo(gt, s, i, j)
    ensures LeastUpTo(gt, Pass(gt, s, i, j), i, |s|)
    decreases |s| - j
  {
    if j < |s| {
      StepKeepsLeast(gt, s, i, j);
      PassLeavesLeast(gt, Step(gt, s, i, j), i, j + 1);
    }
  }

  /** Each exchange moves entries, so the inner loop permutes. */
  lemma {:induction false} PassPerm(gt: Test, s: seq<FileEntry>, i: nat, j: nat)
    requires i < j <= |s|
    ensures multiset(Pass(gt, s, i, j)) == multiset(s)
    decreases |s| - j
  {
    if j < |s| {
      var t := Step(gt, s, i, j);
      assert multiset(t) == multiset(s);
      PassPerm(gt, t, i, j + 1);
    }
  }

  lemma {:induction false} SortFromPerm(gt: Test, s: seq<FileEntry>, i: nat)
    requires i <= |s|
    ensures multiset(SortFrom(gt, s, i)) == multiset(s)
    decreases |s| - i
  {
    if i + 1 < |s| {
      PassPerm(gt, s, i, i + 1);
      SortFromPerm(gt, Pass(gt, s, i, i + 1), i + 1);
    }
  }

  /** The inner loop for `i` leaves the positions before `i` alone. */
  lemma {:induction false} PassPrefix(gt: Test, s: seq<FileEntry>, i: nat, j: nat)
    requires i < j <= |s|
    ensures Pass(gt, s, i, j)[..i] == s[..i]
    decreases |s| - j
  {
    if j < |s| {
      var t := Step(gt, s, i, j);
      PassPrefix(gt, t, i, j + 1);
      assert t[..i] == s[..i];
    }
  }

  lemma {:induction false} SortFromPrefix(gt: Test, s: seq<FileEntry>, i: nat)
    requires i <= |s|
    ensures SortFrom(gt, s, i)[..i] == s[..i]
    decreases |s| - i
  {
    if i + 1 < |s| {
      var p := Pass(gt, s, i, i + 1);
      PassPrefix(gt, s, i, i + 1);
      SortFromPrefix(gt, p, i + 1);
      assert SortFrom(gt, s, i)[..i] == SortFrom(gt, p, i + 1)[..i + 1][..i];
    }
  }

  lemma MultisetSuffix(s: seq<FileEntry>, r: seq<FileEntry>, i: nat)
    requires i <= |s| == |r| && multiset(r) == multiset(s) && r[..i] == s[..i]
    ensures multiset(r[i..]) == multiset(s[i..])
  {
    assert s == s[..i] + s[i..] && r == r[..i] + r[i..];
    forall x ensures multiset(r[i..])[x] == multiset(s[i..])[x] {
      assert multiset(r)[x] == multiset(r[..i])[x] + multiset(r[i..])[x];
      assert multiset(s)[x] == multiset(s[..i])[x] + multiset(s[i..])[x];
    }
  }

  /** The outer loop from `i` on leaves positions `i..` sorted. */
  lemma {:induction false} SortFromSorted(gt: Test, s: seq<FileEntry>, i: nat)
    requires i <= |s| && StrictOrder(gt)
    ensures SortedBy(gt, SortFrom(gt, s, i)[i..])
    decreases |s| - i
  {
    if i + 1 < |s| {
      var p := Pass(gt, s, i, i + 1);
      var r := SortFrom(gt, p, i + 1);
      PassLeavesLeast(gt, s, i, i + 1);
      SortFromSorted(gt, p, i + 1);
      SortFromPrefix(gt, p, i + 1);
      SortFromPerm(gt, p, i + 1);
      MultisetSuffix(p, r, i + 1);
      assert r[i] == p[i] by { assert r[..i + 1][i] == p[..i + 1][i]; }
      SortedCons(gt, p, r, i);
    }
  }

  /** The least entry of `p[i..]`, put in front of a sorted permutation of
      the rest, gives a sorted `r[i..]`. */
  lemma SortedCons(gt: Test, p: seq<FileEntry>, r: seq<FileEntry>, i: nat)
    requires i < |p| == |r| && LeastUpTo(gt, p, i, |p|) && r[i] == p[i]
    requires multiset(r[i + 1..]) == multiset(p[i + 1..]) && SortedBy(gt, r[i + 1..])
    ensures SortedBy(gt, r[i..])
  {
    var rs := r[i..];
    forall k, l | 0 <= k < l < |rs|
      ensures !gt(rs[k], rs[l])
    {
      if k == 0 {
        assert rs[l] == r[i + 1..][l - 1];
        assert rs[l] in multiset(p[i + 1..]);
        var m :| i + 1 <= m < |p| && p[m] == rs[l] by {
          assert rs[l] in p[i + 1..];
        }
      } else {
        assert rs[k] == r[i + 1..][k - 1] && rs[l] == r[i + 1..][l - 1];
      }
    }
  }

  lemma AllSepPerm(s: seq<FileEntry>, r: seq<FileEntry>)
    requires AllSep(s) && multiset(r) == multiset(s)
    ensures AllSep(r)
  {
    forall k | 0 <= k < |r| ensures LastOf(r[k].path, '\\').Some? {
      assert r[k] in multiset(s);
    }
  }

  /** After both loops the entries are in name order and a permutation of the
      input; each path keeps its relative path because the entries are moved
      as pairs. */
  lemma ExchangeSortSorted(s: seq<FileEntry>)
    requires AllSep(s)
    ensures NameSorted(ExchangeSort(s)) && multiset(ExchangeSort(s)) == multiset(s)
  {
    var r := ExchangeSort(s);
    GreaterStrict();
    SortFromSorted(Greater, s, 0);
    SortFromPerm(Greater, s, 0);
    AllSepPerm(s, r);
    assert r[0..] == r;
  }

  lemma ZipSwap(ps: seq<string>, rs: seq<string>, i: nat, j: nat)
    requires |ps| == |rs| && i < |ps| && j < |ps|
    ensures Zip(ps[i := ps[j]][j := ps[i]], rs[i := rs[j]][j := rs[i]]) == Swap(Zip(ps, rs), i, j)
  {
  }

  lemma ZipAppend(ps: seq<string>, rs: seq<string>, p: string, r: string)
    requires |ps| == |rs|
    ensures Zip(ps + [p], rs + [r]) == Zip(ps, rs) + [FileEntry(p, r)]
  {
  }

  /** The two nested exchange loops, run in place on the path array and the
      relative-path array together. */
  method SortByName(paths: array<string>, rels: array<string>, n: nat)
    requires n <= paths.Length && n <= rels.Length && paths != rels
    modifies paths, rels
    ensures Zip(paths[..n], rels[..n]) == ExchangeSort(Zip(old(paths[..n]), old(rels[..n])))
    ensures paths[n..] == old(paths[n..]) && rels[n..] == old(rels[n..])
  {
    ghost var sorted := ExchangeSort(Zip(paths[..n], rels[..n]));
    ghost var pt, rt := paths[n..], rels[n..];
    var i := 0;
    while i < n - 1
      invariant 0 <= i <= n
      invariant SortFrom(Greater, Zip(paths[..n], rels[..n]), i) == sorted
      invariant paths[n..] == pt && rels[n..] == rt
    {
      InnerLoop(paths, rels, n, i);
      i := i + 1;
    }
  }

  /** The inner loop for one position `i`: every later position is compared with `i` in turn. */
  method InnerLoop(paths: array<string>, rels: array<string>, n: nat, i: nat)
    requires i + 1 < n <= paths.Length && n <= rels.Length && paths != rels
    modifies paths, rels
    ensures Zip(paths[..n], rels[..n]) == Pass(Greater, Zip(old(paths[..n]), old(rels[..n])), i, i + 1)
    ensures paths[n..] == old(paths[n..]) && rels[n..] == old(rels[n..])
  {
    ghost var after := Pass(Greater, Zip(paths[..n], rels[..n]), i, i + 1);
    ghost var pt, rt := paths[n..], rels[n..];
    var j := i + 1;
    while j < n
      invariant i < j <= n
      invariant Pass(Greater, Zip(paths[..n], rels[..n]), i, j) == after
      invariant paths[n..] == pt && rels[n..] == rt
    {
      ExchangeStep(paths, rels, n, i, j);
      j := j + 1;
    }
  }

  /** One iteration of the inner loop: compare the names at `i` and `j` and
      exchange both array slots when the first is greater. */
  method ExchangeStep(paths: array<string>, rels: array<string>, n: nat, i: nat, j: nat)
    requires i < j < n <= paths.Length && n <= rels.Length && paths != rels
    modifies paths, rels
    ensures Pass(Greater, Zip(paths[..n], rels[..n]), i, j + 1) == Pass(Greater, Zip(old(paths[..n]), old(rels[..n])), i, j)
    ensures paths[n..] == old(paths[n..]) && rels[n..] == old(rels[n..])
  {
    ghost var ps, rs := paths[..n], rels[..n];
    if Greater(FileEntry(paths[i], rels[i]), FileEntry(paths[j], rels[j])) {
      paths[i], paths[j] := paths[j], paths[i];
      rels[i], rels[j] := rels[j], rels[i];
      assert paths[..n] == ps[i := ps[j]][j := ps[i]];
      assert rels[..n] == rs[i := rs[j]][j := rs[i]];
      ZipSwap(ps, rs, i, j);
    }
  }

  // ---- classification of one directory's entries ----

  datatype Kind = Skipped | SubDirectory | Source

  /** The tests of the enumeration loop, in the source's order. */
  function Classify(patterns: seq<string>, c: Node, rel: string): Kind
  {
    if c.name == "." || c.name == ".." then Skipped
    else if CaseEq(c.name, "output") && IsDirectory(c) then Skipped
    else if Ignored(patterns, JoinRelative(rel, c.name)) then Skipped
    else if IsDirectory(c) then SubDirectory
    else if EndsWith(c.name, ".pde") then Source
    else Skipped
  }

  function EntryOf(dirPath: string, rel: string, c: Node): FileEntry
  {
    FileEntry(JoinPath(dirPath, c.name), JoinRelative(rel, c.name))
  }

  /** The classification of the entries of the directory at `rel`. */
  function Classifier(patterns: seq<string>, rel: string): Node -> Kind
  {
    c => Classify(patterns, c, rel)
  }

  /** The entries of one kind, in enumeration order; `kindOf` is the
      directory's `Classifier`. */
  function Listed(kindOf: Node -> Kind, cs: seq<Node>, dirPath: string, rel: string, kind: Kind): (r: seq<FileEntry>)
    ensures |r| <= |cs|
    decreases |cs|
  {
    if cs == [] then []
    else Listed(kindOf, cs[..|cs| - 1], dirPath, rel, kind) + Entered(kindOf, cs[|cs| - 1], dirPath, rel, kind)
  }

  /** What entry `c` adds to the listing of one kind. */
  function Entered(kindOf: Node -> Kind, c: Node, dirPath: string, rel: string, kind: Kind): seq<FileEntry>
  {
    if kindOf(c) == kind then [EntryOf(dirPath, rel, c)] else []
  }

  /** The tests one enumerated entry goes through, as the loop body runs them. */
  method ClassifyEntry(patterns: seq<string>, c: Node, rel: string) returns (k: Kind)
    ensures k == Classify(patterns, c, rel)
  {
    if c.name == "." || c.name == ".." {
      return Skipped;
    }
    if CaseEq(c.name, "output") && IsDirectory(c) {
      return Skipped;
    }
    var ignored := ShouldIgnore(patterns, JoinRelative(rel, c.name));
    if ignored {
      return Skipped;
    }
    if IsDirectory(c) {
      return SubDirectory;
    } else if EndsWith(c.name, ".pde") {
      return Source;
    }
    return Skipped;
  }

  /** Store a path and its relative path at `count` in the two parallel arrays. */
  method Push(paths: array<string>, rels: array<string>, count: nat, p: string, r: string)
    returns (newCount: nat)
    requires count < paths.Length && count < rels.Length && paths != rels
    modifies paths, rels
    ensures newCount == count + 1
    ensures Zip(paths[..newCount], rels[..newCount]) == Zip(old(paths[..count]), old(rels[..count])) + [FileEntry(p, r)]
  {
    ghost var ps, rs := paths[..count], rels[..count];
    paths[count], rels[count] := p, r;
    newCount := count + 1;
    assert paths[..newCount] == ps + [p];
    assert rels[..newCount] == rs + [r];
    ZipAppend(ps, rs, p, r);
  }

  /** The enumeration loop over the directory listing: sort the listing into
      sub-directories and `.pde` files, each as a path array and a parallel
      relative-path array. */
  method Enumerate(patterns: seq<string>, node: Node, dirPath: string, rel: string)
    returns (dirs: array<string>, dirRels: array<string>, dirCount: nat,
             pdes: array<string>, pdeRels: array<string>, pdeCount: nat)
    requires node.Dir?
    ensures fresh(dirs) && fresh(dirRels) && fresh(pdes) && fresh(pdeRels)
    ensures dirs != dirRels && pdes != pdeRels && dirs != pdes && dirs != pdeRels
    ensures dirRels != pdes && dirRels != pdeRels
    ensures dirCount <= dirs.Length && dirCount <= dirRels.Length
    ensures pdeCount <= pdes.Length && pdeCount <= pdeRels.Length
    ensures Zip(dirs[..dirCount], dirRels[..dirCount]) == Listed(Classifier(patterns, rel), node.children, dirPath, rel, SubDirectory)
    ensures Zip(pdes[..pdeCount], pdeRels[..pdeCount]) == Listed(Classifier(patterns, rel), node.children, dirPath, rel, Source)
  {
    var cs := node.children;
    dirs := new string[|cs|];
    dirRels := new string[|cs|];
    pdes := new string[|cs|];
    pdeRels := new string[|cs|];
    dirCount, pdeCount := 0, 0;
    var i := 0;
    while i < |cs|
      invariant 0 <= i <= |cs| && dirCount <= i && pdeCount <= i
      invariant Zip(dirs[..dirCount], dirRels[..dirCount]) == Listed(Classifier(patterns, rel), cs[..i], dirPath, rel, SubDirectory)
      invariant Zip(pdes[..pdeCount], pdeRels[..pdeCount]) == Listed(Classifier(patterns, rel), cs[..i], dirPath, rel, Source)
    {
      ListedSnoc(Classifier(patterns, rel), cs, i, dirPath, rel, SubDirectory);
      ListedSnoc(Classifier(patterns, rel), cs, i, dirPath, rel, Source);
      dirCount, pdeCount := Distribute(patterns, cs[i], dirPath, rel, dirs, dirRels, dirCount, pdes, pdeRels, pdeCount);
      i := i + 1;
    }
    assert cs[..i] == cs;
  }

  lemma ListedSnoc(kindOf: Node -> Kind, cs: seq<Node>, i: nat, dirPath: string, rel: string, kind: Kind)
    requires i < |cs|
    ensures Listed(kindOf, cs[..i + 1], dirPath, rel, kind)
            == Listed(kindOf, cs[..i], dirPath, rel, kind) + Entered(kindOf, cs[i], dirPath, rel, kind)
  {
    assert cs[..i + 1][..i] == cs[..i];
  }

  /** The body of the enumeration loop for entry `c`: its path and relative
      path go to the arrays of its kind, if it has one. */
  method Distribute(patterns: seq<string>, c: Node, dirPath: string, rel: string,
                    dirs: array<string>, dirRels: array<string>, dirCount: nat,
                    pdes: array<string>, pdeRels: array<string>, pdeCount: nat)
    returns (dirCount': nat, pdeCount': nat)
    requires dirCount < dirs.Length && dirCount < dirRels.Length
    requires pdeCount < pdes.Length && pdeCount < pdeRels.Length
    requires dirs != dirRels && pdes != pdeRels && dirs != pdes && dirs != pdeRels
    requires dirRels != pdes && dirRels != pdeRels
    modifies dirs, dirRels, pdes, pdeRels
    ensures dirCount <= dirCount' <= dirCount + 1 && pdeCount <= pdeCount' <= pdeCount + 1
    ensures Zip(dirs[..dirCount'], dirRels[..dirCount'])
            == Zip(old(dirs[..dirCount]), old(dirRels[..dirCount])) + Entered(Classifier(patterns, rel), c, dirPath, rel, SubDirectory)
    ensures Zip(pdes[..pdeCount'], pdeRels[..pdeCount'])
            == Zip(old(pdes[..pdeCount]), old(pdeRels[..pdeCount])) + Entered(Classifier(patterns, rel), c, dirPath, rel, Source)
  {
    dirCount', pdeCount' := dirCount, pdeCount;
    var kind := ClassifyEntry(patterns, c, rel);
    var e := EntryOf(dirPath, rel, c);
    if kind == SubDirectory {
      dirCount' := Push(dirs, dirRels, dirCount, e.path, e.relative);
    } else if kind == Source {
      pdeCount' := Push(pdes, pdeRels, pdeCount, e.path, e.relative);
    }
  }

  // ---- the depth-first order ----

  /** The directory a sub-directory path names, as `FindFirstFile` would open
      it: the first directory entry of that name; a name with no such entry
      cannot be listed. */
  function FindIn(cs: seq<Node>, name: string): (r: Node)
    ensures r.Dir? ==> r in cs && r.name == name
    decreases |cs|
  {
    if cs == [] then Locked(name)
    else if IsDirectory(cs[0]) && cs[0].name == name then cs[0]
    else FindIn(cs[1..], name)
  }

  function Find(parent: Node, name: string): (r: Node)
    requires parent.Dir?
    ensures r.Dir? ==> r in parent.children
  {
    FindIn(parent.children, name)
  }

  /** The files a call `collect_files(dirPath, rel)` on `node` contributes,
      before the cap: the sorted sub-directories' files, each sub-directory's
      in one block, then the directory's own sorted `.pde` files. */
  function Collected(patterns: seq<string>, node: Node, dirPath: string, rel: string): seq<FileEntry>
    decreases node, 1
  {
    if !node.Dir? then []
    else
      Subtrees(patterns, node, ExchangeSort(Listed(Classifier(patterns, rel), node.children, dirPath, rel, SubDirectory)))
      + ExchangeSort(Listed(Classifier(patterns, rel), node.children, dirPath, rel, Source))
  }

  function Subtrees(patterns: seq<string>, parent: Node, ds: seq<FileEntry>): seq<FileEntry>
    requires parent.Dir?
    decreases parent, 0, |ds|
  {
    if ds == [] then []
    else
      var sub := Find(parent, BaseName(ds[0].path));
      (if sub.Dir? then Collected(patterns, sub, ds[0].path, ds[0].relative) else [])
      + Subtrees(patterns, parent, ds[1..])
  }

  /** What the fixed `files[MAX_FILES]` table can hold: the first `MAX_FILES` entries. */
  function Capped(s: seq<FileEntry>): (r: seq<FileEntry>)
    ensures |r| <= MAX_FILES && r <= s
    ensures |s| <= MAX_FILES ==> r == s
    ensures |s| > MAX_FILES ==> |r| == MAX_FILES
  {
    if |s| <= MAX_FILES then s else s[..MAX_FILES]
  }

  /** Appending to a capped table and capping again is capping once. */
  lemma CappedAppend(a: seq<FileEntry>, b: seq<FileEntry>, c: seq<FileEntry>)
    ensures Capped(Capped(a + b) + c) == Capped(a + (b + c))
  {
    assert (a + b) + c == a + (b + c);
    var ab := a + b;
    if |ab| > MAX_FILES {
      assert (ab[..MAX_FILES] + c)[..MAX_FILES] == ab[..MAX_FILES] == (ab + c)[..MAX_FILES];
    }
  }

  /** The global `files` table with its `file_count`, filled by `collect_files`. */
  class Collector {
    const patterns: seq<string>
    const files: array<FileEntry>
    var fileCount: nat

    ghost predicate Valid()
      reads this
    {
      files.Length == MAX_FILES && fileCount <= MAX_FILES
    }

    ghost function Contents(): seq<FileEntry>
      reads this, files
      requires Valid()
    {
      files[..fileCount]
    }

    constructor (patterns: seq<string>)
      ensures Valid() && fresh(files) && Contents() == [] && this.patterns == patterns
    {
      this.patterns := patterns;
      files := new FileEntry[MAX_FILES];
      fileCount := 0;
    }

    /** Store one entry at the end of the table, unless the table is already full. */
    method AddFile(e: FileEntry)
      requires Valid()
      modifies this, files
      ensures Valid() && Contents() == Capped(old(Contents()) + [e])
    {
      if fileCount < MAX_FILES {
        files[fileCount] := e;
        fileCount := fileCount + 1;
      }
    }

    /** `collect_files(dirPath, rel)` on the directory `node`. */
    method CollectFiles(node: Node, dirPath: string, rel: string)
      requires Valid()
      modifies this, files
      ensures Valid() && Contents() == Capped(old(Contents()) + Collected(patterns, node, dirPath, rel))
      decreases node, 1
    {
      if !node.Dir? {
        assert Capped(Contents() + []) == Contents();
        return;
      }
      var dirs, dirRels, dirCount, pdes, pdeRels, pdeCount := Enumerate(patterns, node, dirPath, rel);
      ghost var ld := Listed(Classifier(patterns, rel), node.children, dirPath, rel, SubDirectory);
      ghost var lf := Listed(Classifier(patterns, rel), node.children, dirPath, rel, Source);
      SortByName(dirs, dirRels, dirCount);
      ghost var sd := Zip(dirs[..dirCount], dirRels[..dirCount]);
      assert sd == ExchangeSort(ld);
      SortByName(pdes, pdeRels, pdeCount);
      ghost var sf := Zip(pdes[..pdeCount], pdeRels[..pdeCount]);
      assert sf == ExchangeSort(lf);
      assert Zip(dirs[..dirCount], dirRels[..dirCount]) == sd;
      ghost var c0 := Contents();
      ghost var s := Subtrees(patterns, node, sd);
      VisitSubdirectories(node, dirs, dirRels, dirCount);
      assert Contents() == Capped(c0 + s);
      assert Zip(pdes[..pdeCount], pdeRels[..pdeCount]) == sf;
      AddFiles(pdes, pdeRels, pdeCount);
      assert Contents() == Capped(Capped(c0 + s) + sf);
      CappedAppend(c0, s, sf);
      CollectedDef(patterns, node, dirPath, rel);
      assert s + sf == Collected(patterns, node, dirPath, rel);
    }

    /** The depth-first loop: walk each sorted sub-directory in turn. */
    method VisitSubdirectories(node: Node, dirs: array<string>, dirRels: array<string>, dirCount: nat)
      requires Valid() && node.Dir?
      requires dirCount <= dirs.Length && dirCount <= dirRels.Length
      modifies this, files
      ensures Valid()
      ensures Contents() == Capped(old(Contents()) + Subtrees(patterns, node, Zip(dirs[..dirCount], dirRels[..dirCount])))
      decreases node, 0
    {
      ghost var sd := Zip(dirs[..dirCount], dirRels[..dirCount]);
      ghost var c0 := Contents();
      assert sd[0..] == sd;
      assert Capped(c0) == c0;
      var i := 0;
      while i < dirCount
        invariant 0 <= i <= dirCount
        invariant Valid()
        invariant Zip(dirs[..dirCount], dirRels[..dirCount]) == sd
        invariant Capped(Contents() + Subtrees(patterns, node, sd[i..])) == Capped(c0 + Subtrees(patterns, node, sd))
      {
        ghost var before := Contents();
        ghost var rest := Subtrees(patterns, node, sd[i + 1..]);
        SubtreesStep(patterns, node, sd, i);
        var sub := Find(node, BaseName(dirs[i]));
        if sub.Dir? {
          CollectFiles(sub, dirs[i], dirRels[i]);
          CappedAppend(before, Collected(patterns, sub, sd[i].path, sd[i].relative), rest);
          assert Capped(before) == before;
        } else {
          assert Subtrees(patterns, node, sd[i..]) == [] + rest == rest;
        }
        i := i + 1;
      }
      assert sd[dirCount..] == [];
      assert Contents() + [] == Contents() && Capped(Contents()) == Contents();
    }

    /** The loop that appends this directory's sorted `.pde` files. */
    method AddFiles(pdes: array<string>, pdeRels: array<string>, pdeCount: nat)
      requires Valid()
      requires pdeCount <= pdes.Length && pdeCount <= pdeRels.Length
      modifies this, files
      ensures Valid()
      ensures Contents() == Capped(old(Contents()) + Zip(old(pdes[..pdeCount]), old(pdeRels[..pdeCount])))
    {
      ghost var sf := Zip(pdes[..pdeCount], pdeRels[..pdeCount]);
      ghost var c0 := Contents();
      assert sf[0..] == sf;
      assert Capped(c0) == c0;
      var k := 0;
      while k < pdeCount
        invariant 0 <= k <= pdeCount
        invariant Valid()
        invariant Zip(pdes[..pdeCount], pdeRels[..pdeCount]) == sf
        invariant Capped(Contents() + sf[k..]) == Capped(c0 + sf)
      {
        ghost var before := Contents();
        AddFile(FileEntry(pdes[k], pdeRels[k]));
        assert sf[k..] == [sf[k]] + sf[k + 1..];
        CappedAppend(before, [sf[k]], sf[k + 1..]);
        assert Capped(before) == before;
        k := k + 1;
      }
      assert sf[pdeCount..] == [];
      assert Contents() + [] == Contents() && Capped(Contents()) == Contents();
    }
  }

  lemma CollectedDef(patterns: seq<string>, node: Node, dirPath: string, rel: string)
    requires node.Dir?
    ensures Collected(patterns, node, dirPath, rel)
         == Subtrees(patterns, node, ExchangeSort(Listed(Classifier(patterns, rel), node.children, dirPath, rel, SubDirectory)))
            + ExchangeSort(Listed(Classifier(patterns, rel), node.children, dirPath, rel, Source))
  {
  }

  lemma SubtreesStep(patterns: seq<string>, parent: Node, ds: seq<FileEntry>, i: nat)
    requires parent.Dir? && i < |ds|
    ensures Subtrees(patterns, parent, ds[i..])
         == (var sub := Find(parent, BaseName(ds[i].path));
             if sub.Dir? then Collected(patterns, sub, ds[i].path, ds[i].relative) else [])
            + Subtrees(patterns, parent, ds[i + 1..])
  {
    assert ds[i..][0] == ds[i] && ds[i..][1..] == ds[i + 1..];
  }

  // ---- what the walk admits ----

  /** A name `FindFirstFile` can report: non-empty, with neither separator in it. */
  predicate ValidName(name: string)
  {
    name != [] && Lacks(name, '\\') && Lacks(name, '/')
  }

  /** Every entry below `n` has a valid name. */
  predicate WellNamed(n: Node)
    decreases n
  {
    n.Dir? ==> forall c :: c in n.children ==> ValidName(c.name) && WellNamed(c)
  }

  /** In `dir + sep + name`, for a name without `sep`, the last `sep` is the
      one the join put in, and the text after it is the name. */
  lemma {:induction false} LastOfJoin(dir: string, sep: char, name: string)
    requires Lacks(name, sep)
    ensures LastOf(dir + [sep] + name, sep) == Some(|dir|)
    ensures After(dir + [sep] + name, sep) == name
    decreases |name|
  {
    var s := dir + [sep] + name;
    if name != [] {
      var init := name[..|name| - 1];
      LastOfJoin(dir, sep, init);
      assert s[..|s| - 1] == dir + [sep] + init;
    }
    assert s[|dir| + 1..] == name;
  }

  lemma JoinPathHasSep(dir: string, name: string)
    ensures LastOf(JoinPath(dir, name), '\\').Some?
  {
    var s := JoinPath(dir, name);
    assert s[|dir|] == '\\';
  }

  /** An entry is in the listing of a kind exactly when some child of that kind produced it. */
  lemma {:induction false} ListedMembers(kindOf: Node -> Kind, cs: seq<Node>, dirPath: string, rel: string, kind: Kind, e: FileEntry)
    ensures e in Listed(kindOf, cs, dirPath, rel, kind)
        <==> exists c :: c in cs && kindOf(c) == kind && e == EntryOf(dirPath, rel, c)
  {
    if e in Listed(kindOf, cs, dirPath, rel, kind) {
      ListedSound(kindOf, cs, dirPath, rel, kind, e);
    }
    if exists c :: c in cs && kindOf(c) == kind && e == EntryOf(dirPath, rel, c) {
      var c :| c in cs && kindOf(c) == kind && e == EntryOf(dirPath, rel, c);
      ListedComplete(kindOf, cs, dirPath, rel, kind, c);
    }
  }

  /** Every listed entry comes from a child of that kind. */
  lemma {:induction false} ListedSound(kindOf: Node -> Kind, cs: seq<Node>, dirPath: string, rel: string, kind: Kind, e: FileEntry)
    requires e in Listed(kindOf, cs, dirPath, rel, kind)
    ensures exists c :: c in cs && kindOf(c) == kind && e == EntryOf(dirPath, rel, c)
    decreases |cs|
  {
    var init, last := cs[..|cs| - 1], cs[|cs| - 1];
    assert Listed(kindOf, cs, dirPath, rel, kind)
        == Listed(kindOf, init, dirPath, rel, kind) + Entered(kindOf, last, dirPath, rel, kind);
    if e in Listed(kindOf, init, dirPath, rel, kind) {
      ListedSound(kindOf, init, dirPath, rel, kind, e);
      var c :| c in init && kindOf(c) == kind && e == EntryOf(dirPath, rel, c);
      assert c in cs;
    } else {
      assert last in cs && kindOf(last) == kind && e == EntryOf(dirPath, rel, last);
    }
  }

  /** Every child of that kind is listed. */
  lemma {:induction false} ListedComplete(kindOf: Node -> Kind, cs: seq<Node>, dirPath: string, rel: string, kind: Kind, c: Node)
    requires c in cs && kindOf(c) == kind
    ensures EntryOf(dirPath, rel, c) in Listed(kindOf, cs, dirPath, rel, kind)
    decreases |cs|
  {
    var init, last := cs[..|cs| - 1], cs[|cs| - 1];
    assert cs == init + [last];
    assert Listed(kindOf, cs, dirPath, rel, kind)
        == Listed(kindOf, init, dirPath, rel, kind) + Entered(kindOf, last, dirPath, rel, kind);
    if c != last {
      assert c in init;
      ListedComplete(kindOf, init, dirPath, rel, kind, c);
    }
  }

  /** Every listed path has a backslash, so the sorts compare base names. */
  lemma ListedHasSep(kindOf: Node -> Kind, cs: seq<Node>, dirPath: string, rel: string, kind: Kind)
    ensures AllSep(Listed(kindOf, cs, dirPath, rel, kind))
  {
    var l := Listed(kindOf, cs, dirPath, rel, kind);
    forall k | 0 <= k < |l| ensures LastOf(l[k].path, '\\').Some? {
      ListedMembers(kindOf, cs, dirPath, rel, kind, l[k]);
      var c :| c in cs && kindOf(c) == kind && l[k] == EntryOf(dirPath, rel, c);
      JoinPathHasSep(dirPath, c.name);
    }
  }

  /** The two sorted listings of `collect_files`: in base-name order and
      permutations of the enumeration. */
  lemma ListingsSorted(patterns: seq<string>, cs: seq<Node>, dirPath: string, rel: string, kind: Kind)
    ensures NameSorted(ExchangeSort(Listed(Classifier(patterns, rel), cs, dirPath, rel, kind)))
    ensures multiset(ExchangeSort(Listed(Classifier(patterns, rel), cs, dirPath, rel, kind))) == multiset(Listed(Classifier(patterns, rel), cs, dirPath, rel, kind))
  {
    ListedHasSep(Classifier(patterns, rel), cs, dirPath, rel, kind);
    ExchangeSortSorted(Listed(Classifier(patterns, rel), cs, dirPath, rel, kind));
  }

  lemma SortedMember(s: seq<FileEntry>, e: FileEntry)
    requires e in ExchangeSort(s)
    ensures e in s
  {
    SortFromPerm(Greater, s, 0);
    assert e in multiset(ExchangeSort(s));
  }

  /** A sub-directory the walk recurses into is a directory that is not
      `output` in any letter case and whose relative path is not ignored. */
  lemma VisitedDirectoryAdmitted(patterns: seq<string>, node: Node, dirPath: string, rel: string, d: FileEntry)
    requires node.Dir? && WellNamed(node)
    requires d in ExchangeSort(Listed(Classifier(patterns, rel), node.children, dirPath, rel, SubDirectory))
    ensures !CaseEq(BaseName(d.path), "output") && BaseName(d.path) != "." && BaseName(d.path) != ".."
    ensures d.relative == JoinRelative(rel, BaseName(d.path)) && !Ignored(patterns, d.relative)
    ensures ValidName(BaseName(d.path))
    ensures var f := Find(node, BaseName(d.path));
            f in node.children && IsDirectory(f) && f.name == BaseName(d.path)
            && Classify(patterns, f, rel) == SubDirectory && EntryOf(dirPath, rel, f) == d
  {
    SortedMember(Listed(Classifier(patterns, rel), node.children, dirPath, rel, SubDirectory), d);
    ListedMembers(Classifier(patterns, rel), node.children, dirPath, rel, SubDirectory, d);
    var c :| c in node.children && Classify(patterns, c, rel) == SubDirectory && d == EntryOf(dirPath, rel, c);
    LastOfJoin(dirPath, '\\', c.name);
    assert JoinPath(dirPath, c.name) == dirPath + ['\\'] + c.name;
    FindInFinds(node.children, c);
  }

  /** Looking a name up among entries that hold a directory of that name
      finds a directory entry of that name. */
  lemma {:induction false} FindInFinds(cs: seq<Node>, c: Node)
    requires c in cs && IsDirectory(c)
    ensures var f := FindIn(cs, c.name); f in cs && IsDirectory(f) && f.name == c.name
    decreases |cs|
  {
    if !(IsDirectory(cs[0]) && cs[0].name == c.name) {
      assert c in cs[1..];
      FindInFinds(cs[1..], c);
    }
  }

  /** When the names in a directory are distinct, as a file system keeps
      them, looking up a directory's name finds that very entry. */
  lemma FindInDistinct(cs: seq<Node>, c: Node)
    requires c in cs && IsDirectory(c)
    requires forall i, j :: 0 <= i < j < |cs| ==> cs[i].name != cs[j].name
    ensures FindIn(cs, c.name) == c
  {
    FindInFinds(cs, c);
    var f := FindIn(cs, c.name);
    var i :| 0 <= i < |cs| && cs[i] == f;
    var j :| 0 <= j < |cs| && cs[j] == c;
    assert i == j;
  }

  /** Entries of this directory's own file listing are `.pde` files whose
      relative paths are not ignored, under `dirPath`. */
  lemma SourceAdmitted(patterns: seq<string>, cs: seq<Node>, dirPath: string, rel: string, e: FileEntry)
    requires e in ExchangeSort(Listed(Classifier(patterns, rel), cs, dirPath, rel, Source))
    ensures !Ignored(patterns, e.relative) && EndsWith(e.relative, ".pde") && dirPath + "\\" <= e.path
  {
    SortedMember(Listed(Classifier(patterns, rel), cs, dirPath, rel, Source), e);
    ListedMembers(Classifier(patterns, rel), cs, dirPath, rel, Source, e);
    var c :| c in cs && Classify(patterns, c, rel) == Source && e == EntryOf(dirPath, rel, c);
    if |rel| != 0 {
      EndsWithPrefixed(rel + "/", c.name, ".pde");
      assert e.relative == (rel + "/") + c.name;
    }
    assert e.path == (dirPath + "\\") + c.name;
  }

  /** Every collected file is a `.pde` file, its relative path is not ignored,
      and its native path lies under the directory walked. */
  lemma {:induction false} CollectedAdmitted(patterns: seq<string>, node: Node, dirPath: string, rel: string)
    ensures forall e :: e in Collected(patterns, node, dirPath, rel)
              ==> !Ignored(patterns, e.relative) && EndsWith(e.relative, ".pde") && dirPath + "\\" <= e.path
    ensures WellNamed(node) ==>
              forall e :: e in Collected(patterns, node, dirPath, rel) ==> Beneath(patterns, rel, e.relative)
    decreases node, 1
  {
    if WellNamed(node) {
      CollectedUnder(patterns, node, dirPath, rel);
    }
    if node.Dir? {
      var ds := ExchangeSort(Listed(Classifier(patterns, rel), node.children, dirPath, rel, SubDirectory));
      var fs := ExchangeSort(Listed(Classifier(patterns, rel), node.children, dirPath, rel, Source));
      forall d | d in ds ensures dirPath + "\\" <= d.path {
        SortedMember(Listed(Classifier(patterns, rel), node.children, dirPath, rel, SubDirectory), d);
        ListedMembers(Classifier(patterns, rel), node.children, dirPath, rel, SubDirectory, d);
        var c :| c in node.children && Classify(patterns, c, rel) == SubDirectory && d == EntryOf(dirPath, rel, c);
        assert d.path == (dirPath + "\\") + c.name;
      }
      SubtreesAdmitted(patterns, node, dirPath, ds);
      forall e | e in fs
        ensures !Ignored(patterns, e.relative) && EndsWith(e.relative, ".pde") && dirPath + "\\" <= e.path
      {
        SourceAdmitted(patterns, node.children, dirPath, rel, e);
      }
    }
  }

  lemma {:induction false} SubtreesAdmitted(patterns: seq<string>, parent: Node, dirPath: string, ds: seq<FileEntry>)
    requires parent.Dir? && forall d :: d in ds ==> dirPath + "\\" <= d.path
    ensures forall e :: e in Subtrees(patterns, parent, ds)
              ==> !Ignored(patterns, e.relative) && EndsWith(e.relative, ".pde") && dirPath + "\\" <= e.path
    decreases parent, 0, |ds|
  {
    if ds != [] {
      var sub := Find(parent, BaseName(ds[0].path));
      SubtreesAdmitted(patterns, parent, dirPath, ds[1..]);
      if sub.Dir? {
        CollectedAdmitted(patterns, sub, ds[0].path, ds[0].relative);
        forall e | e in Collected(patterns, sub, ds[0].path, ds[0].relative)
          ensures dirPath + "\\" <= e.path
        {
          var pre := dirPath + "\\";
          assert pre <= ds[0].path && ds[0].path <= e.path;
          assert e.path[..|pre|] == ds[0].path[..|pre|];
        }
      }
    }
  }

  /** A directory the walk enters at relative path `p`: its name is not
      `.`, `..` or `output` in any letter case, and `p` is not ignored. */
  predicate DirAdmitted(patterns: seq<string>, p: string)
  {
    var n := After(p, '/');
    n != "." && n != ".." && !CaseEq(n, "output") && !Ignored(patterns, p)
  }

  /** `r` lies below the directory at `rel`, and every directory on the way
      down from `rel` (each prefix of `r` that ends before a `/`) was admitted. */
  predicate Beneath(patterns: seq<string>, rel: string, r: string)
  {
    && (|rel| > 0 ==> rel + "/" <= r)
    && forall j :: |rel| < j < |r| && r[j] == '/' ==> DirAdmitted(patterns, r[..j])
  }

  /** A joined relative path has no `/` past the parent's, and names the child last. */
  lemma JoinRelativeShape(rel: string, n: string)
    requires ValidName(n)
    ensures |JoinRelative(rel, n)| > 0 && After(JoinRelative(rel, n), '/') == n
    ensures |rel| > 0 ==> rel + "/" <= JoinRelative(rel, n)
    ensures forall k :: |rel| < k < |JoinRelative(rel, n)| ==> JoinRelative(rel, n)[k] != '/'
  {
    if |rel| > 0 {
      LastOfJoin(rel, '/', n);
      assert JoinRelative(rel, n) == rel + ['/'] + n;
      forall k | |rel| < k < |JoinRelative(rel, n)| ensures JoinRelative(rel, n)[k] != '/' {
        assert JoinRelative(rel, n)[k] == n[k - |rel| - 1];
      }
    }
  }

  /** A file of the directory at `rel` lies directly below it. */
  lemma FileBeneath(patterns: seq<string>, rel: string, n: string)
    requires ValidName(n)
    ensures Beneath(patterns, rel, JoinRelative(rel, n))
  {
    JoinRelativeShape(rel, n);
  }

  /** Below an admitted sub-directory `d` of `rel` is below `rel`. */
  lemma StepBeneath(patterns: seq<string>, rel: string, n: string, r: string)
    requires ValidName(n) && DirAdmitted(patterns, JoinRelative(rel, n))
    requires Beneath(patterns, JoinRelative(rel, n), r)
    ensures Beneath(patterns, rel, r)
  {
    var d := JoinRelative(rel, n);
    JoinRelativeShape(rel, n);
    assert r[..|d|] == d;
    forall k | |rel| < k < |d| ensures r[k] != '/' {
      assert r[k] == d[k];
    }
    forall j | |rel| < j < |r| && r[j] == '/' ensures DirAdmitted(patterns, r[..j]) {
      if j == |d| {
        assert r[..j] == d;
      }
    }
    if |rel| > 0 {
      assert (rel + "/") <= d;
      assert r[..|rel| + 1] == d[..|rel| + 1];
    }
  }

  /** A sub-directory listed for the walk at `rel`, in the terms `Beneath` uses. */
  predicate Visitable(patterns: seq<string>, rel: string, d: FileEntry)
  {
    var n := BaseName(d.path);
    ValidName(n) && d.relative == JoinRelative(rel, n) && DirAdmitted(patterns, d.relative)
  }

  /** No collected file lies under an `output` directory, a `.` or `..`
      entry, or an ignored directory, at any depth below `rel`. */
  lemma {:induction false} CollectedUnder(patterns: seq<string>, node: Node, dirPath: string, rel: string)
    requires WellNamed(node)
    ensures forall e :: e in Collected(patterns, node, dirPath, rel) ==> Beneath(patterns, rel, e.relative)
    decreases node, 1
  {
    if node.Dir? {
      var ld := Listed(Classifier(patterns, rel), node.children, dirPath, rel, SubDirectory);
      var lf := Listed(Classifier(patterns, rel), node.children, dirPath, rel, Source);
      forall d | d in ExchangeSort(ld) ensures Visitable(patterns, rel, d) {
        VisitedDirectoryAdmitted(patterns, node, dirPath, rel, d);
        JoinRelativeShape(rel, BaseName(d.path));
      }
      SubtreesUnder(patterns, node, rel, ExchangeSort(ld));
      forall e | e in ExchangeSort(lf) ensures Beneath(patterns, rel, e.relative) {
        SortedMember(lf, e);
        ListedMembers(Classifier(patterns, rel), node.children, dirPath, rel, Source, e);
        var c :| c in node.children && Classify(patterns, c, rel) == Source && e == EntryOf(dirPath, rel, c);
        FileBeneath(patterns, rel, c.name);
      }
    }
  }

  lemma {:induction false} SubtreesUnder(patterns: seq<string>, parent: Node, rel: string, ds: seq<FileEntry>)
    requires parent.Dir? && WellNamed(parent)
    requires forall d :: d in ds ==> Visitable(patterns, rel, d)
    ensures forall e :: e in Subtrees(patterns, parent, ds) ==> Beneath(patterns, rel, e.relative)
    decreases parent, 0, |ds|
  {
    if ds != [] {
      var d := ds[0];
      assert d in ds;
      var sub := Find(parent, BaseName(d.path));
      SubtreesUnder(patterns, parent, rel, ds[1..]);
      if sub.Dir? {
        CollectedUnder(patterns, sub, d.path, d.relative);
        forall e | e in Collected(patterns, sub, d.path, d.relative) ensures Beneath(patterns, rel, e.relative) {
          StepBeneath(patterns, rel, BaseName(d.path), e.relative);
        }
      }
    }
  }

  /** Each sub-directory's files form one block: the blocks of a split
      listing are the blocks of its parts, in order. */
  lemma {:induction false} SubtreesAppend(patterns: seq<string>, parent: Node, ds1: seq<FileEntry>, ds2: seq<FileEntry>)
    requires parent.Dir?
    ensures Subtrees(patterns, parent, ds1 + ds2) == Subtrees(patterns, parent, ds1) + Subtrees(patterns, parent, ds2)
    decreases |ds1|
  {
    if ds1 != [] {
      var sub := Find(parent, BaseName(ds1[0].path));
      var h := if sub.Dir? then Collected(patterns, sub, ds1[0].path, ds1[0].relative) else [];
      assert (ds1 + ds2)[0] == ds1[0] && (ds1 + ds2)[1..] == ds1[1..] + ds2;
      SubtreesAppend(patterns, parent, ds1[1..], ds2);
      Associative(h, Subtrees(patterns, parent, ds1[1..]), Subtrees(patterns, parent, ds2));
    } else {
      assert ds1 + ds2 == ds2;
    }
  }
}
