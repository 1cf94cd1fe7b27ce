/**
 * Ignore-rule matching: the `*`/`?` wildcard matcher, the check of a relative
 * path against every configured ignore pattern, the case-insensitive suffix
 * test used for the `.pde` extension, and the white-space trimming helper of
 * the configuration reader.
 */
module Glob {
  import opened Text

  predicate AllStars(p: string)
  {
    forall i :: 0 <= i < |p| ==> p[i] == '*'
  }

  predicate NoWildcards(p: string)
  {
    forall i :: 0 <= i < |p| ==> p[i] != '*' && p[i] != '?'
  }

  /** `wildcard_match`, step for step: the outer loop walks pattern and text
      together; a `*` with nothing after it succeeds at once, otherwise the
      rest of the pattern is tried against each non-empty suffix of the text
      (`StarScan`); once either string is used up, only `*`s may remain in
      the pattern and the text must be used up. */
  function WildcardMatch(p: string, s: string): bool
    decreases |p| + |s|, 1
  {
    if p != [] && s != [] then
      if p[0] == '*' then
        if p[1..] == [] then true else StarScan(p[1..], s)
      else if p[0] == '?' || Lower(p[0]) == Lower(s[0]) then
        WildcardMatch(p[1..], s[1..])
      else
        false
    else
      AllStars(p) && s == []
  }

  /** The scan that follows a `*`: the first non-empty suffix of `s`
      that the rest of the pattern matches ends the search with success. */
  function StarScan(p: string, s: string): bool
    decreases |p| + |s|, 2
  {
    s != [] && (WildcardMatch(p, s) || StarScan(p, s[1..]))
  }

  /** The textbook meaning of a glob: `*` matches any run of characters
      (possibly empty), `?` exactly one character, any other pattern character
      one text character equal to it after `tolower`. */
  predicate GlobMatch(p: string, s: string)
    decreases |p| + |s|
  {
    if p == [] then s == []
    else if p[0] == '*' then GlobMatch(p[1..], s) || (s != [] && GlobMatch(p, s[1..]))
    else s != [] && (p[0] == '?' || Lower(p[0]) == Lower(s[0])) && GlobMatch(p[1..], s[1..])
  }

  lemma {:induction false} GlobEmptyText(p: string)
    ensures GlobMatch(p, []) == AllStars(p)
    decreases |p|
  {
    if p != [] && p[0] == '*' {
      GlobEmptyText(p[1..]);
      assert AllStars(p) == AllStars(p[1..]) by {
        assert forall i :: 0 < i < |p| ==> p[i] == p[1..][i - 1];
      }
    }
  }

  lemma {:induction false} GlobAllStars(p: string, s: string)
    requires AllStars(p) && p != []
    ensures GlobMatch(p, s)
    decreases |s|
  {
    if s != [] {
      GlobAllStars(p, s[1..]);
    } else {
      GlobEmptyText(p);
    }
  }

  lemma {:induction false} GlobStar(p: string, s: string)
    requires p != [] && p[0] == '*'
    ensures GlobMatch(p, s) <==> exists i :: 0 <= i <= |s| && GlobMatch(p[1..], s[i..])
    decreases |s|
  {
    assert s[0..] == s;
    if s != [] {
      GlobStar(p, s[1..]);
      if GlobMatch(p, s[1..]) {
        var i :| 0 <= i <= |s[1..]| && GlobMatch(p[1..], s[1..][i..]);
        assert s[1..][i..] == s[i + 1..];
      }
      forall i | 1 <= i <= |s| && GlobMatch(p[1..], s[i..])
        ensures GlobMatch(p, s[1..])
      {
        assert s[1..][i - 1..] == s[i..];
      }
    }
  }

  lemma {:induction false} MatchAgrees(p: string, s: string)
    ensures WildcardMatch(p, s) == GlobMatch(p, s)
    decreases |p| + |s|, 1
  {
    if p != [] && s != [] {
      if p[0] == '*' {
        if p[1..] == [] {
          GlobAllStars(p, s);
        } else {
          var q := p[1..];
          ScanAgrees(q, s);
          GlobStar(p, s);
          if AllStars(q) {
            GlobAllStars(q, s);
            assert s[0..] == s;
          }
          GlobEmptyText(q);
          assert s[|s|..] == [];
        }
      } else {
        MatchAgrees(p[1..], s[1..]);
      }
    } else if p != [] {
      GlobEmptyText(p);
    }
  }

  lemma {:induction false} ScanAgrees(p: string, s: string)
    ensures StarScan(p, s) <==> exists i :: 0 <= i < |s| && GlobMatch(p, s[i..])
    decreases |p| + |s|, 2
  {
    if s != [] {
      MatchAgrees(p, s);
      ScanAgrees(p, s[1..]);
      assert s[0..] == s;
      if StarScan(p, s[1..]) {
        var i :| 0 <= i < |s[1..]| && GlobMatch(p, s[1..][i..]);
        assert s[1..][i..] == s[i + 1..];
      }
      forall i | 1 <= i < |s| && GlobMatch(p, s[i..])
        ensures StarScan(p, s[1..])
      {
        assert s[1..][i - 1..] == s[i..];
      }
    }
  }

  /** `?` consumes exactly one character of the text. */
  lemma QuestionConsumesOne(q: string, s: string)
    ensures WildcardMatch("?" + q, s) <==> s != [] && WildcardMatch(q, s[1..])
  {
    MatchAgrees("?" + q, s);
    assert ("?" + q)[1..] == q;
    if s != [] {
      MatchAgrees(q, s[1..]);
    }
  }

  /** `*` matches any run of the text, the empty run included. */
  lemma StarMatchesAnyRun(q: string, s: string)
    ensures WildcardMatch("*" + q, s) <==> exists i :: 0 <= i <= |s| && WildcardMatch(q, s[i..])
  {
    MatchAgrees("*" + q, s);
    GlobStar("*" + q, s);
    assert ("*" + q)[1..] == q;
    forall i | 0 <= i <= |s|
      ensures WildcardMatch(q, s[i..]) == GlobMatch(q, s[i..])
    {
      MatchAgrees(q, s[i..]);
    }
  }

  lemma {:induction false} GlobTrailingStars(p: string, q: string, s: string)
    requires AllStars(q) && GlobMatch(p, s)
    ensures GlobMatch(p + q, s)
    decreases |p| + |s|
  {
    if p == [] {
      assert p + q == q;
      if q != [] { GlobAllStars(q, s); }
    } else {
      assert (p + q)[1..] == p[1..] + q;
      if p[0] == '*' {
        if GlobMatch(p[1..], s) {
          GlobTrailingStars(p[1..], q, s);
        } else {
          GlobTrailingStars(p, q, s[1..]);
        }
      } else {
        GlobTrailingStars(p[1..], q, s[1..]);
      }
    }
  }

  /** A pattern that matches a text still matches it with `*`s appended, and
      a pattern made only of `*`s matches every text. */
  lemma TrailingStarsMatchEmpty(p: string, q: string, s: string)
    requires AllStars(q)
    ensures WildcardMatch(p, s) ==> WildcardMatch(p + q, s)
    ensures q != [] ==> WildcardMatch(q, s)
  {
    MatchAgrees(p, s);
    MatchAgrees(p + q, s);
    MatchAgrees(q, s);
    if GlobMatch(p, s) { GlobTrailingStars(p, q, s); }
    if q != [] { GlobAllStars(q, s); }
  }

  lemma {:induction false} GlobLiteral(p: string, s: string)
    requires NoWildcards(p)
    ensures GlobMatch(p, s) <==> |p| == |s| && CaseEq(p, s)
    decreases |p|
  {
    if p != [] && s != [] {
      GlobLiteral(p[1..], s[1..]);
      assert LowerAll(p) == [Lower(p[0])] + LowerAll(p[1..]);
      assert LowerAll(s) == [Lower(s[0])] + LowerAll(s[1..]);
      if |p| == |s| && CaseEq(p, s) {
        assert LowerAll(p)[0] == LowerAll(s)[0];
        assert LowerAll(p[1..]) == LowerAll(p)[1..] == LowerAll(s)[1..] == LowerAll(s[1..]);
      }
    } else if p != [] {
      assert |LowerAll(p)| != |LowerAll(s)|;
    } else if s != [] {
      assert |LowerAll(p)| != |LowerAll(s)|;
    }
  }

  /** A pattern without wildcards matches exactly the texts of its length that
      are equal to it after lower-casing. */
  lemma LiteralMatchesEqualText(p: string, s: string)
    requires NoWildcards(p)
    ensures WildcardMatch(p, s) <==> |p| == |s| && CaseEq(p, s)
  {
    MatchAgrees(p, s);
    GlobLiteral(p, s);
  }

  lemma {:induction false} GlobCaseInsensitive(p1: string, p2: string, s1: string, s2: string)
    requires LowerAll(p1) == LowerAll(p2) && LowerAll(s1) == LowerAll(s2)
    ensures GlobMatch(p1, s1) == GlobMatch(p2, s2)
    decreases |p1| + |s1|
  {
    assert |p1| == |LowerAll(p1)| == |p2| && |s1| == |LowerAll(s1)| == |s2|;
    if p1 != [] {
      assert Lower(p1[0]) == LowerAll(p1)[0] == Lower(p2[0]);
      assert (p1[0] == '*') == (p2[0] == '*') && (p1[0] == '?') == (p2[0] == '?');
      assert LowerAll(p1[1..]) == LowerAll(p1)[1..] == LowerAll(p2[1..]);
      if s1 != [] {
        assert Lower(s1[0]) == LowerAll(s1)[0] == Lower(s2[0]);
        assert LowerAll(s1[1..]) == LowerAll(s1)[1..] == LowerAll(s2[1..]);
        GlobCaseInsensitive(p1[1..], p2[1..], s1[1..], s2[1..]);
        if p1[0] == '*' {
          GlobCaseInsensitive(p1[1..], p2[1..], s1, s2);
          GlobCaseInsensitive(p1, p2, s1[1..], s2[1..]);
        }
      } else if p1[0] == '*' {
        GlobCaseInsensitive(p1[1..], p2[1..], s1, s2);
      }
    }
  }

  /** Matching ignores letter case, in the pattern and in the text. */
  lemma MatchIgnoresCase(p1: string, p2: string, s1: string, s2: string)
    requires CaseEq(p1, p2) && CaseEq(s1, s2)
    ensures WildcardMatch(p1, s1) == WildcardMatch(p2, s2)
  {
    MatchAgrees(p1, s1);
    MatchAgrees(p2, s2);
    GlobCaseInsensitive(p1, p2, s1, s2);
  }

  /** Some configured ignore pattern matches the path. */
  predicate Ignored(patterns: seq<string>, path: string)
  {
    exists i :: 0 <= i < |patterns| && WildcardMatch(patterns[i], path)
  }

  /** `should_ignore`: scan the patterns in order, stop at the first match. */
  method ShouldIgnore(patterns: seq<string>, path: string) returns (r: bool)
    ensures r <==> Ignored(patterns, path)
  {
    var i := 0;
    while i < |patterns|
      invariant 0 <= i <= |patterns|
      invariant forall j :: 0 <= j < i ==> !WildcardMatch(patterns[j], path)
    {
      if WildcardMatch(patterns[i], path) {
        return true;
      }
      i := i + 1;
    }
    return false;
  }

  /** `ends_with`: the last `|suffix|` characters equal `suffix` ignoring case. */
  predicate EndsWith(s: string, suffix: string)
  {
    |suffix| <= |s| && CaseEq(s[|s| - |suffix|..], suffix)
  }

  /** `ends_with` is the glob `*suffix` for a suffix without wildcards. */
  lemma EndsWithIsStarGlob(s: string, suffix: string)
    requires NoWildcards(suffix)
    ensures EndsWith(s, suffix) <==> WildcardMatch("*" + suffix, s)
  {
    StarMatchesAnyRun(suffix, s);
    forall i | 0 <= i <= |s|
      ensures WildcardMatch(suffix, s[i..]) <==> |suffix| == |s| - i && CaseEq(s[i..], suffix)
    {
      LiteralMatchesEqualText(suffix, s[i..]);
    }
    if EndsWith(s, suffix) {
      assert WildcardMatch(suffix, s[|s| - |suffix|..]);
    }
  }

  /** A suffix of a name is still a suffix once a directory prefix is put in front. */
  lemma EndsWithPrefixed(prefix: string, name: string, suffix: string)
    requires EndsWith(name, suffix)
    ensures EndsWith(prefix + name, suffix)
  {
    assert (prefix + name)[|prefix + name| - |suffix|..] == name[|name| - |suffix|..];
  }

  /** `isspace` in the "C" locale. */
  predicate IsSpace(c: char)
  {
    c == ' ' || 9 <= c as int <= 13
  }

  /** `trim`: drop leading white space (the `memmove`), then cut trailing
      white space, never looking at the first remaining character. */
  method Trim(s: string) returns (t: string)
    ensures exists a, b :: 0 <= a <= b <= |s| && t == s[a..b]
                           && (forall k :: 0 <= k < a ==> IsSpace(s[k]))
                           && (forall k :: b <= k < |s| ==> IsSpace(s[k]))
    ensures t != [] ==> !IsSpace(t[0]) && !IsSpace(t[|t| - 1])
  {
    var start := 0;
    while start < |s| && IsSpace(s[start])
      invariant 0 <= start <= |s|
      invariant forall k :: 0 <= k < start ==> IsSpace(s[k])
    {
      start := start + 1;
    }
    var u := s[start..];
    var n := |u|;
    while n > 1 && IsSpace(u[n - 1])
      invariant 0 <= n <= |u|
      invariant forall k :: n <= k < |u| ==> IsSpace(u[k])
      invariant n == 0 ==> |u| == 0
    {
      n := n - 1;
    }
    t := u[..n];
    assert t == s[start..start + n];
    forall k | start + n <= k < |s| ensures IsSpace(s[k]) {
      assert s[k] == u[k - start];
    }
  }
}
