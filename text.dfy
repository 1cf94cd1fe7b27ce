/**
 * Character and string primitives of the C library that Foldcessing relies on,
 * written out over `seq<char>`: `tolower` in the "C" locale, the ordering of
 * `_stricmp`, decimal rendering as `printf("%d")` does it, and a digits-only
 * reading of `strtol` (no leading white space, no sign).
 */
module Text {

  datatype Option<T> = None | Some(value: T)

  /** `tolower` in the "C" locale: only 'A'..'Z' change. */
  function Lower(c: char): char
  {
    if 'A' <= c <= 'Z' then (c as int + 32) as char else c
  }

  function LowerAll(s: string): string
  {
    seq(|s|, i requires 0 <= i < |s| => Lower(s[i]))
  }

  /** `_stricmp(a, b) == 0`: equal after lower-casing every character. */
  predicate CaseEq(a: string, b: string)
  {
    LowerAll(a) == LowerAll(b)
  }

  /** Strict lexicographic order on code points; a proper prefix is smaller. */
  predicate LexLess(a: string, b: string)
  {
    |b| > 0 && (|a| == 0 || a[0] < b[0] || (a[0] == b[0] && LexLess(a[1..], b[1..])))
  }

  /** `_stricmp(a, b) > 0`: both strings are lower-cased, then compared. */
  predicate CaseGreater(a: string, b: string)
  {
    LexLess(LowerAll(b), LowerAll(a))
  }

  lemma {:induction false} LexLessAsym(a: string, b: string)
    ensures !(LexLess(a, b) && LexLess(b, a))
  {
    if |a| > 0 && |b| > 0 && a[0] == b[0] {
      LexLessAsym(a[1..], b[1..]);
    }
  }

  lemma {:induction false} LexLessTrans(a: string, b: string, c: string)
    requires LexLess(a, b) && LexLess(b, c)
    ensures LexLess(a, c)
  {
    if |a| > 0 && a[0] == b[0] && b[0] == c[0] {
      LexLessTrans(a[1..], b[1..], c[1..]);
    }
  }

  lemma {:induction false} LexLessTotal(a: string, b: string)
    ensures a == b || LexLess(a, b) || LexLess(b, a)
  {
    if |a| > 0 && |b| > 0 && a[0] == b[0] {
      LexLessTotal(a[1..], b[1..]);
      if a[1..] == b[1..] {
        assert a == [a[0]] + a[1..] && b == [b[0]] + b[1..];
      }
    }
  }

  /** The order `_stricmp` induces is a strict weak order: irreflexive,
      transitive, and two names that are not case-insensitively equal are
      comparable. */
  lemma CaseOrder(a: string, b: string, c: string)
    ensures !CaseGreater(a, a)
    ensures CaseGreater(a, b) ==> !CaseGreater(b, a)
    ensures CaseGreater(a, b) && CaseGreater(b, c) ==> CaseGreater(a, c)
    ensures CaseEq(a, b) || CaseGreater(a, b) || CaseGreater(b, a)
  {
    LexLessAsym(LowerAll(a), LowerAll(a));
    LexLessAsym(LowerAll(a), LowerAll(b));
    if CaseGreater(a, b) && CaseGreater(b, c) {
      LexLessTrans(LowerAll(c), LowerAll(b), LowerAll(a));
    }
    LexLessTotal(LowerAll(a), LowerAll(b));
  }

  /** Concatenation regrouped; stated once so that proofs can name the step. */
  lemma Associative<T>(x: seq<T>, y: seq<T>, z: seq<T>)
    ensures (x + y) + z == x + (y + z)
  {
  }

  // ---- decimal rendering (`printf("%d")`) ----

  predicate IsDigit(c: char)
  {
    '0' <= c <= '9'
  }

  predicate AllDigits(s: string)
  {
    forall i :: 0 <= i < |s| ==> IsDigit(s[i])
  }

  function DigitChar(d: nat): char
    requires d < 10
  {
    ('0' as int + d) as char
  }

  function DigitValue(c: char): nat
    requires IsDigit(c)
  {
    c as int - '0' as int
  }

  /** Decimal digits of a natural number, most significant first, no leading zeros. */
  function NatDigits(n: nat): string
    decreases n
  {
    if n < 10 then [DigitChar(n)] else NatDigits(n / 10) + [DigitChar(n % 10)]
  }

  /** `%d`: a minus sign for a negative value, then its digits. */
  function Decimal(n: int): string
  {
    if n < 0 then "-" + NatDigits(-n) else NatDigits(n)
  }

  /** The value of a run of decimal digits, read most significant first. */
  function DigitsValue(s: string): nat
    requires AllDigits(s)
    decreases |s|
  {
    if s == [] then 0 else DigitsValue(s[..|s| - 1]) * 10 + DigitValue(s[|s| - 1])
  }

  /** Rendering a natural number and reading it back gives the number. */
  lemma {:induction false} DecimalRoundTrip(n: nat)
    ensures |Decimal(n)| > 0 && AllDigits(Decimal(n))
    ensures DigitsValue(Decimal(n)) == n
    decreases n
  {
    if n >= 10 {
      DecimalRoundTrip(n / 10);
      var s := NatDigits(n);
      assert s[..|s| - 1] == NatDigits(n / 10);
    }
  }

  // ---- digits-only `strtol` ----

  /** Where `strtol(s + j, &end, 10)` stops when no sign or blank precedes the
      digits: the first position at or after `j` that is not a digit. */
  function DigitsEnd(s: string, j: nat): (e: nat)
    requires j <= |s|
    ensures j <= e <= |s|
    ensures AllDigits(s[j..e])
    ensures e < |s| ==> !IsDigit(s[e])
    decreases |s| - j
  {
    if j < |s| && IsDigit(s[j]) then DigitsEnd(s, j + 1) else j
  }

  /** The digits `strtol` reads, position by position. */
  lemma DigitsEndRun(s: string, j: nat)
    requires j <= |s|
    ensures forall k :: j <= k < DigitsEnd(s, j) ==> IsDigit(s[k])
  {
    var e := DigitsEnd(s, j);
    forall k | j <= k < e
      ensures IsDigit(s[k])
    {
      assert s[k] == s[j..e][k - j];
    }
  }

  /** The value `strtol` returns for the digits starting at `j` (0 when there are none). */
  function NumberAt(s: string, j: nat): nat
    requires j <= |s|
  {
    DigitsValue(s[j..DigitsEnd(s, j)])
  }
}
