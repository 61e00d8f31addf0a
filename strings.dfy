/**
 * The handful of Python `str` operations the modelled code relies on:
 * `isspace`/`strip`, `lower`, `startswith`, `in`, `split(sep)`, `split()`,
 * `splitlines()`, `re.findall(r"\w+", ...)`, `str(n)` and prefix slicing.
 */
module Strings {
  import opened Wrappers

  /** Python's `str.isspace()`, the class matched by `\s` in `re` and removed by `strip()`. */
  predicate IsSpace(c: char) {
    || c == ' ' || c == '\t' || c == '\n' || c == '\r' || c == '\U{b}' || c == '\U{c}'
    || ('\U{1c}' <= c <= '\U{1f}') || c == '\U{85}' || c == '\U{a0}' || c == '\U{1680}'
    || ('\U{2000}' <= c <= '\U{200a}') || c == '\U{2028}' || c == '\U{2029}'
    || c == '\U{202f}' || c == '\U{205f}' || c == '\U{3000}'
  }

  /**
   * Characters matched by `\w` (letters, digits, underscore), restricted to Latin
   * scripts; Latin-1 also has the ordinal indicators, the superscript digits, the
   * micro sign and the vulgar fractions.
   */
  predicate IsWordChar(c: char) {
    || ('a' <= c <= 'z') || ('A' <= c <= 'Z') || ('0' <= c <= '9') || c == '_'
    || c == '\U{aa}' || c == '\U{b2}' || c == '\U{b3}' || c == '\U{b5}' || c == '\U{b9}'
    || c == '\U{ba}' || c == '\U{bc}' || c == '\U{bd}' || c == '\U{be}'
    || ('\U{c0}' <= c <= '\U{24f}' && c != '\U{d7}' && c != '\U{f7}')
  }

  /** The line boundaries recognised by `str.splitlines()` (`\r\n` counts as one). */
  predicate IsLineBreak(c: char) {
    || c == '\n' || c == '\r' || c == '\U{b}' || c == '\U{c}'
    || ('\U{1c}' <= c <= '\U{1e}') || c == '\U{85}' || c == '\U{2028}' || c == '\U{2029}'
  }

  /** No whitespace at either end: what `strip()` returns. */
  predicate IsStripped(s: string) {
    s == [] || (!IsSpace(s[0]) && !IsSpace(s[|s| - 1]))
  }

  predicate AllSpace(s: string) {
    forall k :: 0 <= k < |s| ==> IsSpace(s[k])
  }

  /** Number of whitespace characters at the start of `s`. */
  function LeadingSpaces(s: string): (n: nat)
    ensures n <= |s|
    ensures forall k :: 0 <= k < n ==> IsSpace(s[k])
    ensures n < |s| ==> !IsSpace(s[n])
  {
    if s == [] || !IsSpace(s[0]) then 0 else 1 + LeadingSpaces(s[1..])
  }

  /** Length of `s` once its trailing whitespace is removed. */
  function TrailingStop(s: string): (n: nat)
    ensures n <= |s|
    ensures forall k :: n <= k < |s| ==> IsSpace(s[k])
    ensures 0 < n ==> !IsSpace(s[n - 1])
  {
    if s == [] || !IsSpace(s[|s| - 1]) then |s| else TrailingStop(s[..|s| - 1])
  }

  /** Python's `s.lstrip()`: the leading whitespace removed. */
  function TrimStart(s: string): (r: string)
    ensures |r| <= |s| && (r == [] || !IsSpace(r[0]))
    ensures s != [] && IsSpace(s[0]) ==> |r| < |s|
    decreases |s|
  {
    if s != [] && IsSpace(s[0]) then TrimStart(s[1..]) else s
  }

  /** Python's `s.rstrip()`: the trailing whitespace removed. */
  function TrimEnd(s: string): (r: string)
    ensures |r| <= |s| && (r == [] || !IsSpace(r[|r| - 1]))
    ensures r != [] ==> r[0] == s[0]
    decreases |s|
  {
    if s != [] && IsSpace(s[|s| - 1]) then TrimEnd(s[..|s| - 1]) else s
  }

  /** What `lstrip()` leaves is the suffix after the leading whitespace. */
  lemma {:induction false} TrimStartSuffix(s: string)
    ensures var r := TrimStart(s);
      && |r| == |s| - LeadingSpaces(s)
      && forall i, j :: 0 <= i < |r| && j == LeadingSpaces(s) + i ==> r[i] == s[j]
    decreases |s|
  {
    if s != [] && IsSpace(s[0]) {
      var t := s[1..];
      TrimStartSuffix(t);
      forall i, j | 0 <= i < |TrimStart(s)| && j == LeadingSpaces(s) + i
        ensures TrimStart(s)[i] == s[j]
      {
        assert TrimStart(s)[i] == t[j - 1];
      }
    }
  }

  /** What `rstrip()` leaves is the prefix before the trailing whitespace. */
  lemma {:induction false} TrimEndPrefix(s: string)
    ensures var r := TrimEnd(s); |r| == TrailingStop(s) && forall k :: 0 <= k < |r| ==> r[k] == s[k]
    decreases |s|
  {
    if s != [] && IsSpace(s[|s| - 1]) {
      TrimEndPrefix(s[..|s| - 1]);
    }
  }

  /**
   * Python's `s.strip()`: nothing is left at either end to remove, and the
   * result is empty exactly when `s` is all whitespace.
   */
  function Strip(s: string): (r: string)
    ensures IsStripped(r) && |r| <= |s|
  {
    TrimEnd(TrimStart(s))
  }

  /** `s.strip()` is empty exactly when `s` is all whitespace. */
  lemma StripBlank(s: string)
    ensures Strip(s) == [] <==> AllSpace(s)
  {
    var x := TrimStart(s);
    TrimStartSuffix(s);
    TrimEndPrefix(x);
    if x != [] {
      assert !IsSpace(s[LeadingSpaces(s)]);
    }
  }

  /**
   * `s.strip()` is the substring of `s` after its leading whitespace, and what
   * follows it in `s` is whitespace.
   */
  lemma StripSlice(s: string)
    ensures var r := Strip(s); var l := LeadingSpaces(s);
      && l + |r| <= |s| && (forall i, j :: 0 <= i < |r| && j == l + i ==> r[i] == s[j])
      && forall k :: l + |r| <= k < |s| ==> IsSpace(s[k])
  {
    var l := LeadingSpaces(s);
    var x := TrimStart(s);
    TrimStartSuffix(s);
    TrimEndPrefix(x);
    var r := Strip(s);
    forall i, j | 0 <= i < |r| && j == l + i
      ensures r[i] == s[j]
    {
      assert r[i] == x[i];
    }
    forall k | l + |r| <= k < |s|
      ensures IsSpace(s[k])
    {
      var j := k - l;
      assert TrailingStop(x) <= j < |x|;
      assert IsSpace(x[j]);
      assert s[k] == x[j];
    }
  }

  /** `s.strip()` is the slice of `s` that starts after its leading whitespace. */
  lemma StripIsSlice(s: string)
    ensures var r := Strip(s); var l := LeadingSpaces(s);
      l + |r| <= |s| && r == s[l..l + |r|]
  {
    StripSlice(s);
    var r := Strip(s);
    var l := LeadingSpaces(s);
    var u := s[l..l + |r|];
    forall i | 0 <= i < |r|
      ensures r[i] == u[i]
    {
      assert r[i] == s[l + i];
    }
  }

  lemma SliceOfSlice(s: string, a: nat, b: nat, c: nat, d: nat)
    requires a <= b <= |s| && c <= d <= b - a
    ensures s[a..b][c..d] == s[a + c..a + d]
  {
    var x := s[a..b];
    forall i | 0 <= i < d - c
      ensures x[c..d][i] == s[a + c..a + d][i]
    {
      assert x[c + i] == s[a + c + i];
    }
  }

  lemma StripStripped(s: string)
    requires IsStripped(s)
    ensures Strip(s) == s
  {
  }

  /** `str.lower()` on ASCII, Latin-1 and Latin Extended-A capitals; U+0130, which Python lowers to two code points, is left as it is. */
  function LowerChar(c: char): char {
    if 'A' <= c <= 'Z' then (c as int + 32) as char
    else if '\U{c0}' <= c <= '\U{de}' && c != '\U{d7}' then (c as int + 32) as char
    else if '\U{100}' <= c <= '\U{137}' && c != '\U{130}' && c as int % 2 == 0 then (c as int + 1) as char
    else if '\U{139}' <= c <= '\U{148}' && c as int % 2 == 1 then (c as int + 1) as char
    else if '\U{14a}' <= c <= '\U{177}' && c as int % 2 == 0 then (c as int + 1) as char
    else if c == '\U{178}' then '\U{ff}'
    else if '\U{179}' <= c <= '\U{17e}' && c as int % 2 == 1 then (c as int + 1) as char
    else c
  }

  /** Whether `c` is one `str.lower()` turns into a space: only a space is. */
  lemma LowerCharSpace(c: char)
    ensures LowerChar(c) == ' ' <==> c == ' '
  {
  }

  function Lower(s: string): (r: string)
    ensures |r| == |s|
  {
    seq(|s|, k requires 0 <= k < |s| => LowerChar(s[k]))
  }

  predicate StartsWith(s: string, prefix: string) {
    |prefix| <= |s| && s[..|prefix|] == prefix
  }

  predicate EndsWith(s: string, suffix: string) {
    |suffix| <= |s| && s[|s| - |suffix|..] == suffix
  }

  /** Python's `needle in haystack`. */
  predicate Contains(haystack: string, needle: string)
    decreases |haystack|
  {
    StartsWith(haystack, needle) || (haystack != [] && Contains(haystack[1..], needle))
  }

  /** The empty string is in every string. */
  lemma ContainsEmpty(s: string)
    ensures Contains(s, [])
  {
    assert s[..0] == [];
  }

  /** A needle found at position `a` of `s` is contained in `s`. */
  lemma {:induction false} ContainsAt(s: string, needle: string, a: nat)
    requires a + |needle| <= |s| && s[a..a + |needle|] == needle
    ensures Contains(s, needle)
    decreases a
  {
    if a == 0 {
      assert s[..|needle|] == needle;
    } else {
      assert s[1..][a - 1..a - 1 + |needle|] == needle;
      ContainsAt(s[1..], needle, a - 1);
    }
  }

  /** Length of the longest prefix of `s` whose characters all satisfy `p`. */
  function RunLength(s: string, p: char -> bool): (n: nat)
    ensures n <= |s|
    ensures forall k :: 0 <= k < n ==> p(s[k])
    ensures n < |s| ==> !p(s[n])
  {
    if s == [] || !p(s[0]) then 0 else 1 + RunLength(s[1..], p)
  }

  /**
   * The maximal runs of characters satisfying `p`, left to right:
   * `re.findall(r"\w+", s)` is `Runs(s, IsWordChar)` and `s.split()` is
   * `Runs(s, c => !IsSpace(c))`.
   */
  function Runs(s: string, p: char -> bool): (r: seq<string>)
    ensures forall i :: 0 <= i < |r| ==> r[i] != []
    ensures forall i, k :: 0 <= i < |r| && 0 <= k < |r[i]| ==> p(r[i][k])
    decreases |s|
  {
    if s == [] then []
    else if !p(s[0]) then Runs(s[1..], p)
    else
      var n := RunLength(s, p);
      [s[..n]] + Runs(s[n..], p)
  }

  lemma {:induction false} RunLengthAppend(a: string, b: string, p: char -> bool)
    requires RunLength(a, p) < |a|
    ensures RunLength(a + b, p) == RunLength(a, p)
  {
    if a != [] && p(a[0]) {
      assert (a + b)[1..] == a[1..] + b;
      RunLengthAppend(a[1..], b, p);
    }
  }

  lemma {:induction false} RunLengthFull(a: string, b: string, p: char -> bool)
    requires RunLength(a, p) == |a|
    requires b == [] || !p(b[0])
    ensures RunLength(a + b, p) == |a|
  {
    if a == [] {
    } else {
      assert (a + b)[1..] == a[1..] + b;
      RunLengthFull(a[1..], b, p);
    }
  }

  /** A run of `p`-characters is its own single token. */
  lemma {:induction false} RunsOfRun(w: string, p: char -> bool)
    requires w != []
    requires forall k :: 0 <= k < |w| ==> p(w[k])
    ensures Runs(w, p) == [w]
  {
    RunLengthFull(w, [], p);
    assert w + [] == w;
    assert w[|w|..] == [];
  }

  lemma RunsSplitWholeRun(a: string, c: char, b: string, p: char -> bool)
    requires !p(c) && a != [] && RunLength(a, p) == |a|
    ensures Runs(a + [c] + b, p) == Runs(a, p) + Runs(b, p)
  {
    var s := a + [c] + b;
    RunLengthFull(a, [c] + b, p);
    assert s == a + ([c] + b);
    assert s[..|a|] == a && s[|a|..] == [c] + b;
    assert ([c] + b)[1..] == b;
    assert Runs(s, p) == [a] + Runs([c] + b, p);
    assert Runs([c] + b, p) == Runs(b, p);
    assert a[|a|..] == [] && a[..|a|] == a;
    assert Runs(a, p) == [a];
  }

  /** A character outside `p` separates tokens: runs never cross it. */
  lemma {:induction false} RunsSplit(a: string, c: char, b: string, p: char -> bool)
    requires !p(c)
    ensures Runs(a + [c] + b, p) == Runs(a, p) + Runs(b, p)
    decreases |a|
  {
    var s := a + [c] + b;
    if a == [] {
      assert s == [c] + b;
      assert s[1..] == b;
    } else if !p(a[0]) {
      assert s[1..] == a[1..] + [c] + b;
      RunsSplit(a[1..], c, b, p);
    } else if RunLength(a, p) == |a| {
      RunsSplitWholeRun(a, c, b, p);
    } else {
      var n := RunLength(a, p);
      RunLengthAppend(a, [c] + b, p);
      assert s == a + ([c] + b);
      assert s[..n] == a[..n];
      assert s[n..] == a[n..] + [c] + b;
      RunsSplit(a[n..], c, b, p);
    }
  }

  /** There are no runs exactly when no character satisfies `p`. */
  lemma {:induction false} RunsEmpty(s: string, p: char -> bool)
    ensures Runs(s, p) == [] <==> forall k :: 0 <= k < |s| ==> !p(s[k])
    decreases |s|
  {
    if s != [] && !p(s[0]) {
      RunsEmpty(s[1..], p);
      assert forall k :: 1 <= k < |s| ==> s[k] == s[1..][k - 1];
    }
  }

  /** First position of `c` in `s`, if any. */
  function IndexOf(s: string, c: char): (r: Option<nat>)
    ensures r.Some? ==> r.value < |s| && s[r.value] == c
    ensures r.Some? ==> forall k :: 0 <= k < r.value ==> s[k] != c
    ensures r.None? ==> forall k :: 0 <= k < |s| ==> s[k] != c
  {
    var n := RunLength(s, x => x != c);
    if n == |s| then None else Some(n)
  }

  /** The first occurrence is the one with none before it. */
  lemma IndexOfFirst(s: string, c: char, p: nat)
    requires p < |s| && s[p] == c && forall k :: 0 <= k < p ==> s[k] != c
    ensures IndexOf(s, c) == Some(p)
  {
  }

  /** Python's `s.split(sep)` for a one-character separator: empty fields are kept. */
  function SplitOn(s: string, sep: char): (r: seq<string>)
    ensures |r| >= 1
    ensures forall i, k :: 0 <= i < |r| && 0 <= k < |r[i]| ==> r[i][k] != sep
    decreases |s|
  {
    match IndexOf(s, sep)
    case None => [s]
    case Some(p) => [s[..p]] + SplitOn(s[p + 1..], sep)
  }

  /** Python's `sep.join(parts)`. */
  function Join(parts: seq<string>, sep: char): string {
    if |parts| == 0 then []
    else if |parts| == 1 then parts[0]
    else parts[0] + [sep] + Join(parts[1..], sep)
  }

  /** Splitting loses nothing: joining the fields back gives the original string. */
  lemma {:induction false} JoinSplitOn(s: string, sep: char)
    ensures Join(SplitOn(s, sep), sep) == s
    decreases |s|
  {
    match IndexOf(s, sep)
    case None =>
    case Some(p) =>
      var head, tail := s[..p], s[p + 1..];
      var rest := SplitOn(tail, sep);
      assert Join(SplitOn(s, sep), sep) == head + [sep] + Join(rest, sep) by {
        var parts := [head] + rest;
        assert SplitOn(s, sep) == parts;
        assert parts[1..] == rest;
      }
      JoinSplitOn(tail, sep);
      assert s == head + [sep] + tail;
  }

  /** Python's `s.split(sep, 1)`. */
  function SplitFirst(s: string, sep: char): (r: seq<string>)
    ensures 1 <= |r| <= 2
    ensures |r| == 1 <==> forall k :: 0 <= k < |s| ==> s[k] != sep
    ensures |r| == 2 ==> r[0] + [sep] + r[1] == s && forall k :: 0 <= k < |r[0]| ==> r[0][k] != sep
  {
    match IndexOf(s, sep)
    case None => [s]
    case Some(p) =>
      assert s == s[..p] + [sep] + s[p + 1..];
      [s[..p], s[p + 1..]]
  }

  /**
   * Python's `s.splitlines()`: lines without their terminators, no final empty
   * line for a trailing terminator, and `\r\n` taken as one terminator.
   */
  function SplitLines(s: string): (r: seq<string>)
    ensures r == [] <==> s == []
    ensures forall i, k :: 0 <= i < |r| && 0 <= k < |r[i]| ==> !IsLineBreak(r[i][k])
    decreases |s|
  {
    if s == [] then []
    else
      var n := RunLength(s, c => !IsLineBreak(c));
      if n == |s| then [s]
      else
        var width := if s[n] == '\r' && n + 1 < |s| && s[n + 1] == '\n' then 2 else 1;
        [s[..n]] + SplitLines(s[n + width..])
  }

  function DigitChar(d: nat): char
    requires d < 10
  {
    ('0' as int + d) as char
  }

  /** Python's `str(n)` for a non-negative integer. */
  function NatToString(n: nat): (r: string)
    ensures r != []
    decreases n
  {
    if n < 10 then [DigitChar(n)] else NatToString(n / 10) + [DigitChar(n % 10)]
  }

  /** Python's `int(s)` on a string of decimal digits. */
  function ParseNat(s: string): int
    decreases |s|
  {
    if s == [] then 0 else ParseNat(s[..|s| - 1]) * 10 + (s[|s| - 1] as int - '0' as int)
  }

  /** Reading a printed number back gives the number. */
  lemma {:induction false} ParseNatToString(n: nat)
    ensures ParseNat(NatToString(n)) == n
    decreases n
  {
    var s := NatToString(n);
    if n < 10 {
      assert s[..|s| - 1] == [];
    } else {
      ParseNatToString(n / 10);
      assert s[..|s| - 1] == NatToString(n / 10);
    }
  }

  /** Distinct numbers print differently. */
  lemma NatToStringInjective(a: nat, b: nat)
    requires NatToString(a) == NatToString(b)
    ensures a == b
  {
    ParseNatToString(a);
    ParseNatToString(b);
  }

  /** Python's prefix slice `s[:k]`, where a negative `k` counts from the end. */
  function PyPrefix<T>(s: seq<T>, k: int): (r: seq<T>)
    ensures 0 <= k ==> |r| == if k < |s| then k else |s|
    ensures k < 0 ==> |r| == if |s| + k < 0 then 0 else |s| + k
    ensures r == s[..|r|]
  {
    if 0 <= k then (if k < |s| then s[..k] else s)
    else if |s| + k < 0 then []
    else s[..|s| + k]
  }
}
