/**
 * `_chunk_text` of knowledge_store.py: whitespace is collapsed and trimmed, then
 * a window of at most `maxChars` characters slides over the text; a window is
 * cut after the first sentence end (`.`, `!` or `?` followed by whitespace or by
 * the end of the window) when that cut lies at least 0.6 * maxChars into the
 * window, and the next window starts `overlap` characters before the cut.
 */
module Chunker {
  import opened Wrappers
  import opened Strings

  const DefaultMaxChars: nat := 900
  const DefaultOverlap: nat := 150

  /**
   * The loop makes progress only when the overlap is shorter than the shortest
   * sentence cut it accepts, 0.6 * maxChars (the defaults 900/150 qualify).
   */
  predicate ValidParams(maxChars: nat, overlap: nat) {
    5 * overlap < 3 * maxChars
  }

  /** `re.sub(r'\s+', ' ', s)`: every run of whitespace becomes one space. */
  function CollapseWhitespace(s: string): (r: string)
    decreases |s|
  {
    if s == [] then []
    else if IsSpace(s[0]) then [' '] + CollapseWhitespace(TrimStart(s))
    else [s[0]] + CollapseWhitespace(s[1..])
  }

  /**
   * After collapsing, the only whitespace is the plain space, no two spaces are
   * adjacent, and the first character is whitespace exactly when it was before.
   */
  lemma {:induction false} CollapseShape(s: string)
    ensures var r := CollapseWhitespace(s);
      && (forall k :: 0 <= k < |r| && IsSpace(r[k]) ==> r[k] == ' ')
      && (s != [] ==> r != [] && (IsSpace(r[0]) <==> IsSpace(s[0])))
      && (forall k, l :: 0 <= k && l == k + 1 && l < |r| ==> !(r[k] == ' ' && r[l] == ' '))
    decreases |s|
  {
    if s != [] {
      var rest := if IsSpace(s[0]) then TrimStart(s) else s[1..];
      var c := CollapseWhitespace(rest);
      CollapseShape(rest);
      var r := CollapseWhitespace(s);
      assert r == [if IsSpace(s[0]) then ' ' else s[0]] + c;
      forall k, l | 0 <= k && l == k + 1 && l < |r|
        ensures !(r[k] == ' ' && r[l] == ' ')
      {
        if k > 0 {
          assert r[k] == c[k - 1] && r[l] == c[l - 1];
        } else if IsSpace(s[0]) {
          assert r[l] == c[0];
        }
      }
    }
  }

  /** Collapsing never turns text into blank text or the reverse. */
  lemma CollapseKeepsBlankness(s: string)
    ensures AllSpace(CollapseWhitespace(s)) <==> AllSpace(s)
  {
    if s != [] && IsSpace(s[0]) {
      var rest := TrimStart(s);
      CollapseShape(rest);
      var r := CollapseWhitespace(s);
      var c := CollapseWhitespace(rest);
      TrimStartSuffix(s);
      assert r == [' '] + c;
      if rest != [] {
        assert r[1] == c[0];
        assert !AllSpace(r);
        assert !IsSpace(s[LeadingSpaces(s)]);
      } else {
        assert c == [];
        assert LeadingSpaces(s) == |s|;
      }
    }
  }

  /** The text the windows run over: `re.sub(r'\s+', ' ', txt).strip()`. */
  function Normalize(s: string): string {
    Strip(CollapseWhitespace(s))
  }

  /** The normalised text is trimmed, and its only whitespace is the plain space. */
  lemma NormalizeShape(s: string)
    ensures IsStripped(Normalize(s))
    ensures var t := Normalize(s); forall k :: 0 <= k < |t| && IsSpace(t[k]) ==> t[k] == ' '
  {
    var c := CollapseWhitespace(s);
    CollapseShape(s);
    var t := Normalize(s);
    var a := LeadingSpaces(c);
    StripSlice(c);
    forall k | 0 <= k < |t| && IsSpace(t[k])
      ensures t[k] == ' '
    {
      assert t[k] == c[a + k];
    }
  }

  lemma NormalizeBlank(s: string)
    ensures Normalize(s) == [] <==> AllSpace(s)
  {
    CollapseKeepsBlankness(s);
    StripBlank(CollapseWhitespace(s));
  }

  predicate IsTerminator(c: char) {
    c == '.' || c == '!' || c == '?'
  }

  /** Position `p` of `cut` matches `[.!?](\s|$)`. */
  predicate EndsSentence(cut: string, p: nat) {
    p < |cut| && IsTerminator(cut[p]) && (p + 1 == |cut| || IsSpace(cut[p + 1]))
  }

  /** The first position at or after `from` where a sentence ends. */
  function FirstSentenceEnd(cut: string, from: nat): (r: Option<nat>)
    requires from <= |cut|
    ensures r.Some? ==> from <= r.value < |cut|
    decreases |cut| - from
  {
    if from == |cut| then None
    else if EndsSentence(cut, from) then Some(from)
    else FirstSentenceEnd(cut, from + 1)
  }

  /** `FirstSentenceEnd` finds a sentence end, the earliest one, and misses none. */
  lemma {:induction false} FirstSentenceEndSpec(cut: string, from: nat)
    requires from <= |cut|
    ensures var r := FirstSentenceEnd(cut, from);
      && (r.Some? ==> EndsSentence(cut, r.value) && forall q :: from <= q < r.value ==> !EndsSentence(cut, q))
      && (r.None? ==> forall q :: from <= q < |cut| ==> !EndsSentence(cut, q))
    decreases |cut| - from
  {
    if from < |cut| && !EndsSentence(cut, from) {
      FirstSentenceEndSpec(cut, from + 1);
    }
  }

  /**
   * `m.end()` for `m = re.search(r'.*?[.!?](\s|$)', cut)`: the lazy prefix stops
   * at the first sentence end, and the match takes the following whitespace
   * character with it when there is one.
   */
  function SentenceMatchEnd(cut: string): (r: Option<nat>)
    ensures r.Some? ==> 0 < r.value <= |cut|
  {
    match FirstSentenceEnd(cut, 0)
    case None => None
    case Some(p) => Some(if p + 1 < |cut| then p + 2 else p + 1)
  }

  /**
   * The regular expression matches exactly when some sentence ends in `cut`, and
   * the match ends just after the first such end, with its whitespace.
   */
  lemma SentenceMatchEndSpec(cut: string)
    ensures var r := SentenceMatchEnd(cut);
      && (r.None? <==> forall q :: 0 <= q < |cut| ==> !EndsSentence(cut, q))
      && (r.Some? ==> exists p :: (0 <= p < |cut| && EndsSentence(cut, p)
            && (forall q :: 0 <= q < p ==> !EndsSentence(cut, q))
            && r.value == (if p + 1 < |cut| then p + 2 else p + 1)))
  {
    FirstSentenceEndSpec(cut, 0);
    var f := FirstSentenceEnd(cut, 0);
    if f.Some? {
      assert EndsSentence(cut, f.value);
    }
  }

  /** The end `j` of the window that starts at `i`. */
  function WindowEnd(t: string, i: nat, maxChars: nat): (j: nat)
    requires i < |t| && 0 < maxChars
    ensures i < j <= |t| && j - i <= maxChars
    ensures j < |t| ==> 5 * (j - i) >= 3 * maxChars
  {
    var hard := if |t| < i + maxChars then |t| else i + maxChars;
    match SentenceMatchEnd(t[i..hard])
    case Some(e) => if 5 * e >= 3 * maxChars then i + e else hard
    case None => hard
  }

  /** `max(0, j - overlap)`. */
  function NextStart(j: nat, overlap: nat): nat {
    if j < overlap then 0 else j - overlap
  }

  predicate InBounds(t: string, w: seq<(nat, nat)>) {
    forall k :: 0 <= k < |w| ==> w[k].0 < w[k].1 <= |t|
  }

  /** The `(i, j)` of every iteration of the chunking loop that starts at cursor `i`. */
  function Windows(t: string, maxChars: nat, overlap: nat, i: nat): (w: seq<(nat, nat)>)
    requires ValidParams(maxChars, overlap) && i < |t|
    ensures w != [] && w[0].0 == i
    ensures InBounds(t, w)
    decreases |t| - i
  {
    var j := WindowEnd(t, i, maxChars);
    if j >= |t| then [(i, j)]
    else [(i, j)] + Windows(t, maxChars, overlap, NextStart(j, overlap))
  }

  /** `txt[i:j].strip()` for every window. */
  function Pieces(t: string, w: seq<(nat, nat)>): (r: seq<string>)
    requires InBounds(t, w)
    ensures |r| == |w|
  {
    seq(|w|, k requires 0 <= k < |w| => Strip(t[w[k].0..w[k].1]))
  }

  /** `[c for c in chunks if c]`. */
  function NonEmpty(cs: seq<string>): (r: seq<string>)
    ensures forall c <- r :: c != [] && c in cs
    ensures |r| <= |cs|
  {
    if cs == [] then []
    else (if cs[0] == [] then [] else [cs[0]]) + NonEmpty(cs[1..])
  }

  /** What `_chunk_text(txt, maxChars, overlap)` returns. */
  function Chunks(txt: string, maxChars: nat, overlap: nat): seq<string>
    requires ValidParams(maxChars, overlap)
  {
    var t := Normalize(txt);
    if t == [] then [] else NonEmpty(Pieces(t, Windows(t, maxChars, overlap, 0)))
  }

  /** The chunking loop of knowledge_store.py. */
  method ChunkText(txt: string, maxChars: nat, overlap: nat) returns (chunks: seq<string>)
    requires ValidParams(maxChars, overlap)
    ensures chunks == Chunks(txt, maxChars, overlap)
    ensures forall c <- chunks :: c != [] && IsStripped(c) && |c| <= maxChars
    ensures forall c <- chunks :: Contains(Normalize(txt), c)
  {
    var t := Normalize(txt);
    if t == [] {
      return [];
    }
    var raw: seq<string> := [];
    ghost var done: seq<(nat, nat)> := [];
    var i := 0;
    var n := |t|;
    // the source's guard `i < n` holds on every iteration (the cursor only moves
    // back from a window end below n), so the loop is left only by the break
    while true
      invariant i < n
      invariant InBounds(t, done) && raw == Pieces(t, done)
      invariant done + Windows(t, maxChars, overlap, i) == Windows(t, maxChars, overlap, 0)
      decreases n - i
    {
      var j := CutWindow(t, i, maxChars);
      PiecesAppend(t, done, i, j);
      WindowsStep(t, maxChars, overlap, done, i);
      raw := raw + [Strip(t[i..j])];
      done := done + [(i, j)];
      if j >= n {
        break;
      }
      i := NextStart(j, overlap);
    }
    chunks := NonEmpty(raw);
    ChunksWellFormed(txt, maxChars, overlap);
  }

  /** The body of one iteration: the hard cut, moved back to a sentence end when one lies late enough. */
  method CutWindow(t: string, i: nat, maxChars: nat) returns (j: nat)
    requires i < |t| && 0 < maxChars
    ensures j == WindowEnd(t, i, maxChars)
  {
    j := if |t| < i + maxChars then |t| else i + maxChars;
    var m := SentenceMatchEnd(t[i..j]);
    if m.Some? && 5 * m.value >= 3 * maxChars {
      j := i + m.value;
    }
  }

  lemma PiecesAppend(t: string, w: seq<(nat, nat)>, i: nat, j: nat)
    requires InBounds(t, w) && i < j <= |t|
    ensures InBounds(t, w + [(i, j)])
    ensures Pieces(t, w + [(i, j)]) == Pieces(t, w) + [Strip(t[i..j])]
  {
    var w' := w + [(i, j)];
    assert forall k :: 0 <= k < |w| ==> w'[k] == w[k];
  }

  /** One iteration of the loop consumes the window at the cursor. */
  lemma WindowsStep(t: string, maxChars: nat, overlap: nat, done: seq<(nat, nat)>, i: nat)
    requires ValidParams(maxChars, overlap) && i < |t|
    requires done + Windows(t, maxChars, overlap, i) == Windows(t, maxChars, overlap, 0)
    ensures var j := WindowEnd(t, i, maxChars);
      if j >= |t| then done + [(i, j)] == Windows(t, maxChars, overlap, 0)
      else done + [(i, j)] + Windows(t, maxChars, overlap, NextStart(j, overlap)) == Windows(t, maxChars, overlap, 0)
  {
    WindowsUnfold(t, maxChars, overlap, i);
    var j := WindowEnd(t, i, maxChars);
    if j < |t| {
      var rest := Windows(t, maxChars, overlap, NextStart(j, overlap));
      assert done + [(i, j)] + rest == done + ([(i, j)] + rest);
    }
  }

  /** Unfolding `Windows` once. */
  lemma WindowsUnfold(t: string, maxChars: nat, overlap: nat, i: nat)
    requires ValidParams(maxChars, overlap) && i < |t|
    ensures var j := WindowEnd(t, i, maxChars);
      Windows(t, maxChars, overlap, i) ==
        if j >= |t| then [(i, j)] else [(i, j)] + Windows(t, maxChars, overlap, NextStart(j, overlap))
  {
  }

  /**
   * Window `k` is at most `maxChars` long; unless it is the last, it ends before
   * the end of the text and the next one starts `overlap` characters before its
   * end, strictly after its start; the last one ends at the end of the text.
   */
  lemma {:induction false} WindowAt(t: string, maxChars: nat, overlap: nat, i: nat, k: nat)
    requires ValidParams(maxChars, overlap) && i < |t|
    requires k < |Windows(t, maxChars, overlap, i)|
    ensures var w := Windows(t, maxChars, overlap, i);
      && i <= w[k].0 && w[k].1 - w[k].0 <= maxChars
      && (k + 1 < |w| ==> w[k].1 < |t| && w[k + 1].0 == NextStart(w[k].1, overlap) && w[k].0 < w[k + 1].0 <= w[k].1)
      && (k + 1 == |w| ==> w[k].1 == |t|)
    decreases |t| - i
  {
    var j := WindowEnd(t, i, maxChars);
    WindowsUnfold(t, maxChars, overlap, i);
    if j < |t| {
      var i' := NextStart(j, overlap);
      var rest := Windows(t, maxChars, overlap, i');
      var w := Windows(t, maxChars, overlap, i);
      assert w == [(i, j)] + rest;
      if k == 0 {
        assert w[1] == rest[0];
      } else {
        WindowAt(t, maxChars, overlap, i', k - 1);
        assert w[k] == rest[k - 1];
        if k + 1 < |w| {
          assert w[k + 1] == rest[k];
        }
      }
    }
  }

  /**
   * The windows tile the text from the cursor on: each is non-empty and at most
   * `maxChars` long, each starts strictly after the previous one and no later
   * than where the previous one ended, and only the last reaches the end.
   */
  lemma WindowsShape(t: string, maxChars: nat, overlap: nat, i: nat)
    requires ValidParams(maxChars, overlap) && i < |t|
    ensures var w := Windows(t, maxChars, overlap, i);
      && w[|w| - 1].1 == |t|
      && (forall k :: 0 <= k < |w| ==> i <= w[k].0 && w[k].1 - w[k].0 <= maxChars)
      && (forall k :: 0 <= k && k + 1 < |w| ==>
            w[k].1 < |t| && w[k + 1].0 == NextStart(w[k].1, overlap) && w[k].0 < w[k + 1].0 <= w[k].1)
  {
    var w := Windows(t, maxChars, overlap, i);
    forall k | 0 <= k < |w|
      ensures i <= w[k].0 && w[k].1 - w[k].0 <= maxChars
    {
      WindowAt(t, maxChars, overlap, i, k);
    }
    forall k | 0 <= k && k + 1 < |w|
      ensures w[k].1 < |t| && w[k + 1].0 == NextStart(w[k].1, overlap) && w[k].0 < w[k + 1].0 <= w[k].1
    {
      WindowAt(t, maxChars, overlap, i, k);
    }
    WindowAt(t, maxChars, overlap, i, |w| - 1);
  }

  /** Every position from the cursor on lies inside some window. */
  lemma WindowsCover(t: string, maxChars: nat, overlap: nat, i: nat, p: nat)
    requires ValidParams(maxChars, overlap) && i <= p < |t|
    ensures var w := Windows(t, maxChars, overlap, i);
      exists k :: 0 <= k < |w| && w[k].0 <= p < w[k].1
    decreases |t| - i
  {
    var w := Windows(t, maxChars, overlap, i);
    var j := WindowEnd(t, i, maxChars);
    WindowsUnfold(t, maxChars, overlap, i);
    if p < j {
      assert w[0] == (i, j);
    } else {
      var i' := NextStart(j, overlap);
      WindowsCover(t, maxChars, overlap, i', p);
      var rest := Windows(t, maxChars, overlap, i');
      assert w == [(i, j)] + rest;
      var k :| 0 <= k < |rest| && rest[k].0 <= p < rest[k].1;
      assert w[k + 1] == rest[k];
    }
  }

  lemma {:induction false} NonEmptyFirst(cs: seq<string>)
    requires cs != [] && cs[0] != []
    ensures NonEmpty(cs) != [] && NonEmpty(cs)[0] == cs[0]
  {
  }

  lemma {:induction false} NonEmptyLast(cs: seq<string>)
    requires cs != [] && cs[|cs| - 1] != []
    ensures NonEmpty(cs) != [] && NonEmpty(cs)[|NonEmpty(cs)| - 1] == cs[|cs| - 1]
  {
    if |cs| > 1 {
      NonEmptyLast(cs[1..]);
      assert cs[1..][|cs| - 2] == cs[|cs| - 1];
    }
  }

  /** A trimmed slice of the text is a trimmed substring no longer than the slice. */
  lemma PieceInText(t: string, a: nat, b: nat)
    requires a < b <= |t|
    ensures var r := Strip(t[a..b]); IsStripped(r) && |r| <= b - a && Contains(t, r)
  {
    var x := t[a..b];
    var l := LeadingSpaces(x);
    var n := |Strip(x)|;
    StripIsSlice(x);
    SliceOfSlice(t, a, b, l, l + n);
    ContainsAt(t, Strip(x), a + l);
  }

  /** The trimmed first window of trimmed text is a non-empty prefix of it. */
  lemma PieceAtStart(t: string, a: nat, b: nat)
    requires IsStripped(t) && a == 0 && a < b <= |t|
    ensures var r := Strip(t[a..b]); r != [] && StartsWith(t, r)
  {
    var x := t[a..b];
    var r := Strip(x);
    assert x[0] == t[0];
    assert LeadingSpaces(x) == 0;
    assert !AllSpace(x);
    StripSlice(x);
    forall k | 0 <= k < |r|
      ensures r[k] == t[k]
    {
      assert r[k] == x[k];
    }
    assert t[..|r|] == r;
  }

  /** The trimmed last window of trimmed text is a non-empty suffix of it. */
  lemma PieceAtEnd(t: string, a: nat, b: nat)
    requires IsStripped(t) && a < b == |t|
    ensures var r := Strip(t[a..b]); r != [] && |r| <= |t| && t[|t| - |r|..] == r
  {
    var y := t[a..b];
    var r := Strip(y);
    var l := LeadingSpaces(y);
    StripSlice(y);
    assert y[|y| - 1] == t[|t| - 1];
    assert !AllSpace(y);
    assert l + |r| == |y|;
    forall k | 0 <= k < |r|
      ensures r[k] == t[|t| - |r| + k]
    {
      assert r[k] == y[l + k];
    }
    assert t[|t| - |r|..] == r;
  }

  /**
   * Every chunk is non-empty, trimmed, at most `maxChars` long and a substring of
   * the normalised text.
   */
  lemma ChunksWellFormed(txt: string, maxChars: nat, overlap: nat)
    requires ValidParams(maxChars, overlap)
    ensures forall c <- Chunks(txt, maxChars, overlap) ::
      c != [] && IsStripped(c) && |c| <= maxChars && Contains(Normalize(txt), c)
  {
    var t := Normalize(txt);
    if t != [] {
      var w := Windows(t, maxChars, overlap, 0);
      WindowsShape(t, maxChars, overlap, 0);
      var ps := Pieces(t, w);
      forall k | 0 <= k < |ps|
        ensures IsStripped(ps[k]) && |ps[k]| <= maxChars && Contains(t, ps[k])
      {
        PieceInText(t, w[k].0, w[k].1);
      }
    }
  }

  /**
   * For text that is not blank, the first chunk is a prefix of the normalised
   * text (the first window starts at 0) and the last chunk is a suffix of it
   * (the loop stops only once a window reaches the end).
   */
  lemma ChunksEnds(txt: string, maxChars: nat, overlap: nat)
    requires ValidParams(maxChars, overlap) && !AllSpace(txt)
    ensures var t := Normalize(txt); var cs := Chunks(txt, maxChars, overlap);
      && cs != []
      && StartsWith(t, cs[0])
      && |cs[|cs| - 1]| <= |t| && t[|t| - |cs[|cs| - 1]|..] == cs[|cs| - 1]
  {
    NormalizeBlank(txt);
    var t := Normalize(txt);
    var w := Windows(t, maxChars, overlap, 0);
    var last := |w| - 1;
    WindowAt(t, maxChars, overlap, 0, last);
    var ps := Pieces(t, w);
    PieceAtStart(t, w[0].0, w[0].1);
    PieceAtEnd(t, w[last].0, w[last].1);
    assert ps[0] == Strip(t[w[0].0..w[0].1]);
    assert ps[last] == Strip(t[w[last].0..w[last].1]);
    NonEmptyEnds(t, ps);
  }

  lemma NonEmptyEnds(t: string, ps: seq<string>)
    requires ps != [] && ps[0] != [] && ps[|ps| - 1] != []
    requires StartsWith(t, ps[0])
    requires |ps[|ps| - 1]| <= |t| && t[|t| - |ps[|ps| - 1]|..] == ps[|ps| - 1]
    ensures var cs := NonEmpty(ps);
      && cs != [] && StartsWith(t, cs[0])
      && |cs[|cs| - 1]| <= |t| && t[|t| - |cs[|cs| - 1]|..] == cs[|cs| - 1]
  {
    NonEmptyFirst(ps);
    NonEmptyLast(ps);
  }

  /** Chunking yields nothing exactly for empty or whitespace-only text. */
  lemma ChunksEmptyIffBlank(txt: string, maxChars: nat, overlap: nat)
    requires ValidParams(maxChars, overlap)
    ensures Chunks(txt, maxChars, overlap) == [] <==> AllSpace(txt)
  {
    NormalizeBlank(txt);
    if !AllSpace(txt) {
      ChunksEnds(txt, maxChars, overlap);
    }
  }

  /**
   * Normalised text shorter than 0.6 * maxChars is a single chunk, equal to the
   * normalised text: no sentence cut inside it can reach the threshold.
   */
  lemma ShortTextOneChunk(txt: string, maxChars: nat, overlap: nat)
    requires ValidParams(maxChars, overlap) && !AllSpace(txt)
    requires 5 * |Normalize(txt)| < 3 * maxChars
    ensures Chunks(txt, maxChars, overlap) == [Normalize(txt)]
  {
    NormalizeBlank(txt);
    var t := Normalize(txt);
    assert t[0..|t|] == t;
    assert WindowEnd(t, 0, maxChars) == |t|;
    assert Windows(t, maxChars, overlap, 0) == [(0, |t|)];
    StripStripped(t);
    assert Pieces(t, [(0, |t|)]) == [t];
    assert NonEmpty([t]) == [t] + NonEmpty([]);
  }
}
