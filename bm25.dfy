/**
 * api/search_knowledge.py: a small BM25 retriever over the `.txt` files of the
 * knowledge directory. The files are read and indexed once into module state;
 * a query is scored against every document and the snippets of the best
 * scoring documents are returned.
 */
module SearchKnowledge {
  import opened Wrappers
  import opened Strings

  /** `re.findall(r"\w+", s.lower())`: the maximal runs of word characters of the lowercased text. */
  function Tokenize(s: string): (r: seq<string>)
    ensures forall i :: 0 <= i < |r| ==> r[i] != []
    ensures forall i, k :: 0 <= i < |r| && 0 <= k < |r[i]| ==> IsWordChar(r[i][k])
  {
    Runs(Lower(s), IsWordChar)
  }

  /** A character that lowercases to a non-word character separates tokens and is dropped. */
  lemma TokenizeSplit(a: string, c: char, b: string)
    requires !IsWordChar(LowerChar(c))
    ensures Tokenize(a + [c] + b) == Tokenize(a) + Tokenize(b)
  {
    assert Lower(a + [c] + b) == Lower(a) + [LowerChar(c)] + Lower(b);
    RunsSplit(Lower(a), LowerChar(c), Lower(b), IsWordChar);
  }

  /** A text has no tokens exactly when none of its lowercased characters is a word character. */
  lemma TokenizeEmpty(s: string)
    ensures Tokenize(s) == [] <==> forall k :: 0 <= k < |s| ==> !IsWordChar(LowerChar(s[k]))
  {
    RunsEmpty(Lower(s), IsWordChar);
    assert forall k :: 0 <= k < |s| ==> Lower(s)[k] == LowerChar(s[k]);
  }

  /** What reading one `.txt` file gives: its text, an `OSError`, or text that is not UTF-8. */
  datatype FileRead = Text(content: string) | OsFailure | NotUtf8

  /**
   * The documents the reading loop appends: the texts of the readable files in
   * `glob` order, skipping those that raise `OSError`, up to the first file that
   * is not UTF-8 (whose `UnicodeDecodeError` is not caught and ends the loop).
   */
  function Texts(files: seq<FileRead>): (r: seq<string>)
    ensures |r| <= |files|
    decreases |files|
  {
    if files == [] then []
    else match files[0]
      case Text(s) => [s] + Texts(files[1..])
      case OsFailure => Texts(files[1..])
      case NotUtf8 => []
  }

  /** Whether some file is not UTF-8, so that loading raises. */
  predicate Undecodable(files: seq<FileRead>) {
    exists i :: 0 <= i < |files| && files[i].NotUtf8?
  }

  /**
   * Every document is the text of some file; when every file decodes, the text
   * of every readable file is a document.
   */
  lemma {:induction false} TextsSpec(files: seq<FileRead>)
    ensures forall s :: s in Texts(files) ==> Text(s) in files
    ensures !Undecodable(files) ==> forall s :: Text(s) in files ==> s in Texts(files)
    decreases |files|
  {
    if files != [] {
      TextsSpec(files[1..]);
      assert forall i :: 1 <= i < |files| ==> files[i] == files[1..][i - 1];
      if !Undecodable(files) {
        assert !Undecodable(files[1..]) by {
          forall i | 0 <= i < |files[1..]|
            ensures !files[1..][i].NotUtf8?
          {
            assert files[1..][i] == files[i + 1];
          }
        }
        forall s | Text(s) in files
          ensures s in Texts(files)
        {
          var i :| 0 <= i < |files| && files[i] == Text(s);
          if i > 0 {
            assert files[1..][i - 1] == Text(s);
          }
        }
      }
    }
  }

  /** The token lists of the documents, `_doc_tokens`. */
  function TokensOf(docs: seq<string>): (dt: seq<seq<string>>)
    ensures |dt| == |docs|
  {
    seq(|docs|, i requires 0 <= i < |docs| => Tokenize(docs[i]))
  }

  /** `sum(lengths)`: the number of tokens of all documents together. */
  function TotalLen(dt: seq<seq<string>>): nat
    decreases |dt|
  {
    if dt == [] then 0 else TotalLen(dt[..|dt| - 1]) + |dt[|dt| - 1]|
  }

  /** `_avgdl`: the mean number of tokens per document. */
  function AvgLen(dt: seq<seq<string>>): real
    requires dt != []
  {
    TotalLen(dt) as real / |dt| as real
  }

  /** Every document's length is part of the total. */
  lemma {:induction false} TotalLenBound(dt: seq<seq<string>>, i: nat)
    requires i < |dt|
    ensures |dt[i]| <= TotalLen(dt)
    decreases |dt|
  {
    if i < |dt| - 1 {
      TotalLenBound(dt[..|dt| - 1], i);
    }
  }

  /**
   * The mean length is never negative, and it is positive as soon as one
   * document has a token: the BM25 formula never divides by a zero `_avgdl`.
   */
  lemma AvgLenPositive(dt: seq<seq<string>>)
    requires dt != []
    ensures AvgLen(dt) >= 0.0
    ensures forall i :: 0 <= i < |dt| && dt[i] != [] ==> AvgLen(dt) > 0.0
  {
    forall i | 0 <= i < |dt| && dt[i] != []
      ensures AvgLen(dt) > 0.0
    {
      TotalLenBound(dt, i);
    }
  }

  /** `df.update(set(tokens))`: one more for each distinct token of a document. */
  function AddDoc(df: map<string, nat>, tokens: seq<string>): map<string, nat> {
    map t | t in df.Keys + (set x | x in tokens) :: (if t in df then df[t] else 0) + (if t in tokens then 1 else 0)
  }

  /** A document's distinct tokens each add one to their count, and only they. */
  lemma AddDocSpec(df: map<string, nat>, tokens: seq<string>, t: string)
    ensures t in AddDoc(df, tokens) <==> t in df || t in tokens
    ensures t in AddDoc(df, tokens) ==>
      AddDoc(df, tokens)[t] == (if t in df then df[t] else 0) + (if t in tokens then 1 else 0)
  {
  }

  /** The `Counter` the document-frequency loop builds. */
  function DfMap(dt: seq<seq<string>>): map<string, nat>
    decreases |dt|
  {
    if dt == [] then map[] else AddDoc(DfMap(dt[..|dt| - 1]), dt[|dt| - 1])
  }

  /** The positions of the documents that hold token `t`. */
  function DocsWith(dt: seq<seq<string>>, t: string): set<nat> {
    set i: nat | i < |dt| && t in dt[i]
  }

  /** The documents holding `t` are those before the last one, plus the last one if it does. */
  lemma DocsWithStep(dt: seq<seq<string>>, t: string)
    requires dt != []
    ensures var last := |dt| - 1;
      |DocsWith(dt, t)| == |DocsWith(dt[..last], t)| + (if t in dt[last] then 1 else 0)
  {
    var last := |dt| - 1;
    var init := dt[..last];
    assert forall i :: 0 <= i < last ==> dt[i] == init[i];
    var before := DocsWith(init, t);
    var extra: set<nat> := if t in dt[last] then {last} else {};
    assert last !in before;
    assert forall i: nat :: i in DocsWith(dt, t) <==> i in before || i in extra;
    assert DocsWith(dt, t) == before + extra;
  }

  /**
   * A term is counted exactly when some document holds it, and its count is
   * the number of documents that hold it, each counted once: `1 <= df <= N`.
   */
  lemma {:induction false} DfSpec(dt: seq<seq<string>>, t: string)
    ensures t in DfMap(dt) <==> exists i :: 0 <= i < |dt| && t in dt[i]
    ensures t in DfMap(dt) ==> DfMap(dt)[t] == |DocsWith(dt, t)| && 1 <= DfMap(dt)[t] <= |dt|
    decreases |dt|
  {
    if dt != [] {
      var init := dt[..|dt| - 1];
      var last := |dt| - 1;
      DfSpec(init, t);
      AddDocSpec(DfMap(init), dt[last], t);
      assert forall i :: 0 <= i < last ==> dt[i] == init[i];
      DocsWithStep(dt, t);
    }
  }

  /** The argument of `math.log` in the idf of a term held by `f` of `n` documents. */
  function IdfArg(n: nat, f: nat): real {
    1.0 + (n as real - f as real + 0.5) / (f as real + 0.5)
  }

  lemma DivPositive(a: real, b: real)
    requires a > 0.0 && b > 0.0
    ensures a / b > 0.0
  {
  }

  /** `math.log`, taken as given; all the retriever relies on is that it is positive above 1. */
  ghost predicate LnPositive(ln: real -> real) {
    forall x :: x > 1.0 ==> ln(x) > 0.0
  }

  /** `_idf`: the dict comprehension over the document frequencies. */
  function IdfMap(dt: seq<seq<string>>, ln: real -> real): map<string, real> {
    var df := DfMap(dt);
    map t | t in df :: ln(IdfArg(|dt|, df[t]))
  }

  /** Every term some document holds has an idf, and it is positive. */
  lemma IdfPositive(dt: seq<seq<string>>, ln: real -> real, t: string)
    requires LnPositive(ln)
    ensures t in IdfMap(dt, ln) <==> exists i :: 0 <= i < |dt| && t in dt[i]
    ensures t in IdfMap(dt, ln) ==> IdfMap(dt, ln)[t] > 0.0
  {
    DfSpec(dt, t);
    if t in DfMap(dt) {
      var f := DfMap(dt)[t];
      DivPositive(|dt| as real - f as real + 0.5, f as real + 0.5);
    }
  }

  const K1: real := 1.5
  const B: real := 0.75

  /** `len(tokens) or 1`. */
  function DocLen(tokens: seq<string>): (dl: nat)
    ensures dl >= 1 && (tokens != [] ==> dl == |tokens|)
  {
    if |tokens| == 0 then 1 else |tokens|
  }

  /** The BM25 contribution of one query token held `freq` times by a document of length `dl`. */
  function TermScore(idf: real, freq: nat, dl: nat, avgdl: real): real
    requires avgdl > 0.0
  {
    var ratio := dl as real / avgdl;
    assert ratio >= 0.0;
    idf * (freq as real * (K1 + 1.0)) / (freq as real + K1 * (1.0 - B + B * ratio))
  }

  /** A token that the document holds and whose idf is positive adds a positive amount. */
  lemma TermScorePositive(idf: real, freq: nat, dl: nat, avgdl: real)
    requires avgdl > 0.0 && idf > 0.0 && freq >= 1
    ensures TermScore(idf, freq, dl, avgdl) > 0.0
  {
    var ratio := dl as real / avgdl;
    assert ratio >= 0.0;
    var num := freq as real * (K1 + 1.0);
    var den := freq as real + K1 * (1.0 - B + B * ratio);
    assert den > 0.0;
    assert idf * num > 0.0;
    assert TermScore(idf, freq, dl, avgdl) == (idf * num) / den;
  }

  /**
   * The score of a document: over the query tokens in order (repeats included),
   * those the document holds add their BM25 term, the others nothing.
   */
  function Score(qs: seq<string>, tokens: seq<string>, idf: map<string, real>, avgdl: real): real
    requires tokens != [] ==> avgdl > 0.0
    decreases |qs|
  {
    if qs == [] then 0.0
    else
      var q := qs[|qs| - 1];
      var before := Score(qs[..|qs| - 1], tokens, idf, avgdl);
      if q !in multiset(tokens) then before
      else before + TermScore(if q in idf then idf[q] else 0.0, multiset(tokens)[q], DocLen(tokens), avgdl)
  }

  /**
   * With positive idfs for the document's tokens, a score is never negative and
   * is positive exactly when the document holds one of the query tokens.
   */
  lemma {:induction false} ScoreSign(qs: seq<string>, tokens: seq<string>, idf: map<string, real>, avgdl: real)
    requires tokens != [] ==> avgdl > 0.0
    requires forall q :: q in tokens ==> q in idf && idf[q] > 0.0
    ensures Score(qs, tokens, idf, avgdl) >= 0.0
    ensures Score(qs, tokens, idf, avgdl) > 0.0 <==> exists q :: q in qs && q in tokens
    decreases |qs|
  {
    if qs != [] {
      var init := qs[..|qs| - 1];
      var q := qs[|qs| - 1];
      ScoreSign(init, tokens, idf, avgdl);
      assert forall x :: x in qs <==> x in init || x == q;
      if q in tokens {
        TermScorePositive(idf[q], multiset(tokens)[q], DocLen(tokens), avgdl);
      }
    }
  }

  /** The score loop for one document. */
  method ScoreDoc(qs: seq<string>, tokens: seq<string>, idf: map<string, real>, avgdl: real) returns (score: real)
    requires tokens != [] ==> avgdl > 0.0
    ensures score == Score(qs, tokens, idf, avgdl)
  {
    var dl := if |tokens| == 0 then 1 else |tokens|;
    var tf := multiset(tokens);
    score := 0.0;
    for j := 0 to |qs|
      invariant score == Score(qs[..j], tokens, idf, avgdl)
    {
      assert qs[..j + 1][..j] == qs[..j];
      var q := qs[j];
      if q in tf {
        var w := if q in idf then idf[q] else 0.0;
        score := score + TermScore(w, tf[q], dl, avgdl);
      }
    }
    assert qs[..|qs|] == qs;
  }

  /** The scores of all documents, in document order. */
  function Scores(qs: seq<string>, dt: seq<seq<string>>, idf: map<string, real>, avgdl: real): (r: seq<real>)
    requires forall i :: 0 <= i < |dt| && dt[i] != [] ==> avgdl > 0.0
    ensures |r| == |dt|
  {
    seq(|dt|, i requires 0 <= i < |dt| => Score(qs, dt[i], idf, avgdl))
  }

  /**
   * The order of `sorted(range(n), key=lambda i: scores[i], reverse=True)`:
   * higher score first, and equal scores in document order since the sort is stable.
   */
  predicate Before(scores: seq<real>, i: nat, j: nat)
    requires i < |scores| && j < |scores|
  {
    scores[i] > scores[j] || (scores[i] == scores[j] && i < j)
  }

  predicate InRange(scores: seq<real>, s: seq<nat>) {
    forall k :: 0 <= k < |s| ==> s[k] < |scores|
  }

  predicate Sorted(scores: seq<real>, s: seq<nat>)
    requires InRange(scores, s)
  {
    forall i, j :: 0 <= i < j < |s| ==> Before(scores, s[i], s[j])
  }

  /** One insertion step of the reference sort. */
  function Insert(scores: seq<real>, x: nat, s: seq<nat>): (r: seq<nat>)
    requires x < |scores| && InRange(scores, s)
    ensures |r| == |s| + 1 && InRange(scores, r)
    ensures forall y :: y in r <==> y == x || y in s
    decreases |s|
  {
    if s == [] then [x]
    else if Before(scores, x, s[0]) then [x] + s
    else [s[0]] + Insert(scores, x, s[1..])
  }

  /** Inserting an index not yet present keeps a list in order. */
  lemma {:induction false} InsertSorted(scores: seq<real>, x: nat, s: seq<nat>)
    requires x < |scores| && InRange(scores, s) && Sorted(scores, s) && x !in s
    ensures Sorted(scores, Insert(scores, x, s))
    decreases |s|
  {
    if s == [] {
    } else if Before(scores, x, s[0]) {
      SortedTail(scores, s);
      forall y | y in s
        ensures Before(scores, x, y)
      {
        if y != s[0] {
          assert Before(scores, s[0], y);
        }
      }
      SortedCons(scores, x, s);
    } else {
      var tail := s[1..];
      SortedTail(scores, s);
      InsertSorted(scores, x, tail);
      assert x != s[0];
      SortedCons(scores, s[0], Insert(scores, x, tail));
    }
  }

  /** The rest of a list in order is in order and comes after its head. */
  lemma SortedTail(scores: seq<real>, s: seq<nat>)
    requires InRange(scores, s) && Sorted(scores, s) && s != []
    ensures InRange(scores, s[1..]) && Sorted(scores, s[1..])
    ensures forall y :: y in s[1..] ==> Before(scores, s[0], y)
  {
    var tail := s[1..];
    forall i, j | 0 <= i < j < |tail|
      ensures Before(scores, tail[i], tail[j])
    {
      assert tail[i] == s[i + 1] && tail[j] == s[j + 1];
    }
    forall y | y in tail
      ensures Before(scores, s[0], y)
    {
      var j :| 0 <= j < |tail| && tail[j] == y;
      assert s[j + 1] == y;
    }
  }

  /** A head that comes before everything in an ordered list keeps it in order. */
  lemma SortedCons(scores: seq<real>, h: nat, t: seq<nat>)
    requires h < |scores| && InRange(scores, t) && Sorted(scores, t)
    requires forall y :: y in t ==> Before(scores, h, y)
    ensures InRange(scores, [h] + t) && Sorted(scores, [h] + t)
  {
    var r := [h] + t;
    forall i, j | 0 <= i < j < |r|
      ensures Before(scores, r[i], r[j])
    {
      assert r[j] == t[j - 1];
      if 0 < i {
        assert r[i] == t[i - 1];
      }
    }
  }

  /** `sorted(range(n), ...)`, as an insertion sort of the first `n` indexes. */
  function Rank(scores: seq<real>, n: nat): (r: seq<nat>)
    requires n <= |scores|
    ensures |r| == n && InRange(scores, r)
    ensures forall i :: i in r <==> 0 <= i < n
  {
    if n == 0 then [] else Insert(scores, n - 1, Rank(scores, n - 1))
  }

  /** The ranking lists every document once, in the order `Before` defines. */
  lemma {:induction false} RankSorted(scores: seq<real>, n: nat)
    requires n <= |scores|
    ensures Sorted(scores, Rank(scores, n))
  {
    if n > 0 {
      RankSorted(scores, n - 1);
      InsertSorted(scores, n - 1, Rank(scores, n - 1));
    }
  }

  /** The ranked indexes the result loop keeps: those whose score is positive. */
  function Picked(scores: seq<real>, ranked: seq<nat>): (p: seq<nat>)
    requires InRange(scores, ranked)
    ensures |p| <= |ranked| && InRange(scores, p)
    decreases |ranked|
  {
    if ranked == [] then []
    else
      var last := ranked[|ranked| - 1];
      Picked(scores, ranked[..|ranked| - 1]) + (if scores[last] <= 0.0 then [] else [last])
  }

  /** Filtering keeps exactly the positively scored indexes and keeps their order. */
  lemma {:induction false} PickedSpec(scores: seq<real>, ranked: seq<nat>)
    requires InRange(scores, ranked) && Sorted(scores, ranked)
    ensures var p := Picked(scores, ranked);
      && Sorted(scores, p)
      && forall x :: x in p <==> x in ranked && scores[x] > 0.0
    decreases |ranked|
  {
    if ranked != [] {
      var init := ranked[..|ranked| - 1];
      var last := ranked[|ranked| - 1];
      assert ranked == init + [last];
      SortedInit(scores, init, last);
      PickedSpec(scores, init);
      var p0 := Picked(scores, init);
      if scores[last] > 0.0 {
        SortedSnoc(scores, p0, last);
      }
    }
  }

  /** The front of a list in order is in order and comes before its last element. */
  lemma SortedInit(scores: seq<real>, init: seq<nat>, last: nat)
    requires InRange(scores, init + [last]) && Sorted(scores, init + [last])
    ensures last < |scores| && InRange(scores, init) && Sorted(scores, init)
    ensures forall y :: y in init ==> y < |scores| && Before(scores, y, last)
  {
    var s := init + [last];
    assert s[|s| - 1] == last;
    forall k | 0 <= k < |init|
      ensures init[k] < |scores|
    {
      assert s[k] == init[k];
    }
    forall i, j | 0 <= i < j < |init|
      ensures Before(scores, init[i], init[j])
    {
      assert s[i] == init[i] && s[j] == init[j];
    }
    forall y | y in init
      ensures Before(scores, y, last)
    {
      var k :| 0 <= k < |init| && init[k] == y;
      assert s[k] == y && s[|s| - 1] == last;
    }
  }

  /** An element that comes after everything in an ordered list keeps it in order. */
  lemma SortedSnoc(scores: seq<real>, t: seq<nat>, h: nat)
    requires h < |scores| && InRange(scores, t) && Sorted(scores, t)
    requires forall y :: y in t ==> Before(scores, y, h)
    ensures InRange(scores, t + [h]) && Sorted(scores, t + [h])
  {
    var r := t + [h];
    forall i, j | 0 <= i < j < |r|
      ensures Before(scores, r[i], r[j])
    {
      assert r[i] == t[i];
      if j < |t| {
        assert r[j] == t[j];
      }
    }
  }

  /** Filtering two lists one after the other filters each of them. */
  lemma {:induction false} PickedConcat(scores: seq<real>, a: seq<nat>, b: seq<nat>)
    requires InRange(scores, a) && InRange(scores, b)
    ensures InRange(scores, a + b)
    ensures Picked(scores, a + b) == Picked(scores, a) + Picked(scores, b)
    decreases |b|
  {
    if b == [] {
      assert a + b == a;
    } else {
      var init, last := b[..|b| - 1], b[|b| - 1];
      assert InRange(scores, init);
      PickedConcat(scores, a, init);
      assert a + b == (a + init) + [last] && b == init + [last];
      PickedSnoc(scores, a + init, last);
      PickedSnoc(scores, init, last);
      var pa, pi := Picked(scores, a), Picked(scores, init);
      var t := if scores[last] <= 0.0 then [] else [last];
      assert (pa + pi) + t == pa + (pi + t);
    }
  }

  /** Filtering a list with one more index filters the list, then that index. */
  lemma PickedSnoc(scores: seq<real>, s: seq<nat>, x: nat)
    requires InRange(scores, s) && x < |scores|
    ensures InRange(scores, s + [x])
    ensures Picked(scores, s + [x]) == Picked(scores, s) + (if scores[x] <= 0.0 then [] else [x])
  {
    var t := s + [x];
    assert t[..|t| - 1] == s && t[|t| - 1] == x;
  }

  /** Filtering keeps only listed indexes with a positive score. */
  lemma {:induction false} PickedSound(scores: seq<real>, s: seq<nat>)
    requires InRange(scores, s)
    ensures forall x :: x in Picked(scores, s) ==> x in s && scores[x] > 0.0
    decreases |s|
  {
    if s != [] {
      var init := s[..|s| - 1];
      assert InRange(scores, init);
      PickedSound(scores, init);
      assert forall x :: x in init ==> x in s;
    }
  }

  /** A list whose every index scores above zero passes the filter whole. */
  lemma {:induction false} PickedAllPositive(scores: seq<real>, s: seq<nat>)
    requires InRange(scores, s) && forall k :: 0 <= k < |s| ==> scores[s[k]] > 0.0
    ensures Picked(scores, s) == s
    decreases |s|
  {
    if s != [] {
      var init := s[..|s| - 1];
      assert InRange(scores, init);
      PickedAllPositive(scores, init);
      assert s == init + [s[|s| - 1]];
    }
  }

  /**
   * Filtering the first `m` of a ranking keeps the first `m` of its positively
   * scored indexes: a positive index left out of the first `m` means that all
   * of them score above zero.
   */
  lemma PickedTop(scores: seq<real>, ranked: seq<nat>, m: int)
    requires InRange(scores, ranked) && Sorted(scores, ranked) && 0 <= m
    ensures Picked(scores, PyPrefix(ranked, m)) == PyPrefix(Picked(scores, ranked), m)
  {
    var t := |PyPrefix(ranked, m)|;
    var top, rest := ranked[..t], ranked[t..];
    assert ranked == top + rest;
    assert InRange(scores, top) && InRange(scores, rest);
    PickedConcat(scores, top, rest);
    if Picked(scores, rest) != [] {
      TopPositive(scores, ranked, t);
    }
    PrefixOfConcat(Picked(scores, top), Picked(scores, rest), m);
  }

  /** A positive index ranked at or after `t` means the first `t` all pass the filter. */
  lemma TopPositive(scores: seq<real>, ranked: seq<nat>, t: nat)
    requires InRange(scores, ranked) && Sorted(scores, ranked) && t <= |ranked|
    requires Picked(scores, ranked[t..]) != []
    ensures Picked(scores, ranked[..t]) == ranked[..t]
  {
    var rest := ranked[t..];
    PickedSound(scores, rest);
    var x := Picked(scores, rest)[0];
    assert x in Picked(scores, rest);
    assert x in rest && scores[x] > 0.0;
    var j :| 0 <= j < |rest| && rest[j] == x;
    PositiveBefore(scores, ranked, t + j);
    PickedAllPositive(scores, ranked[..t]);
  }

  /** The first `m` of `a + b` are `a` when `a` has exactly `m` elements, or when `b` is empty and `a` has at most `m`. */
  lemma PrefixOfConcat<T>(a: seq<T>, b: seq<T>, m: int)
    requires |a| == m || (b == [] && |a| <= m)
    ensures PyPrefix(a + b, m) == a
  {
    assert (a + b)[..|a|] == a;
  }

  /** Everything ranked before a positively scored index scores above zero too. */
  lemma PositiveBefore(scores: seq<real>, ranked: seq<nat>, n: nat)
    requires InRange(scores, ranked) && Sorted(scores, ranked) && n < |ranked| && scores[ranked[n]] > 0.0
    ensures forall k :: 0 <= k < n ==> scores[ranked[k]] > 0.0
  {
    forall k | 0 <= k < n
      ensures scores[ranked[k]] > 0.0
    {
      assert Before(scores, ranked[k], ranked[n]);
    }
  }

  /** A list in ranking order names no index twice. */
  lemma SortedDistinct(scores: seq<real>, s: seq<nat>)
    requires InRange(scores, s) && Sorted(scores, s)
    ensures forall i, j :: 0 <= i < j < |s| ==> s[i] != s[j]
  {
  }

  /** A list that names no element twice has as many elements as its set. */
  lemma {:induction false} DistinctCard(s: seq<nat>)
    requires forall i, j :: 0 <= i < j < |s| ==> s[i] != s[j]
    ensures |(set x: nat | x in s)| == |s|
    decreases |s|
  {
    if s != [] {
      var init := s[..|s| - 1];
      var last := s[|s| - 1];
      assert forall i :: 0 <= i < |init| ==> init[i] == s[i];
      DistinctCard(init);
      var before := set x: nat | x in init;
      assert s == init + [last];
      assert (set x: nat | x in s) == before + {last};
      assert last !in before;
      assert |before + {last}| == |before| + 1;
    }
  }

  /** The indexes with a positive score. */
  function Positives(scores: seq<real>): set<nat> {
    set d: nat | d < |scores| && scores[d] > 0.0
  }

  /** The full ranking, filtered, lists every positively scored index once. */
  lemma PickedCount(scores: seq<real>)
    ensures |Picked(scores, Rank(scores, |scores|))| == |Positives(scores)|
  {
    var ranked := Rank(scores, |scores|);
    RankSorted(scores, |scores|);
    PickedSpec(scores, ranked);
    var p := Picked(scores, ranked);
    SortedDistinct(scores, p);
    DistinctCard(p);
    assert (set x: nat | x in p) == Positives(scores);
  }

  /** `any(q in line.lower() for q in q_tokens)`. */
  predicate Mentions(line: string, qs: seq<string>) {
    exists q :: q in qs && Contains(Lower(line), q)
  }

  /** The snippet chosen among `lines`, defaulting to the whole document. */
  function SnippetFrom(lines: seq<string>, qs: seq<string>, doc: string): string
    decreases |lines|
  {
    if lines == [] then doc
    else if Mentions(lines[0], qs) then Strip(lines[0])
    else SnippetFrom(lines[1..], qs, doc)
  }

  /** The snippet of a document for the query tokens `qs`. */
  function Snippet(doc: string, qs: seq<string>): string {
    SnippetFrom(SplitLines(doc), qs, doc)
  }

  /**
   * The snippet is the first line that mentions a query token, stripped, or the
   * whole document when no line does.
   */
  lemma {:induction false} SnippetSpec(lines: seq<string>, qs: seq<string>, doc: string)
    ensures var r := SnippetFrom(lines, qs, doc);
      || (exists i :: (0 <= i < |lines| && Mentions(lines[i], qs) && r == Strip(lines[i])
            && forall j :: 0 <= j < i ==> !Mentions(lines[j], qs)))
      || ((forall i :: 0 <= i < |lines| ==> !Mentions(lines[i], qs)) && r == doc)
    decreases |lines|
  {
    if lines != [] && !Mentions(lines[0], qs) {
      SnippetSpec(lines[1..], qs, doc);
      assert forall i :: 1 <= i < |lines| ==> lines[i] == lines[1..][i - 1];
      var r := SnippetFrom(lines, qs, doc);
      if exists i :: (0 <= i < |lines[1..]| && Mentions(lines[1..][i], qs) && r == Strip(lines[1..][i])
          && forall j :: 0 <= j < i ==> !Mentions(lines[1..][j], qs)) {
        var i :| 0 <= i < |lines[1..]| && Mentions(lines[1..][i], qs) && r == Strip(lines[1..][i])
          && forall j :: 0 <= j < i ==> !Mentions(lines[1..][j], qs);
        assert lines[i + 1] == lines[1..][i];
        assert forall j :: 0 <= j < i + 1 ==> !Mentions(lines[j], qs);
      }
    } else if lines != [] {
      assert Mentions(lines[0], qs) && SnippetFrom(lines, qs, doc) == Strip(lines[0]);
    }
  }

  /** The snippet loop: the first matching line breaks out of it. */
  method PickSnippet(doc: string, qs: seq<string>) returns (snippet: string)
    ensures snippet == Snippet(doc, qs)
  {
    var lines := SplitLines(doc);
    snippet := doc;
    var i := 0;
    while i < |lines|
      invariant 0 <= i <= |lines|
      invariant SnippetFrom(lines[i..], qs, doc) == Snippet(doc, qs)
    {
      if Mentions(lines[i], qs) {
        snippet := Strip(lines[i]);
        return;
      }
      assert lines[i..][1..] == lines[i + 1..];
      i := i + 1;
    }
  }

  /** Whether a document holds one of the query tokens. */
  predicate Relevant(doc: string, qs: seq<string>) {
    exists q :: q in qs && q in Tokenize(doc)
  }

  /** The scores `search_knowledge` computes for `docs` and the query tokens `qs`. */
  function DocScores(docs: seq<string>, qs: seq<string>, ln: real -> real): (r: seq<real>)
    requires docs != []
    ensures |r| == |docs|
  {
    var dt := TokensOf(docs);
    AvgLenPositive(dt);
    Scores(qs, dt, IdfMap(dt, ln), AvgLen(dt))
  }

  /** The documents whose snippets are returned, in the order they are returned. */
  function Hits(docs: seq<string>, qs: seq<string>, topK: int, ln: real -> real): (p: seq<nat>)
    requires docs != []
    ensures forall k :: 0 <= k < |p| ==> p[k] < |docs|
  {
    Top(DocScores(docs, qs, ln), topK)
  }

  /** `search_knowledge` once the documents are loaded. */
  function SearchSpec(docs: seq<string>, query: string, topK: int, ln: real -> real): seq<string> {
    var qs := Tokenize(query);
    if query == [] || docs == [] || qs == [] then []
    else
      var p := Hits(docs, qs, topK, ln);
      seq(|p|, k requires 0 <= k < |p| => Snippet(docs[p[k]], qs))
  }

  /** An empty query, one without word characters, or no documents give no results. */
  lemma SearchNothing(docs: seq<string>, query: string, topK: int, ln: real -> real)
    requires docs == [] || forall k :: 0 <= k < |query| ==> !IsWordChar(LowerChar(query[k]))
    ensures SearchSpec(docs, query, topK, ln) == []
  {
    TokenizeEmpty(query);
  }

  /** A document scores above zero exactly when it holds a query token. */
  lemma DocScoresSign(docs: seq<string>, qs: seq<string>, ln: real -> real)
    requires LnPositive(ln) && docs != []
    ensures forall d :: 0 <= d < |docs| ==> (DocScores(docs, qs, ln)[d] > 0.0 <==> Relevant(docs[d], qs))
  {
    var dt := TokensOf(docs);
    var idf := IdfMap(dt, ln);
    AvgLenPositive(dt);
    forall d | 0 <= d < |docs|
      ensures DocScores(docs, qs, ln)[d] > 0.0 <==> Relevant(docs[d], qs)
    {
      forall q | q in dt[d]
        ensures q in idf && idf[q] > 0.0
      {
        IdfPositive(dt, ln, q);
      }
      ScoreSign(qs, dt[d], idf, AvgLen(dt));
    }
  }

  /** The first `m` of the ranking, filtered: what `search_knowledge` keeps for `top_k = m`. */
  function Top(scores: seq<real>, m: int): (p: seq<nat>)
    ensures InRange(scores, p)
  {
    Picked(scores, PyPrefix(Rank(scores, |scores|), m))
  }

  /**
   * The kept indexes score above zero and are in ranking order; with `m` at least
   * the number of documents, every positively scored index is kept.
   */
  lemma TopOrdered(scores: seq<real>, m: int)
    ensures var p := Top(scores, m);
      && (forall k :: 0 <= k < |p| ==> scores[p[k]] > 0.0)
      && (forall i, j :: 0 <= i < j < |p| ==> Before(scores, p[i], p[j]))
      && (|scores| <= m ==> forall d :: 0 <= d < |scores| ==> (d in p <==> scores[d] > 0.0))
  {
    var ranked := Rank(scores, |scores|);
    RankSorted(scores, |scores|);
    var top := PyPrefix(ranked, m);
    assert Sorted(scores, top) by {
      forall i, j | 0 <= i < j < |top|
        ensures Before(scores, top[i], top[j])
      {
        assert top[i] == ranked[i] && top[j] == ranked[j];
      }
    }
    PickedSpec(scores, top);
    var p := Picked(scores, top);
    forall k | 0 <= k < |p|
      ensures scores[p[k]] > 0.0
    {
      assert p[k] in p;
    }
  }

  /**
   * For `m >= 0` the kept indexes are the best `m` positively scored ones: the
   * first `m` of all positively scored indexes in ranking order, as many as `m`
   * allows, and every positively scored index left out ranks after every kept one.
   */
  lemma TopBest(scores: seq<real>, m: int)
    requires 0 <= m
    ensures var p := Top(scores, m);
      && p == PyPrefix(Picked(scores, Rank(scores, |scores|)), m)
      && |p| == (if m < |Positives(scores)| then m else |Positives(scores)|)
      && forall d, k :: 0 <= d < |scores| && scores[d] > 0.0 && d !in p && 0 <= k < |p| ==> Before(scores, p[k], d)
  {
    var ranked := Rank(scores, |scores|);
    RankSorted(scores, |scores|);
    PickedTop(scores, ranked, m);
    PickedCount(scores);
    LeftOutAfter(scores, ranked, m);
  }

  /**
   * A positively scored index that the first `m` of a ranking leave out, once
   * filtered, ranks after every index they keep.
   */
  lemma LeftOutAfter(scores: seq<real>, ranked: seq<nat>, m: int)
    requires InRange(scores, ranked) && Sorted(scores, ranked) && 0 <= m
    ensures var p := Picked(scores, PyPrefix(ranked, m));
      forall d, k :: d in ranked && scores[d] > 0.0 && d !in p && 0 <= k < |p| ==> Before(scores, p[k], d)
  {
    var top := PyPrefix(ranked, m);
    var p := Picked(scores, top);
    assert InRange(scores, top);
    PickedSound(scores, top);
    forall d, k | d in ranked && scores[d] > 0.0 && d !in p && 0 <= k < |p|
      ensures Before(scores, p[k], d)
    {
      var j :| 0 <= j < |ranked| && ranked[j] == d;
      assert p[k] in p;
      var i :| 0 <= i < |top| && top[i] == p[k];
      assert top[i] == ranked[i];
      if j < |top| {
        assert top[j] == d;
        PickedComplete(scores, top, d);
      }
    }
  }

  /** Filtering keeps every listed index with a positive score. */
  lemma {:induction false} PickedComplete(scores: seq<real>, s: seq<nat>, x: nat)
    requires InRange(scores, s) && x in s && x < |scores| && scores[x] > 0.0
    ensures x in Picked(scores, s)
    decreases |s|
  {
    var init := s[..|s| - 1];
    assert InRange(scores, init);
    if x != s[|s| - 1] {
      assert x in init by {
        var j :| 0 <= j < |s| && s[j] == x;
        assert init[j] == x;
      }
      PickedComplete(scores, init, x);
    }
  }

  /**
   * The hits are the best `top_k` positively scored documents: positively scored,
   * in ranking order, the first `top_k` of the positively scored documents, and
   * every positively scored document left out ranks after every hit.
   */
  lemma HitsSpec(docs: seq<string>, qs: seq<string>, topK: int, ln: real -> real)
    requires docs != []
    ensures var p := Hits(docs, qs, topK, ln); var scores := DocScores(docs, qs, ln);
      && (forall k :: 0 <= k < |p| ==> scores[p[k]] > 0.0)
      && (forall i, j :: 0 <= i < j < |p| ==> Before(scores, p[i], p[j]))
      && (0 <= topK ==> p == PyPrefix(Picked(scores, Rank(scores, |scores|)), topK))
      && (0 <= topK ==> |p| == if topK < |Positives(scores)| then topK else |Positives(scores)|)
      && (0 <= topK ==> forall d, k :: 0 <= d < |scores| && scores[d] > 0.0 && d !in p && 0 <= k < |p| ==>
            Before(scores, p[k], d))
      && (|docs| <= topK ==> forall d :: 0 <= d < |docs| ==> (d in p <==> scores[d] > 0.0))
  {
    var scores := DocScores(docs, qs, ln);
    assert Hits(docs, qs, topK, ln) == Top(scores, topK);
    TopOrdered(scores, topK);
    if 0 <= topK {
      TopBest(scores, topK);
    }
  }

  /** The documents that hold a query token. */
  function RelevantDocs(docs: seq<string>, qs: seq<string>): set<nat> {
    set d: nat | d < |docs| && Relevant(docs[d], qs)
  }

  /**
   * The results are the snippets of the hits: the best `top_k` documents that hold
   * a query token, best score first with ties in document order. They are the
   * first `top_k` of the hits for an unlimited `top_k`, as many as `top_k` allows,
   * and every relevant document left out ranks after every hit.
   */
  lemma SearchHits(docs: seq<string>, query: string, topK: int, ln: real -> real)
    requires LnPositive(ln) && docs != [] && Tokenize(query) != []
    ensures var qs := Tokenize(query); var p := Hits(docs, qs, topK, ln);
      var r := SearchSpec(docs, query, topK, ln); var scores := DocScores(docs, qs, ln);
      && |r| == |p| && (forall k :: 0 <= k < |p| ==> r[k] == Snippet(docs[p[k]], qs))
      && (forall k :: 0 <= k < |p| ==> Relevant(docs[p[k]], qs))
      && (forall i, j :: 0 <= i < j < |p| ==> scores[p[i]] >= scores[p[j]])
      && (0 <= topK ==> p == PyPrefix(Hits(docs, qs, |docs|, ln), topK))
      && (0 <= topK ==> |p| == if topK < |RelevantDocs(docs, qs)| then topK else |RelevantDocs(docs, qs)|)
      && (0 <= topK ==> forall d, k :: 0 <= d < |docs| && Relevant(docs[d], qs) && d !in p && 0 <= k < |p| ==>
            Before(scores, p[k], d))
      && (|docs| <= topK ==> forall d :: 0 <= d < |docs| ==> (d in p <==> Relevant(docs[d], qs)))
  {
    var qs := Tokenize(query);
    var scores := DocScores(docs, qs, ln);
    DocScoresSign(docs, qs, ln);
    HitsSpec(docs, qs, topK, ln);
    assert PyPrefix(Rank(scores, |scores|), |docs|) == Rank(scores, |scores|);
    assert RelevantDocs(docs, qs) == Positives(scores);
  }

  const DecodeFailure: string := "UnicodeDecodeError"

  /** The module state of api/search_knowledge.py. */
  class KnowledgeBase {
    /** The `.txt` files under the knowledge directory in `glob` order; `None` when the directory does not exist. */
    const folder: Option<seq<FileRead>>
    /** `math.log`. */
    const ln: real -> real
    var documents: seq<string>
    var docTokens: seq<seq<string>>
    var idf: map<string, real>
    var avgdl: real
    var loaded: bool

    /** Whether reading the directory raises. */
    predicate Broken() {
      folder.Some? && Undecodable(folder.value)
    }

    /** The documents a successful load gives. */
    function Corpus(): seq<string> {
      if folder.Some? then Texts(folder.value) else []
    }

    /**
     * The token lists mirror the documents; once loaded, the documents are the
     * directory's and the statistics are theirs; before that, a directory that
     * can be read has added nothing.
     */
    ghost predicate Valid()
      reads this
    {
      && LnPositive(ln)
      && docTokens == TokensOf(documents)
      && (loaded ==> !Broken() && documents == Corpus())
      && (!loaded && !Broken() ==> documents == [])
      && (loaded && documents != [] ==> idf == IdfMap(docTokens, ln) && avgdl == AvgLen(docTokens))
    }

    constructor (folder: Option<seq<FileRead>>, ln: real -> real)
      requires LnPositive(ln)
      ensures Valid() && this.folder == folder && this.ln == ln
      ensures documents == [] && idf == map[] && avgdl == 0.0 && !loaded
    {
      this.folder := folder;
      this.ln := ln;
      documents := [];
      docTokens := [];
      idf := map[];
      avgdl := 0.0;
      loaded := false;
    }

    /**
     * The reading loop of `_load_knowledge`: the readable texts and their tokens
     * are appended, and a file that is not UTF-8 stops it with an error.
     */
    method ReadFiles(files: seq<FileRead>) returns (ok: bool)
      requires docTokens == TokensOf(documents)
      modifies this`documents, this`docTokens
      ensures docTokens == TokensOf(documents)
      ensures ok <==> !Undecodable(files)
      ensures documents == old(documents) + Texts(files)
    {
      var i := 0;
      while i < |files|
        invariant 0 <= i <= |files|
        invariant docTokens == TokensOf(documents)
        invariant old(documents) + Texts(files) == documents + Texts(files[i..])
        invariant forall k :: 0 <= k < i ==> !files[k].NotUtf8?
      {
        var f := files[i];
        assert files[i..][1..] == files[i + 1..];
        if f.NotUtf8? {
          return false;
        }
        if f.Text? {
          documents := documents + [f.content];
          docTokens := docTokens + [Tokenize(f.content)];
        }
        i := i + 1;
      }
      assert files[|files|..] == [];
      return true;
    }

    /**
     * `_load_knowledge`: nothing once loaded; otherwise the readable texts are
     * appended and, when there are any, the statistics computed. A file that is
     * not UTF-8 raises after the texts before it were appended, and the flag
     * stays down, so the next call reads the directory again.
     */
    method LoadKnowledge() returns (ok: bool)
      requires Valid()
      modifies this
      ensures Valid()
      ensures ok <==> !Broken()
      ensures old(loaded) ==> unchanged(this)
      ensures !Broken() ==> loaded && documents == Corpus()
      ensures Broken() ==> !loaded && documents == old(documents) + Corpus()
      ensures Broken() || documents == [] ==> idf == old(idf) && avgdl == old(avgdl)
    {
      if loaded {
        return true;
      }
      if folder.None? {
        loaded := true;
        return true;
      }
      ok := ReadFiles(folder.value);
      if !ok {
        return;
      }
      if documents == [] {
        loaded := true;
        return true;
      }
      avgdl := AvgLen(docTokens);
      var df := CountDocFreq(docTokens);
      var n := |documents|;
      idf := map t | t in df :: ln(IdfArg(n, df[t]));
      loaded := true;
      ok := true;
    }

    /**
     * `search_knowledge`: loads the knowledge (a decode error propagates), then
     * scores every document, ranks, keeps the first `top_k` with a positive score
     * and returns a snippet of each.
     */
    method Search(query: string, topK: int) returns (r: Result<seq<string>, string>)
      requires Valid()
      modifies this
      ensures Valid()
      ensures r.Err? <==> Broken()
      ensures r.Ok? ==> r.value == SearchSpec(Corpus(), query, topK, ln)
      ensures old(loaded) ==> unchanged(this)
      ensures !Broken() ==> loaded && documents == Corpus()
      ensures Broken() ==> !loaded && documents == old(documents) + Corpus()
    {
      var ok := LoadKnowledge();
      if !ok {
        return Err(DecodeFailure);
      }
      if query == [] || documents == [] {
        return Ok([]);
      }
      var qs := Tokenize(query);
      if qs == [] {
        return Ok([]);
      }
      AvgLenPositive(docTokens);
      var scores := ScoreAll(qs, docTokens, idf, avgdl);
      var top := PyPrefix(Rank(scores, |scores|), topK);
      var results := CollectResults(documents, qs, scores, top);
      r := Ok(results);
    }
  }

  /** The scoring loop over `zip(_doc_tokens, _documents)`. */
  method ScoreAll(qs: seq<string>, dt: seq<seq<string>>, idf: map<string, real>, avgdl: real)
    returns (scores: seq<real>)
    requires forall i :: 0 <= i < |dt| && dt[i] != [] ==> avgdl > 0.0
    ensures scores == Scores(qs, dt, idf, avgdl)
  {
    scores := [];
    for i := 0 to |dt|
      invariant |scores| == i
      invariant forall k :: 0 <= k < i ==> scores[k] == Score(qs, dt[k], idf, avgdl)
    {
      var s := ScoreDoc(qs, dt[i], idf, avgdl);
      scores := scores + [s];
    }
  }

  /** The result loop over the first `top_k` ranked documents: those scoring above zero give a snippet. */
  method CollectResults(docs: seq<string>, qs: seq<string>, scores: seq<real>, top: seq<nat>)
    returns (results: seq<string>)
    requires |scores| == |docs| && InRange(scores, top)
    ensures var p := Picked(scores, top);
      |results| == |p| && forall k :: 0 <= k < |p| ==> results[k] == Snippet(docs[p[k]], qs)
  {
    ghost var picked: seq<nat> := [];
    results := [];
    for j := 0 to |top|
      invariant picked == Picked(scores, top[..j])
      invariant |results| == |picked|
      invariant forall k :: 0 <= k < |picked| ==> results[k] == Snippet(docs[picked[k]], qs)
    {
      assert top[..j + 1][..j] == top[..j];
      var idx := top[j];
      if scores[idx] > 0.0 {
        var snippet := PickSnippet(docs[idx], qs);
        results := results + [snippet];
        picked := picked + [idx];
      }
    }
    assert top[..|top|] == top;
  }

  /** The document-frequency loop over `_doc_tokens`. */
  method CountDocFreq(dt: seq<seq<string>>) returns (df: map<string, nat>)
    ensures df == DfMap(dt)
  {
    df := map[];
    for i := 0 to |dt|
      invariant df == DfMap(dt[..i])
    {
      assert dt[..i + 1][..i] == dt[..i];
      df := AddDoc(df, dt[i]);
    }
    assert dt[..|dt|] == dt;
  }
}
