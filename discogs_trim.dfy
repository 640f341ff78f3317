/** Text normalisation of the Discogs music scraper: `Discogs::trim`
    replaces every match of the regular expression `\s\s+` by a single
    space and then applies `QString::trimmed`.

    The two steps use different whitespace classes. `QRegularExpression`
    is used without `UseUnicodePropertiesOption`, so its `\s` matches ASCII
    whitespace only (`IsRegexSpace`); `QString::trimmed` strips every
    character for which `QChar::isSpace` holds (`IsSpace`). */
module DiscogsTrim {

  /** `\s` of the regular expression: space, tab, line feed, vertical tab,
      form feed and carriage return. */
  predicate IsRegexSpace(c: char): (b: bool)
    ensures b <==> c in {' ', '\t', '\n', '\U{B}', '\U{C}', '\r'}
  {
    c == ' ' || '\t' <= c <= '\r'
  }

  /** `QChar::isSpace`: the ASCII whitespace, U+0085, U+00A0 and the Unicode
      space, line and paragraph separators. */
  predicate IsSpace(c: char): (b: bool)
    ensures IsRegexSpace(c) ==> b
  {
    if c <= ' ' then IsRegexSpace(c)
    else if c <= '\U{A0}' then c == '\U{85}' || c == '\U{A0}'
    else '\U{1680}' <= c <= '\U{3000}' && IsWideSpace(c)
  }

  /** The 25 characters `QChar::isSpace` accepts. */
  const QtSpaces: set<char> :=
    {' ', '\t', '\n', '\U{B}', '\U{C}', '\r', '\U{85}', '\U{A0}', '\U{1680}',
     '\U{2000}', '\U{2001}', '\U{2002}', '\U{2003}', '\U{2004}', '\U{2005}',
     '\U{2006}', '\U{2007}', '\U{2008}', '\U{2009}', '\U{200A}',
     '\U{2028}', '\U{2029}', '\U{202F}', '\U{205F}', '\U{3000}'}

  /** The separator characters above U+00FF. */
  predicate IsWideSpace(c: char)
  {
    || c == '\U{1680}' || ('\U{2000}' <= c <= '\U{200A}')
    || c == '\U{2028}' || c == '\U{2029}' || c == '\U{202F}'
    || c == '\U{205F}' || c == '\U{3000}'
  }

  /** `IsSpace` holds for exactly the 25 characters of `QtSpaces`. */
  lemma {:induction false} IsSpaceExactly(c: char)
    ensures IsSpace(c) <==> c in QtSpaces
  {
  }

  predicate AllSpace(s: string)
  {
    forall i :: 0 <= i < |s| ==> IsSpace(s[i])
  }

  predicate AllRegexSpace(s: string)
  {
    forall i :: 0 <= i < |s| ==> IsRegexSpace(s[i])
  }

  /** Neither the first nor the last character is whitespace. */
  predicate NoSpaceAtEdges(s: string)
  {
    s == [] || (!IsSpace(s[0]) && !IsSpace(s[|s| - 1]))
  }

  predicate SpacePairAt(s: string, i: int)
    requires 0 <= i < |s| - 1
  {
    IsRegexSpace(s[i]) && IsRegexSpace(s[i + 1])
  }

  /** No two neighbouring characters are both matched by `\s`, that is,
      `\s\s+` does not match anywhere. */
  predicate NoAdjacentSpaces(s: string)
  {
    forall i :: 0 <= i < |s| - 1 ==> !SpacePairAt(s, i)
  }

  /** The characters of `s` that are not whitespace, in order. */
  function NonSpace(s: string): string
  {
    if s == [] then []
    else (if IsSpace(s[0]) then [] else [s[0]]) + NonSpace(s[1..])
  }

  /** Length of the whitespace run that starts `s`. */
  function LeadingSpaces(s: string): (n: nat)
    ensures n <= |s|
    ensures forall i :: 0 <= i < n ==> IsSpace(s[i])
    ensures n < |s| ==> !IsSpace(s[n])
  {
    if s == [] || !IsSpace(s[0]) then 0
    else 1 + LeadingSpaces(s[1..])
  }

  /** Length of the whitespace run that ends `s`. */
  function TrailingSpaces(s: string): (n: nat)
    ensures n <= |s|
    ensures forall i :: |s| - n <= i < |s| ==> IsSpace(s[i])
    ensures n < |s| ==> !IsSpace(s[|s| - n - 1])
  {
    if s == [] || !IsSpace(s[|s| - 1]) then 0
    else 1 + TrailingSpaces(s[..|s| - 1])
  }

  /** Length of the run of `\s` characters that starts `s`. */
  function RegexRun(s: string): (n: nat)
    ensures n <= |s|
    ensures forall i :: 0 <= i < n ==> IsRegexSpace(s[i])
    ensures n < |s| ==> !IsRegexSpace(s[n])
  {
    if s == [] || !IsRegexSpace(s[0]) then 0
    else 1 + RegexRun(s[1..])
  }

  /** The length of the piece of `s` the pattern `\s\s+` is tried on
      next: a whole run of `\s` characters, or one other character. */
  function Step(s: string): (n: nat)
    requires s != []
    ensures 1 <= n <= |s|
  {
    if IsRegexSpace(s[0]) then RegexRun(s) else 1
  }

  /** What that piece becomes: one space for a run of two or more, the
      character itself otherwise. */
  function Head(s: string): char
    requires s != []
  {
    if IsRegexSpace(s[0]) && RegexRun(s) >= 2 then ' ' else s[0]
  }

  /** `replace(QRegularExpression("\\s\\s+"), " ")`. The pattern is greedy,
      so each match is a maximal run; a lone `\s` character is not a match
      and stays as it is. */
  function CollapseRuns(s: string): (r: string)
    ensures |r| <= |s|
    decreases |s|
  {
    if s == [] then [] else [Head(s)] + CollapseRuns(s[Step(s)..])
  }

  /** `QString::trimmed`: whitespace removed from the start and the end. */
  function Trimmed(s: string): (r: string)
    ensures NoSpaceAtEdges(r)
    ensures |r| <= |s|
  {
    var t := s[LeadingSpaces(s)..];
    t[..|t| - TrailingSpaces(t)]
  }

  /** `Discogs::trim`. */
  function Trim(s: string): (r: string)
    ensures NoSpaceAtEdges(r)
    ensures |r| <= |s|
  {
    Trimmed(CollapseRuns(s))
  }

  // ---------------------------------------------------------------------
  // Lemmas

  /** The result of `trim` has no whitespace at its ends, no two adjacent
      `\s` characters, the same non-whitespace characters in the same order
      as its input, and is never longer than its input. */
  lemma {:induction false} TrimProperties(s: string)
    ensures NoSpaceAtEdges(Trim(s))
    ensures NoAdjacentSpaces(Trim(s))
    ensures NonSpace(Trim(s)) == NonSpace(s)
    ensures |Trim(s)| <= |s|
  {
    var c := CollapseRuns(s);
    CollapseShape(s);
    TrimmedNoAdjacent(c);
    NonSpaceCollapse(s);
    NonSpaceTrimmed(c);
  }

  /** After the replacement no two `\s` characters are adjacent; the result
      is empty only for empty input, and starts with a `\s` character
      exactly when the input does. */
  lemma {:induction false} CollapseShape(s: string)
    ensures CollapseRuns(s) == [] <==> s == []
    ensures s != [] ==> (IsRegexSpace(CollapseRuns(s)[0]) <==> IsRegexSpace(s[0]))
    ensures NoAdjacentSpaces(CollapseRuns(s))
    decreases |s|
  {
    if s != [] {
      var n := Step(s);
      var rest := s[n..];
      CollapseShape(rest);
      if IsRegexSpace(Head(s)) && rest != [] {
        assert rest[0] == s[n];
      }
      ConsNoAdjacent(Head(s), CollapseRuns(rest));
    }
  }

  lemma {:induction false} ConsNoAdjacent(c: char, s: string)
    requires NoAdjacentSpaces(s)
    requires s != [] && IsRegexSpace(c) ==> !IsRegexSpace(s[0])
    ensures NoAdjacentSpaces([c] + s)
  {
    var t := [c] + s;
    forall i | 0 <= i < |t| - 1
      ensures !SpacePairAt(t, i)
    {
      if i > 0 {
        assert !SpacePairAt(s, i - 1);
      }
    }
  }

  lemma {:induction false} SliceNoAdjacent(s: string, i: int, j: int)
    requires 0 <= i <= j <= |s|
    requires NoAdjacentSpaces(s)
    ensures NoAdjacentSpaces(s[i..j])
  {
    var t := s[i..j];
    forall k | 0 <= k < |t| - 1
      ensures !SpacePairAt(t, k)
    {
      assert !SpacePairAt(s, i + k);
    }
  }

  lemma {:induction false} TrimmedNoAdjacent(s: string)
    requires NoAdjacentSpaces(s)
    ensures NoAdjacentSpaces(Trimmed(s))
  {
    var i := LeadingSpaces(s);
    SliceNoAdjacent(s, i, |s|);
    var t := s[i..];
    assert t == s[i..|s|];
    SliceNoAdjacent(t, 0, |t| - TrailingSpaces(t));
  }

  lemma {:induction false} NonSpaceAppend(a: string, b: string)
    ensures NonSpace(a + b) == NonSpace(a) + NonSpace(b)
  {
    if a != [] {
      assert (a + b)[0] == a[0];
      assert (a + b)[1..] == a[1..] + b;
      NonSpaceAppend(a[1..], b);
    } else {
      assert a + b == b;
    }
  }

  lemma {:induction false} NonSpaceAllSpace(s: string)
    requires AllSpace(s)
    ensures NonSpace(s) == []
  {
    if s != [] {
      NonSpaceAllSpace(s[1..]);
    }
  }

  /** Dropping a whitespace prefix of length `n` keeps `NonSpace`. */
  lemma {:induction false} NonSpaceDrop(s: string, n: nat)
    requires n <= |s| && forall i :: 0 <= i < n ==> IsSpace(s[i])
    ensures NonSpace(s[n..]) == NonSpace(s)
  {
    assert s == s[..n] + s[n..];
    assert AllSpace(s[..n]);
    NonSpaceAppend(s[..n], s[n..]);
    NonSpaceAllSpace(s[..n]);
  }

  lemma {:induction false} NonSpaceCollapse(s: string)
    ensures NonSpace(CollapseRuns(s)) == NonSpace(s)
    decreases |s|
  {
    if s != [] {
      var n := Step(s);
      NonSpaceCollapse(s[n..]);
      NonSpaceAppend([Head(s)], CollapseRuns(s[n..]));
      if IsRegexSpace(s[0]) {
        assert forall i :: 0 <= i < n ==> IsRegexSpace(s[i]);
        NonSpaceDrop(s, n);
      } else {
        assert NonSpace(s) == NonSpace([s[0]]) + NonSpace(s[1..]);
      }
    }
  }

  lemma {:induction false} NonSpaceTrimmed(s: string)
    ensures NonSpace(Trimmed(s)) == NonSpace(s)
  {
    var i := LeadingSpaces(s);
    NonSpaceDrop(s, i);
    var t := s[i..];
    var m := |t| - TrailingSpaces(t);
    assert t == t[..m] + t[m..];
    NonSpaceAppend(t[..m], t[m..]);
    assert AllSpace(t[m..]);
    NonSpaceAllSpace(t[m..]);
  }

  /** The replacement changes nothing once `\s\s+` does not match. */
  lemma {:induction false} CollapseNoAdjacent(s: string)
    requires NoAdjacentSpaces(s)
    ensures CollapseRuns(s) == s
    decreases |s|
  {
    if s != [] {
      if IsRegexSpace(s[0]) && |s| > 1 {
        assert !SpacePairAt(s, 0);
      }
      assert Step(s) == 1 && Head(s) == s[0];
      SliceNoAdjacent(s, 1, |s|);
      assert s[1..|s|] == s[1..];
      CollapseNoAdjacent(s[1..]);
    }
  }

  lemma {:induction false} TrimmedNoEdges(s: string)
    requires NoSpaceAtEdges(s)
    ensures Trimmed(s) == s
  {
  }

  /** `trim` is idempotent. */
  lemma {:induction false} TrimIdempotent(s: string)
    ensures Trim(Trim(s)) == Trim(s)
  {
    var t := Trim(s);
    TrimProperties(s);
    CollapseNoAdjacent(t);
    TrimmedNoEdges(t);
  }

  /** `QString::trimmed` removes only whitespace at the two ends: its result
      is a slice of the input with nothing but whitespace before and after. */
  lemma {:induction false} TrimmedStripsEdges(s: string)
    ensures exists i :: 0 <= i <= |s| - |Trimmed(s)| &&
                        Trimmed(s) == s[i..i + |Trimmed(s)|] &&
                        AllSpace(s[..i]) && AllSpace(s[i + |Trimmed(s)|..])
  {
    var i := LeadingSpaces(s);
    var t := s[i..];
    var m := |t| - TrailingSpaces(t);
    assert Trimmed(s) == s[i..i + m];
    assert AllSpace(s[..i]);
    assert s[i + m..] == t[m..];
    assert AllSpace(s[i + m..]);
  }

  lemma {:induction false} AppendNoAdjacent(a: string, b: string)
    requires NoAdjacentSpaces(a) && NoAdjacentSpaces(b) && CleanCut(a, b)
    ensures NoAdjacentSpaces(a + b)
  {
    var t := a + b;
    forall i | 0 <= i < |t| - 1
      ensures !SpacePairAt(t, i)
    {
      if i < |a| - 1 {
        assert !SpacePairAt(a, i);
      } else if i >= |a| {
        assert !SpacePairAt(b, i - |a|);
      }
    }
  }

  /** A whitespace character between two outputs of `trim` survives `trim`:
      only the ends are stripped and only runs are collapsed. The outputs of
      `trim` are given by their characterisation in `TrimFixedPoint`. */
  lemma {:induction false} TrimKeepsLoneSpace(p: string, c: char, q: string)
    requires p != [] && q != [] && IsSpace(c)
    requires NoSpaceAtEdges(p) && NoAdjacentSpaces(p)
    requires NoSpaceAtEdges(q) && NoAdjacentSpaces(q)
    ensures Trim(p + [c] + q) == p + [c] + q
  {
    AppendNoAdjacent(p, [c]);
    AppendNoAdjacent(p + [c], q);
    var s := p + [c] + q;
    assert s[0] == p[0] && s[|s| - 1] == q[|q| - 1];
    TrimFixedPoint(s);
  }

  /** The outputs of `trim` are exactly its fixed points: text without
      whitespace at its ends and without two adjacent `\s` characters. */
  lemma {:induction false} TrimFixedPoint(s: string)
    ensures Trim(s) == s <==> NoSpaceAtEdges(s) && NoAdjacentSpaces(s)
  {
    TrimProperties(s);
    if NoSpaceAtEdges(s) && NoAdjacentSpaces(s) {
      CollapseNoAdjacent(s);
      TrimmedNoEdges(s);
    }
  }

  /** The leading `\s` run of `a + b` is that of `a` unless `a` is all `\s`
      and `b` starts with a `\s` character. */
  lemma {:induction false} RegexRunAppend(a: string, b: string)
    requires RegexRun(a) < |a| || b == [] || !IsRegexSpace(b[0])
    ensures RegexRun(a + b) == RegexRun(a)
  {
    if a == [] {
      assert a + b == b;
    } else if IsRegexSpace(a[0]) {
      assert (a + b)[0] == a[0];
      assert (a + b)[1..] == a[1..] + b;
      RegexRunAppend(a[1..], b);
    } else {
      assert (a + b)[0] == a[0];
    }
  }

  lemma {:induction false} AllRegexSpaceRun(w: string)
    requires AllRegexSpace(w)
    ensures RegexRun(w) == |w|
  {
  }

  /** A cut of `p + q` that does not split a run of `\s` characters. */
  predicate CleanCut(p: string, q: string)
  {
    p == [] || q == [] || !IsRegexSpace(p[|p| - 1]) || !IsRegexSpace(q[0])
  }

  lemma {:induction false} StepAppend(p: string, q: string)
    requires p != [] && CleanCut(p, q)
    ensures Step(p + q) == Step(p) && Head(p + q) == Head(p)
  {
    assert (p + q)[0] == p[0];
    if IsRegexSpace(p[0]) {
      if RegexRun(p) == |p| {
        assert IsRegexSpace(p[|p| - 1]);
      }
      RegexRunAppend(p, q);
    }
  }

  // `CollapseUnfold`, `CutAfterStep` and `ConcatAssoc` below, like
  // `AllRegexSpaceRun` above, are proved without a body. They are stated
  // separately only to keep the proofs that call them cheap for the solver.

  lemma {:induction false} CollapseUnfold(s: string)
    requires s != []
    ensures CollapseRuns(s) == [Head(s)] + CollapseRuns(s[Step(s)..])
  {
  }

  lemma {:induction false} CutAfterStep(p: string, q: string)
    requires p != [] && CleanCut(p, q)
    ensures CleanCut(p[Step(p)..], q)
  {
  }

  /** Concatenation is associative. */
  lemma ConcatAssoc<T>(a: seq<T>, b: seq<T>, c: seq<T>)
    ensures a + (b + c) == (a + b) + c
  {
  }

  /** The replacement is local: it can be done separately on two pieces
      when the cut does not split a run of `\s` characters. */
  lemma {:induction false} CollapseAppend(p: string, q: string)
    requires CleanCut(p, q)
    ensures CollapseRuns(p + q) == CollapseRuns(p) + CollapseRuns(q)
    decreases |p|
  {
    if p == [] {
      assert p + q == q;
    } else {
      var n := Step(p);
      StepAppend(p, q);
      var rest := p[n..];
      assert (p + q)[n..] == rest + q;
      CutAfterStep(p, q);
      CollapseAppend(rest, q);
      CollapseUnfold(p + q);
      CollapseUnfold(p);
      ConcatAssoc([Head(p)], CollapseRuns(rest), CollapseRuns(q));
    }
  }

  /** A maximal run `w` of `\s` characters in front of `q` becomes
      `Head(w)`. */
  lemma {:induction false} CollapseRunHead(w: string, q: string)
    requires w != [] && AllRegexSpace(w)
    requires q == [] || !IsRegexSpace(q[0])
    ensures CollapseRuns(w + q) == [Head(w)] + CollapseRuns(q)
  {
    AllRegexSpaceRun(w);
    assert (w + q)[0] == w[0];
    RegexRunAppend(w, q);
    assert (w + q)[|w|..] == q;
    CollapseUnfold(w + q);
  }

  /** A maximal run `w` of `\s` characters between `p` and `q` becomes
      `Head(w)`, and `p` and `q` are replaced independently. */
  lemma {:induction false} RunCollapses(p: string, w: string, q: string)
    requires w != [] && AllRegexSpace(w)
    requires p == [] || !IsRegexSpace(p[|p| - 1])
    requires q == [] || !IsRegexSpace(q[0])
    ensures CollapseRuns(p + w + q) == CollapseRuns(p) + [Head(w)] + CollapseRuns(q)
  {
    assert p + w + q == p + (w + q);
    assert (w + q)[0] == w[0];
    CollapseAppend(p, w + q);
    CollapseRunHead(w, q);
    ConcatAssoc(CollapseRuns(p), [Head(w)], CollapseRuns(q));
  }

  /** A lone `\s` character between other characters is kept as it is. */
  lemma {:induction false} LoneSpaceKept(p: string, c: char, q: string)
    requires IsRegexSpace(c)
    requires p == [] || !IsRegexSpace(p[|p| - 1])
    requires q == [] || !IsRegexSpace(q[0])
    ensures CollapseRuns(p + [c] + q) == CollapseRuns(p) + [c] + CollapseRuns(q)
  {
    var w := [c];
    assert AllRegexSpace(w);
    RunCollapses(p, w, q);
    AllRegexSpaceRun(w);
  }

  /** A maximal run of two or more `\s` characters becomes one space. */
  lemma {:induction false} RunBecomesOneSpace(p: string, w: string, q: string)
    requires |w| >= 2 && AllRegexSpace(w)
    requires p == [] || !IsRegexSpace(p[|p| - 1])
    requires q == [] || !IsRegexSpace(q[0])
    ensures CollapseRuns(p + w + q) == CollapseRuns(p) + [' '] + CollapseRuns(q)
  {
    RunCollapses(p, w, q);
    AllRegexSpaceRun(w);
  }

  /** Any character that `\s` does not match, including the non-ASCII
      whitespace that `QString::trimmed` strips, is left in place by the
      replacement wherever it stands. */
  lemma {:induction false} OtherCharKept(p: string, c: char, q: string)
    requires !IsRegexSpace(c)
    ensures CollapseRuns(p + [c] + q) == CollapseRuns(p) + [c] + CollapseRuns(q)
  {
    assert p + [c] + q == p + ([c] + q);
    assert ([c] + q)[0] == c;
    CollapseAppend(p, [c] + q);
    CollapseAppend([c], q);
    CollapseUnfold([c]);
    assert [c][1..] == [];
    ConcatAssoc(CollapseRuns(p), [c], CollapseRuns(q));
  }
}
