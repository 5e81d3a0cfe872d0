/** The three string normalisers of content.js: `extractCourseCode`,
    `cleanCourseName` and `extractCourseId`. Each regular expression of the
    source is a hand-written matcher: a `...At(s, i)` function says whether
    (and where to) the expression matches when tried at position i, and
    `Search` is the engine's scan for the leftmost position that matches. */
module Normalizer {
  import opened Text

  /** The regular-expression scan: the leftmost position in [i, n] that `matchAt` accepts. */
  function Search(n: nat, i: nat, matchAt: nat -> bool): (r: Option<nat>)
    requires i <= n
    ensures r.Some? ==> i <= r.value <= n && matchAt(r.value)
    ensures r.Some? ==> forall j :: i <= j < r.value ==> !matchAt(j)
    ensures r.None? ==> forall j :: i <= j <= n ==> !matchAt(j)
    decreases n - i
  {
    if matchAt(i) then Some(i)
    else if i == n then None
    else Search(n, i + 1, matchAt)
  }

  // ---------------------------------------------------------------------------
  // The course-code pattern

  /** `[A-Z]{4}\d{4}` at i, case-sensitive: the shape of a UT course code. */
  predicate UpperCodeAt(s: string, i: nat) {
    i + 8 <= |s|
    && IsUpper(s[i]) && IsUpper(s[i + 1]) && IsUpper(s[i + 2]) && IsUpper(s[i + 3])
    && IsDigit(s[i + 4]) && IsDigit(s[i + 5]) && IsDigit(s[i + 6]) && IsDigit(s[i + 7])
  }

  /** `[A-Z]{4}\d{4}` at i under the `i` flag: the letters may be of either case. */
  predicate LetterCodeAt(s: string, i: nat) {
    i + 8 <= |s|
    && IsLetter(s[i]) && IsLetter(s[i + 1]) && IsLetter(s[i + 2]) && IsLetter(s[i + 3])
    && IsDigit(s[i + 4]) && IsDigit(s[i + 5]) && IsDigit(s[i + 6]) && IsDigit(s[i + 7])
  }

  /** A course code as `extractCourseCode` returns it: four capitals, four digits. */
  predicate IsCourseCode(c: string) {
    |c| == 8 && UpperCodeAt(c, 0)
  }

  /** End of the greedy optional group `(?:\.\d+)?` tried at j: past the whole
      digit run when a dot and a digit follow, otherwise j itself. */
  function DotDigitsEnd(s: string, j: nat): (e: nat)
    requires j <= |s|
    ensures j <= e <= |s|
    ensures e > j ==> j + 2 <= e && s[j] == '.' && (forall k :: j < k < e ==> IsDigit(s[k]))
                      && (e == |s| || !IsDigit(s[e]))
    ensures e == j ==> !(j + 1 < |s| && s[j] == '.' && IsDigit(s[j + 1]))
  {
    if j + 1 < |s| && s[j] == '.' && IsDigit(s[j + 1]) then RunEnd(s, j + 1, IsDigit) else j
  }

  /** A whole code token at i: what `\b[A-Z]{4}\d{4}(?:\.\d+)?\b` needs in order to
      match there, with the optional suffix taken out of the picture. */
  predicate CodeTokenAt(s: string, i: nat) {
    i <= |s| && IsWordBoundary(s, i) && UpperCodeAt(s, i) && (i + 8 == |s| || !IsWordChar(s[i + 8]))
  }

  /** Codes cannot overlap, and no code starts inside a dotted suffix. */
  lemma NoCodeInsideMatch(s: string, j: nat)
    requires UpperCodeAt(s, j)
    ensures forall k :: j < k < DotDigitsEnd(s, j + 8) ==> !UpperCodeAt(s, k)
  {
    var e := DotDigitsEnd(s, j + 8);
    forall k | j < k < e ensures !UpperCodeAt(s, k) {
      if k < j + 4 {
        assert k + 3 < |s| ==> IsDigit(s[k + 3]);
      } else if k < j + 8 {
        assert IsDigit(s[k]);
      } else {
        assert s[k] == '.' || IsDigit(s[k]);
      }
    }
  }

  /** The end of the match of `\b[A-Z]{4}\d{4}(?:\.\d+)?\b` tried at i, if any.
      The engine first takes the group with its digits greedy and checks `\b`;
      giving digits back cannot help (a digit before a digit is no boundary),
      so on failure it drops the group and checks `\b` right after the code.
      Whether it matches depends only on the characters around the bare code. */
  function BoundedCodeMatchAt(s: string, i: nat): (r: Option<nat>)
    ensures r.Some? <==> CodeTokenAt(s, i)
    ensures r.Some? ==> i + 8 <= r.value <= |s| && IsWordBoundary(s, r.value)
    ensures r.Some? ==> r.value == i + 8 || r.value == DotDigitsEnd(s, i + 8)
    ensures r.Some? && DotDigitsEnd(s, i + 8) > i + 8 && IsWordBoundary(s, DotDigitsEnd(s, i + 8))
            ==> r.value == DotDigitsEnd(s, i + 8)
    ensures r.Some? && r.value > i + 8 ==> s[i + 8] == '.'
  {
    if i > |s| || !IsWordBoundary(s, i) || !UpperCodeAt(s, i) then None
    else
      var e := DotDigitsEnd(s, i + 8);
      if e > i + 8 && IsWordBoundary(s, e) then Some(e)
      else if IsWordBoundary(s, i + 8) then Some(i + 8)
      else None
  }

  // ---------------------------------------------------------------------------
  // extractCourseCode

  /** `extractCourseCode`: the capture `([A-Z]{4}\d{4})` of the first match of
      `\b([A-Z]{4}\d{4})(?:\.\d+)?\b`, or none. */
  function ExtractCourseCode(text: string): (r: Option<string>)
    ensures r.None? <==> forall i: nat :: i <= |text| ==> !CodeTokenAt(text, i)
    ensures r.Some? ==> IsCourseCode(r.value)
    ensures r.Some? ==> exists i: nat :: CodeTokenAt(text, i) && r.value == text[i..i + 8]
                                         && forall j: nat :: j < i ==> !CodeTokenAt(text, j)
  {
    var matchAt := (i: nat) => BoundedCodeMatchAt(text, i).Some?;
    assert forall i: nat :: matchAt(i) == CodeTokenAt(text, i);
    match Search(|text|, 0, matchAt)
    case None => None
    case Some(i) =>
      assert IsCourseCode(text[i..i + 8]) by { assert UpperCodeAt(text, i); }
      Some(text[i..i + 8])
  }

  // ---------------------------------------------------------------------------
  // cleanCourseName

  const StarredPhrase: string := "course is starred"
  const CourseNamePhrase: string := "course name"

  /** s starts with phrase (given in lower case) under the `i` flag. */
  predicate StartsWithPhrase(s: string, phrase: string) {
    |phrase| <= |s| && ToLower(s[..|phrase|]) == phrase
  }

  /** `s.replace(/^<phrase>\s*\/i, '')`. */
  function StripLeadingPhrase(s: string, phrase: string): (r: string)
    ensures StartsWithPhrase(s, phrase) ==> |r| <= |s| - |phrase| && r == s[|s| - |r|..]
    ensures StartsWithPhrase(s, phrase) ==> forall k :: |phrase| <= k < |s| - |r| ==> IsSpace(s[k])
    ensures StartsWithPhrase(s, phrase) ==> r == [] || !IsSpace(r[0])
    ensures !StartsWithPhrase(s, phrase) ==> r == s
  {
    if StartsWithPhrase(s, phrase) then s[RunEnd(s, |phrase|, IsSpace)..] else s
  }

  /** `[-:.]`: a separator between a leading code and the name. */
  predicate IsSeparator(c: char) { c == '-' || c == ':' || c == '.' }

  /** s[d..e] is something `\s*[-:.]?\s*` can span: whitespace and at most one separator. */
  predicate SeparatorGap(s: string, d: nat, e: nat)
    requires d <= e <= |s|
  {
    (forall k :: d <= k < e ==> IsSpace(s[k]) || IsSeparator(s[k]))
    && forall p, q :: d <= p < q < e ==> !(IsSeparator(s[p]) && IsSeparator(s[q]))
  }

  /** The leading-code expression `^[A-Z]{4}\d{4}(?:\.\d+)?\s*[-:.]?\s*` (flag `i`)
      matches s[..e]: a code, the greedy dotted suffix, then a separator gap that
      stops only before a character it could not take (no whitespace, and no
      separator unless it already holds one). */
  predicate LeadingCodeMatch(s: string, e: nat) {
    LetterCodeAt(s, 0) && DotDigitsEnd(s, 8) <= e <= |s|
    && SeparatorGap(s, DotDigitsEnd(s, 8), e)
    && (e == |s| || !IsSpace(s[e]))
    && (e < |s| && IsSeparator(s[e]) ==> exists k :: DotDigitsEnd(s, 8) <= k < e && IsSeparator(s[k]))
  }

  /** At most one end satisfies `LeadingCodeMatch`. */
  lemma LeadingCodeMatchUnique(s: string, e1: nat, e2: nat)
    requires LeadingCodeMatch(s, e1) && LeadingCodeMatch(s, e2)
    ensures e1 == e2
  {
  }

  /** Length of the match of the leading-code expression, 0 when it does not
      match. Every part after the code is optional, so the engine's first,
      all-greedy attempt is the match. */
  function LeadingCodeEnd(s: string): (e: nat)
    ensures e <= |s|
    ensures e == 0 <==> !LetterCodeAt(s, 0)
    ensures e > 0 ==> LeadingCodeMatch(s, e)
  {
    if !LetterCodeAt(s, 0) then 0
    else
      var e1 := DotDigitsEnd(s, 8);
      var e2 := RunEnd(s, e1, IsSpace);
      var e3 := if e2 < |s| && IsSeparator(s[e2]) then e2 + 1 else e2;
      var e := RunEnd(s, e3, IsSpace);
      assert forall k :: e1 <= k < e && k != e2 ==> IsSpace(s[k]) && !IsSeparator(s[k]);
      assert e < |s| && IsSeparator(s[e]) ==> e3 == e2 + 1;
      e
  }

  /** `s.replace(/^[A-Z]{4}\d{4}(?:\.\d+)?\s*[-:.]?\s*\/i, '')`. */
  function StripLeadingCode(s: string): (r: string)
    ensures LetterCodeAt(s, 0) ==> |r| <= |s| - 8 && r == s[|s| - |r|..] && LeadingCodeMatch(s, |s| - |r|)
    ensures !LetterCodeAt(s, 0) ==> r == s
  {
    s[LeadingCodeEnd(s)..]
  }

  /** The global replacement of `\b[A-Z]{4}\d{4}(?:\.\d+)?\b` by '' on s[i..]:
      the scan resumes after each match, and `\b` looks at the original text. */
  function RemoveCodesFrom(s: string, i: nat): (r: string)
    requires i <= |s|
    ensures |r| <= |s| - i
    ensures (forall j :: i <= j < |s| ==> !CodeTokenAt(s, j)) ==> r == s[i..]
    decreases |s| - i
  {
    if i == |s| then []
    else match BoundedCodeMatchAt(s, i)
      case Some(e) => RemoveCodesFrom(s, e)
      case None => [s[i]] + RemoveCodesFrom(s, i + 1)
  }

  /** Position k of s lies inside a match of the bounded code expression. */
  predicate InCodeMatch(s: string, k: nat) {
    exists i :: 0 <= i <= k && CodeTokenAt(s, i) && k < BoundedCodeMatchAt(s, i).value
  }

  /** Reference definition of the removal on s[i..]: every character that lies
      in no match is kept, in order. */
  function KeepOutsideFrom(s: string, i: nat): string
    requires i <= |s|
    decreases |s| - i
  {
    if i == |s| then [] else (if InCodeMatch(s, i) then [] else [s[i]]) + KeepOutsideFrom(s, i + 1)
  }

  function KeepOutside(s: string): string {
    KeepOutsideFrom(s, 0)
  }

  /** Every match that starts before i ends by i. */
  predicate MatchesEndBy(s: string, i: nat) {
    forall j :: 0 <= j < i && CodeTokenAt(s, j) ==> BoundedCodeMatchAt(s, j).value <= i
  }

  /** The left-to-right scan of the global removal keeps exactly the
      characters outside the matches. */
  lemma {:induction false} RemoveCodesFromIsKeepOutside(s: string, i: nat)
    requires i <= |s| && MatchesEndBy(s, i)
    ensures RemoveCodesFrom(s, i) == KeepOutsideFrom(s, i)
    decreases |s| - i
  {
    if i < |s| {
      match BoundedCodeMatchAt(s, i)
      case Some(e) =>
        DropMatch(s, i, i);
        NoTokenInsideMatch(s, i);
        assert MatchesEndBy(s, e);
        RemoveCodesFromIsKeepOutside(s, e);
      case None =>
        assert !InCodeMatch(s, i);
        RemoveCodesFromIsKeepOutside(s, i + 1);
    }
  }

  /** The characters of a match are all dropped. */
  lemma {:induction false} DropMatch(s: string, m: nat, a: nat)
    requires CodeTokenAt(s, m) && m <= a <= BoundedCodeMatchAt(s, m).value
    ensures KeepOutsideFrom(s, a) == KeepOutsideFrom(s, BoundedCodeMatchAt(s, m).value)
    decreases BoundedCodeMatchAt(s, m).value - a
  {
    var e := BoundedCodeMatchAt(s, m).value;
    if a < e {
      assert 0 <= m <= a && CodeTokenAt(s, m) && a < BoundedCodeMatchAt(s, m).value;
      assert InCodeMatch(s, a);
      assert KeepOutsideFrom(s, a) == KeepOutsideFrom(s, a + 1);
      DropMatch(s, m, a + 1);
    }
  }

  /** No code token starts inside a match. */
  lemma NoTokenInsideMatch(s: string, i: nat)
    requires CodeTokenAt(s, i)
    ensures forall k :: i < k < BoundedCodeMatchAt(s, i).value ==> !CodeTokenAt(s, k)
  {
    NoCodeInsideMatch(s, i);
  }

  /** `s.replace(/\b[A-Z]{4}\d{4}(?:\.\d+)?\b/g, '')`: the text outside the
      matches, in order, and no course code is left. */
  function RemoveCodes(s: string): (r: string)
    ensures r == KeepOutside(s)
    ensures |r| <= |s|
    ensures (exists i :: 0 <= i < |s| && CodeTokenAt(s, i)) <==> r != s
    ensures forall k :: 0 <= k < |r| ==> !CodeTokenAt(r, k)
  {
    RemoveCodesChanges(s, 0);
    RemoveCodesLeavesNoCode(s, 0);
    RemoveCodesFromIsKeepOutside(s, 0);
    RemoveCodesFrom(s, 0)
  }

  /** s holds no word-bounded code. */
  predicate NoCodeToken(s: string) {
    forall k :: 0 <= k < |s| ==> !CodeTokenAt(s, k)
  }

  /** Position i of s is not inside a word: a side of it is not a word character. */
  predicate AtWordEdge(s: string, i: nat)
    requires i <= |s|
  {
    i == 0 || i == |s| || !IsWordChar(s[i - 1]) || !IsWordChar(s[i])
  }

  /** A removal that starts at a word edge leaves no code: each removed match
      has a non-word character (or an end) on both sides, so the pieces that
      are kept never join into a new code, and a kept word is never a code. */
  lemma {:induction false} RemoveCodesLeavesNoCode(s: string, i: nat)
    requires i <= |s| && AtWordEdge(s, i)
    ensures NoCodeToken(RemoveCodesFrom(s, i))
    decreases |s| - i
  {
    if i < |s| {
      match BoundedCodeMatchAt(s, i)
      case Some(e) =>
        MatchEndsAtWordEdge(s, i);
        RemoveCodesLeavesNoCode(s, e);
      case None =>
        if !IsWordChar(s[i]) {
          KeepChar(s, i);
          RemoveCodesLeavesNoCode(s, i + 1);
          NoCodeAfterNonWord(s[i], RemoveCodesFrom(s, i + 1));
        } else {
          var w := RunEnd(s, i, IsWordChar);
          KeepWordRun(s, i);
          KeptWordIsNoCode(s, i);
          RemoveCodesLeavesNoCode(s, w);
          NoCodeAfterWordRun(s[i..w], RemoveCodesFrom(s, w));
        }
    }
  }

  /** A match is dropped whole, and it ends at a word edge. */
  lemma MatchEndsAtWordEdge(s: string, i: nat)
    requires i < |s| && BoundedCodeMatchAt(s, i).Some?
    ensures var e := BoundedCodeMatchAt(s, i).value;
            i < e <= |s| && AtWordEdge(s, e) && RemoveCodesFrom(s, i) == RemoveCodesFrom(s, e)
  {
    var e := BoundedCodeMatchAt(s, i).value;
    assert IsWordChar(s[e - 1]) by {
      if e > i + 8 { assert i + 8 < e - 1; } else { assert IsDigit(s[i + 7]); }
    }
  }

  /** A word kept at a word edge is not itself a code, ends at a word edge, and
      what follows it in the result does not start with a word character. */
  lemma KeptWordIsNoCode(s: string, i: nat)
    requires i < |s| && AtWordEdge(s, i) && IsWordChar(s[i]) && BoundedCodeMatchAt(s, i).None?
    ensures var w := RunEnd(s, i, IsWordChar);
            var t := RemoveCodesFrom(s, w);
            var run := s[i..w];
            AtWordEdge(s, w) && run != [] && (forall k :: 0 <= k < |run| ==> IsWordChar(run[k]))
            && !(|run| == 8 && UpperCodeAt(run, 0)) && (t == [] || !IsWordChar(t[0]))
  {
    var w := RunEnd(s, i, IsWordChar);
    assert forall k :: 0 <= k < w - i ==> s[i..w][k] == s[i + k];
    if w < |s| {
      assert BoundedCodeMatchAt(s, w).None? by { assert !IsUpper(s[w]); }
      KeepChar(s, w);
    }
  }

  /** Inside a word no code can start, so a word that does not start with a
      match is kept whole. */
  lemma {:induction false} KeepWordRun(s: string, i: nat)
    requires i < |s| && IsWordChar(s[i]) && BoundedCodeMatchAt(s, i).None?
    ensures RemoveCodesFrom(s, i) == s[i..RunEnd(s, i, IsWordChar)] + RemoveCodesFrom(s, RunEnd(s, i, IsWordChar))
    decreases |s| - i
  {
    var w := RunEnd(s, i, IsWordChar);
    KeepChar(s, i);
    if i + 1 < w {
      NoCodeInsideWord(s, i + 1);
      KeepWordRun(s, i + 1);
    }
    ConsSlice(s, i, w, RemoveCodesFrom(s, w));
  }

  lemma ConsSlice(s: string, i: nat, w: nat, t: string)
    requires i < w <= |s|
    ensures [s[i]] + (s[i + 1..w] + t) == s[i..w] + t
  {
    assert s[i..w] == [s[i]] + s[i + 1..w];
  }

  /** A character where no match starts is kept, and a word goes on past it. */
  lemma KeepChar(s: string, i: nat)
    requires i < |s| && BoundedCodeMatchAt(s, i).None?
    ensures RemoveCodesFrom(s, i) == [s[i]] + RemoveCodesFrom(s, i + 1)
    ensures IsWordChar(s[i]) ==> RunEnd(s, i + 1, IsWordChar) == RunEnd(s, i, IsWordChar)
  {
  }

  /** No match starts between two word characters. */
  lemma NoCodeInsideWord(s: string, i: nat)
    requires 0 < i < |s| && IsWordChar(s[i - 1]) && IsWordChar(s[i])
    ensures BoundedCodeMatchAt(s, i).None?
  {
    assert !IsWordBoundary(s, i);
  }

  /** Whether a code token starts at k depends only on the text from m on,
      unless k == m and the character before m is a word character. */
  lemma CodeTokenInSuffix(r: string, m: nat, k: nat)
    requires m <= k <= |r|
    requires k > m || m == 0 || !IsWordChar(r[m - 1])
    ensures CodeTokenAt(r, k) == CodeTokenAt(r[m..], k - m)
  {
    var t := r[m..];
    assert forall j :: k <= j < |r| ==> r[j] == t[j - m];
    assert k > m ==> r[k - 1] == t[k - m - 1];
    assert IsWordBoundary(r, k) == IsWordBoundary(t, k - m);
  }

  /** A non-word character in front of a text without codes adds none. */
  lemma NoCodeAfterNonWord(c: char, t: string)
    requires !IsWordChar(c) && NoCodeToken(t)
    ensures NoCodeToken([c] + t)
  {
    var r := [c] + t;
    assert r[1..] == t;
    forall k | 0 <= k < |r| ensures !CodeTokenAt(r, k) {
      if k >= 1 {
        CodeTokenInSuffix(r, 1, k);
      }
    }
  }

  /** A word that is not itself a code, in front of a text without codes that
      starts with a non-word character, adds none. */
  lemma NoCodeAfterWordRun(run: string, t: string)
    requires run != [] && forall k :: 0 <= k < |run| ==> IsWordChar(run[k])
    requires !(|run| == 8 && UpperCodeAt(run, 0))
    requires t == [] || !IsWordChar(t[0])
    requires NoCodeToken(t)
    ensures NoCodeToken(run + t)
  {
    var r := run + t;
    assert r[|run|..] == t;
    forall k | 0 <= k < |r| ensures !CodeTokenAt(r, k) {
      if k > |run| {
        CodeTokenInSuffix(r, |run|, k);
      } else if k == |run| {
        assert r[k] == t[0];
      } else if k > 0 {
        assert r[k - 1] == run[k - 1] && r[k] == run[k];
      } else if |run| < 8 {
        assert |r| > |run| ==> r[|run|] == t[0];
      } else if |run| == 8 {
        assert forall j :: 0 <= j < 8 ==> r[j] == run[j];
      } else {
        assert r[8] == run[8];
      }
    }
  }

  /** Removing codes from s[i..] changes it exactly when a code token starts there. */
  lemma {:induction false} RemoveCodesChanges(s: string, i: nat)
    requires i <= |s|
    ensures (exists j :: i <= j < |s| && CodeTokenAt(s, j)) <==> RemoveCodesFrom(s, i) != s[i..]
    decreases |s| - i
  {
    if i < |s| {
      RemoveCodesChanges(s, i + 1);
      if CodeTokenAt(s, i) {
        var e := BoundedCodeMatchAt(s, i).value;
        assert |RemoveCodesFrom(s, i)| <= |s| - e < |s[i..]|;
      } else {
        assert s[i..] == [s[i]] + s[i + 1..];
        if exists j :: i <= j < |s| && CodeTokenAt(s, j) {
          var j :| i <= j < |s| && CodeTokenAt(s, j);
          assert i + 1 <= j;
        }
      }
    }
  }

  /** `\s+\d+$` tried at i. Greedy `\s+` is exact here: whatever it gave back
      would have to be a digit. */
  predicate TrailingNumberAt(s: string, i: nat) {
    i < |s| && IsSpace(s[i])
    && var j := RunEnd(s, i, IsSpace);
       j < |s| && RunEnd(s, j, IsDigit) == |s|
  }

  /** `s.replace(/\s+\d+$/, '')`: cut at the leftmost position where it matches. */
  function StripTrailingNumber(s: string): (r: string)
    ensures |r| <= |s| && r == s[..|r|]
    ensures r != s ==> TrailingNumberAt(s, |r|) && forall j: nat :: j < |r| ==> !TrailingNumberAt(s, j)
    ensures r == s ==> forall j: nat :: j <= |s| ==> !TrailingNumberAt(s, j)
  {
    var matchAt := (i: nat) => TrailingNumberAt(s, i);
    assert forall i: nat :: matchAt(i) == TrailingNumberAt(s, i);
    match Search(|s|, 0, matchAt)
    case None => s
    case Some(i) => s[..i]
  }

  /** `\s*[-:]\s*$` tried at i. */
  predicate DanglingSeparatorAt(s: string, i: nat) {
    i <= |s|
    && var j := RunEnd(s, i, IsSpace);
       j < |s| && (s[j] == '-' || s[j] == ':') && RunEnd(s, j + 1, IsSpace) == |s|
  }

  /** `s.replace(/\s*[-:]\s*$/, '')`. */
  function StripDanglingSeparator(s: string): (r: string)
    ensures |r| <= |s| && r == s[..|r|]
    ensures r != s ==> DanglingSeparatorAt(s, |r|) && forall j: nat :: j < |r| ==> !DanglingSeparatorAt(s, j)
    ensures r == s ==> forall j: nat :: j <= |s| ==> !DanglingSeparatorAt(s, j)
  {
    var matchAt := (i: nat) => DanglingSeparatorAt(s, i);
    assert forall i: nat :: matchAt(i) == DanglingSeparatorAt(s, i);
    match Search(|s|, 0, matchAt)
    case None => s
    case Some(i) => s[..i]
  }

  /** The global replacement of `\s+` by ' ' on s[i..]. */
  function CollapseSpacesFrom(s: string, i: nat): (r: string)
    requires i <= |s|
    ensures |r| <= |s| - i
    ensures NoDoubleSpace(r)
    ensures forall k :: 0 <= k < |r| && IsSpace(r[k]) ==> r[k] == ' '
    ensures i < |s| ==> r != []
    ensures i < |s| && !IsSpace(s[i]) ==> r[0] == s[i]
    ensures i < |s| && IsSpace(s[i]) ==> r[0] == ' '
    ensures NonSpace(r) == NonSpace(s[i..])
    decreases |s| - i
  {
    if i == |s| then []
    else if IsSpace(s[i]) then
      var e := RunEnd(s, i, IsSpace);
      var t := CollapseSpacesFrom(s, e);
      assert ([' '] + t)[1..] == t;
      assert NonSpace(s[i..]) == NonSpace(s[e..]) by {
        assert s[i..] == s[i..e] + s[e..];
        NonSpaceAppend(s[i..e], s[e..]);
        NonSpaceOfSpaces(s[i..e]);
      }
      [' '] + t
    else
      var t := CollapseSpacesFrom(s, i + 1);
      assert ([s[i]] + t)[1..] == t && s[i..][1..] == s[i + 1..];
      [s[i]] + t
  }

  /** What the collapse emits for position k of s: a non-whitespace character
      is kept, the first whitespace of a run becomes ' ', the rest of the run
      is dropped. */
  function CollapsedAt(s: string, k: nat): string
    requires k < |s|
  {
    if !IsSpace(s[k]) then [s[k]]
    else if k > 0 && IsSpace(s[k - 1]) then []
    else [' ']
  }

  /** Reference definition of the collapse of s[i..], character by character. */
  function CollapseRefFrom(s: string, i: nat): string
    requires i <= |s|
    decreases |s| - i
  {
    if i == |s| then [] else CollapsedAt(s, i) + CollapseRefFrom(s, i + 1)
  }

  function CollapseRef(s: string): string {
    CollapseRefFrom(s, 0)
  }

  /** The run-by-run collapse agrees with the character-by-character one from
      any position that does not lie inside a whitespace run. */
  lemma {:induction false} CollapseSpacesFromIsRef(s: string, i: nat)
    requires i <= |s|
    requires i == 0 || i == |s| || !IsSpace(s[i - 1]) || !IsSpace(s[i])
    ensures CollapseSpacesFrom(s, i) == CollapseRefFrom(s, i)
    decreases |s| - i
  {
    if i < |s| {
      if IsSpace(s[i]) {
        var e := RunEnd(s, i, IsSpace);
        SkipSpaceRun(s, i + 1, e);
        CollapseSpacesFromIsRef(s, e);
      } else {
        CollapseSpacesFromIsRef(s, i + 1);
      }
    }
  }

  /** Inside a whitespace run the reference emits nothing. */
  lemma {:induction false} SkipSpaceRun(s: string, a: nat, e: nat)
    requires 0 < a <= e <= |s|
    requires forall k :: a - 1 <= k < e ==> IsSpace(s[k])
    ensures CollapseRefFrom(s, a) == CollapseRefFrom(s, e)
    decreases e - a
  {
    if a < e {
      assert CollapsedAt(s, a) == [];
      SkipSpaceRun(s, a + 1, e);
    }
  }

  /** `s.replace(/\s+/g, ' ')`: each whitespace run replaced in place by one ' ',
      so the same non-whitespace characters in the same order, every whitespace
      a lone ' '. */
  function CollapseSpaces(s: string): (r: string)
    ensures r == CollapseRef(s)
    ensures |r| <= |s|
    ensures NonSpace(r) == NonSpace(s)
    ensures NoDoubleSpace(r)
    ensures forall k :: 0 <= k < |r| && IsSpace(r[k]) ==> r[k] == ' '
    ensures r == [] <==> s == []
  {
    assert s[0..] == s;
    CollapseSpacesFromIsRef(s, 0);
    CollapseSpacesFrom(s, 0)
  }

  /** `cleanCourseName`: seven replacements in a fixed order, each followed by `trim()`. */
  function CleanCourseName(text: string): (r: string)
    ensures |r| <= |text|
    ensures NoOuterSpace(r)
    ensures NoDoubleSpace(r)
    ensures forall k :: 0 <= k < |r| && IsSpace(r[k]) ==> r[k] == ' '
  {
    var s1 := Trim(StripLeadingPhrase(text, StarredPhrase));
    assert |s1| <= |text|;
    var s2 := Trim(StripLeadingPhrase(s1, CourseNamePhrase));
    assert |s2| <= |s1|;
    var s3 := Trim(StripLeadingCode(s2));
    assert |s3| <= |s2|;
    var s4 := Trim(RemoveCodes(s3));
    var s5 := Trim(StripTrailingNumber(s4));
    var s6 := Trim(StripDanglingSeparator(s5));
    TrimCollapsed(s6)
  }

  /** The last line of `cleanCourseName`: `s.replace(/\s+/g, ' ').trim()`. */
  function TrimCollapsed(s: string): (r: string)
    ensures r == Trim(CollapseRef(s))
    ensures |r| <= |s|
    ensures NonSpace(r) == NonSpace(s)
    ensures NoOuterSpace(r)
    ensures NoDoubleSpace(r)
    ensures forall k :: 0 <= k < |r| && IsSpace(r[k]) ==> r[k] == ' '
  {
    var c := CollapseSpaces(s);
    TrimKeepsChars(c);
    Trim(c)
  }

  /** Every character `trim()` keeps is one of its input's. */
  lemma TrimKeepsChars(s: string)
    ensures forall k :: 0 <= k < |Trim(s)| ==> Trim(s)[k] in s
  {
    var r := Trim(s);
    var a := RunEnd(s, 0, IsSpace);
    forall k | 0 <= k < |r| ensures r[k] in s {
      assert r[k] == s[a..a + |r|][k] == s[a + k];
    }
  }

  /** Collapsing whitespace leaves s[i..] alone when every whitespace of s is a
      lone ' '. */
  lemma {:induction false} CollapseSpacesFromFixed(s: string, i: nat)
    requires i <= |s|
    requires NoDoubleSpace(s)
    requires forall k :: 0 <= k < |s| && IsSpace(s[k]) ==> s[k] == ' '
    ensures CollapseSpacesFrom(s, i) == s[i..]
    decreases |s| - i
  {
    if i < |s| {
      assert s[i..] == [s[i]] + s[i + 1..];
      if IsSpace(s[i]) {
        assert i + 1 < |s| ==> !IsSpace(s[i + 1]);
        assert RunEnd(s, i, IsSpace) == RunEnd(s, i + 1, IsSpace) == i + 1;
        CollapseSpacesFromFixed(s, i + 1);
      } else {
        CollapseSpacesFromFixed(s, i + 1);
      }
    }
  }

  /** A name is clean when none of the rewrites of `cleanCourseName` applies to it:
      it has no outer or repeated whitespace and only ' ' as whitespace, no
      leading phrase, no course code, and it ends neither in a digit nor in a
      separator. */
  predicate IsCleanName(s: string) {
    NoOuterSpace(s) && NoDoubleSpace(s)
    && (forall k :: 0 <= k < |s| && IsSpace(s[k]) ==> s[k] == ' ')
    && !StartsWithPhrase(s, StarredPhrase) && !StartsWithPhrase(s, CourseNamePhrase)
    && !LetterCodeAt(s, 0)
    && (forall i :: 0 <= i < |s| ==> !CodeTokenAt(s, i))
    && (s == [] || (!IsDigit(s[|s| - 1]) && s[|s| - 1] != '-' && s[|s| - 1] != ':'))
  }

  /** A string that does not end in a digit has no trailing number to strip. */
  lemma StripTrailingNumberFixed(s: string)
    requires s == [] || !IsDigit(s[|s| - 1])
    ensures StripTrailingNumber(s) == s
  {
    assert forall j: nat :: j <= |s| ==> !TrailingNumberAt(s, j);
  }

  /** A string that ends in neither whitespace, '-' nor ':' has no dangling
      separator to strip. */
  lemma StripDanglingSeparatorFixed(s: string)
    requires s == [] || (!IsSpace(s[|s| - 1]) && s[|s| - 1] != '-' && s[|s| - 1] != ':')
    ensures StripDanglingSeparator(s) == s
  {
    assert forall j: nat :: j <= |s| ==> !DanglingSeparatorAt(s, j);
  }

  /** `cleanCourseName` returns a clean name unchanged. */
  lemma CleanCourseNameKeepsCleanName(s: string)
    requires IsCleanName(s)
    ensures CleanCourseName(s) == s
  {
    assert Trim(s) == s;
    assert StripLeadingPhrase(s, StarredPhrase) == s;
    assert StripLeadingPhrase(s, CourseNamePhrase) == s;
    assert StripLeadingCode(s) == s;
    assert RemoveCodes(s) == s;
    StripTrailingNumberFixed(s);
    StripDanglingSeparatorFixed(s);
    CollapseSpacesFromFixed(s, 0);
    assert CollapseSpaces(s) == s;
  }

  // ---------------------------------------------------------------------------
  // extractCourseId

  /** Where `[?&]id=(\d+)` can match: `?id=` or `&id=` followed by a digit. */
  predicate IdParamAt(url: string, i: nat) {
    i + 5 <= |url| && (url[i] == '?' || url[i] == '&')
    && url[i + 1] == 'i' && url[i + 2] == 'd' && url[i + 3] == '=' && IsDigit(url[i + 4])
  }

  /** i is the first position where `[?&]id=(\d+)` can match. */
  predicate FirstIdParamAt(url: string, i: nat) {
    IdParamAt(url, i) && forall j: nat :: j < i ==> !IdParamAt(url, j)
  }

  /** r is the whole digit run that starts right after the `?id=` or `&id=` at i. */
  predicate IdDigitsAt(url: string, i: nat, r: string) {
    0 < |r| && i + 4 + |r| <= |url| && r == url[i + 4..i + 4 + |r|]
    && (forall k :: 0 <= k < |r| ==> IsDigit(r[k]))
    && (i + 4 + |r| == |url| || !IsDigit(url[i + 4 + |r|]))
  }

  /** `extractCourseId`: the digits captured by the first match of `[?&]id=(\d+)`,
      else `url.substring(url.length - 10)`, i.e. the last min(10, |url|) characters. */
  function ExtractCourseId(url: string): (r: string)
    ensures (forall i: nat :: !IdParamAt(url, i)) ==>
              |r| == (if |url| < 10 then |url| else 10) && r == url[|url| - |r|..]
    ensures (exists i: nat :: IdParamAt(url, i)) ==>
              exists i: nat :: FirstIdParamAt(url, i) && IdDigitsAt(url, i, r)
  {
    var matchAt := (i: nat) => IdParamAt(url, i);
    assert forall i: nat :: matchAt(i) == IdParamAt(url, i);
    match Search(|url|, 0, matchAt)
    case Some(i) =>
      var r := url[i + 4..RunEnd(url, i + 4, IsDigit)];
      assert FirstIdParamAt(url, i) && IdDigitsAt(url, i, r);
      r
    case None =>
      assert forall i: nat :: !IdParamAt(url, i) by {
        forall i: nat ensures !IdParamAt(url, i) {
          if i <= |url| { assert !matchAt(i); }
        }
      }
      url[|url| - (if |url| < 10 then |url| else 10)..]
  }
}
