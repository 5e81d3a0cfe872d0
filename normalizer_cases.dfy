/** What `cleanCourseName` and `extractCourseCode` do to the kinds of input the
    comments of content.js illustrate, proved for every input of each kind and
    then instantiated with the comments' own examples. */
module NormalizerCases {
  import opened Text
  import opened Normalizer

  /** A name made of letters and single spaces, with no space at either end. */
  predicate IsPlainName(u: string) {
    u != [] && NoOuterSpace(u) && NoDoubleSpace(u)
    && forall k :: 0 <= k < |u| ==> IsLetter(u[k]) || u[k] == ' '
  }

  /** A text of letters and ' ' is a plain name when it neither starts nor ends
      with ' ' and never has two ' ' in a row. */
  lemma PlainNameFromChars(u: string)
    requires u != [] && u[0] != ' ' && u[|u| - 1] != ' '
    requires forall k :: 0 <= k < |u| ==> IsLetter(u[k]) || u[k] == ' '
    requires forall k :: 0 < k < |u| ==> u[k - 1] != ' ' || u[k] != ' '
    ensures IsPlainName(u)
  {
  }

  /** A non-empty run of digits. */
  predicate IsNumber(d: string) {
    d != [] && forall k :: 0 <= k < |d| ==> IsDigit(d[k])
  }

  /** A plain name that starts with neither phrase is clean. */
  lemma PlainNameIsClean(u: string)
    requires IsPlainName(u)
    requires !StartsWithPhrase(u, StarredPhrase) && !StartsWithPhrase(u, CourseNamePhrase)
    ensures IsCleanName(u)
  {
  }

  /** Both phrases start with 'c', so a text starting with another letter
      starts with neither of them. */
  lemma NoPhraseUnlessC(u: string)
    requires u != [] && u[0] != 'c' && u[0] != 'C'
    ensures !StartsWithPhrase(u, StarredPhrase) && !StartsWithPhrase(u, CourseNamePhrase)
  {
    if |u| >= 11 {
      assert ToLower(u[..11])[0] == ToLowerChar(u[0]) != 'c';
    }
    if |u| >= 17 {
      assert ToLower(u[..17])[0] == ToLowerChar(u[0]) != 'c';
    }
  }

  /** Rewrites 3 to 7 of `cleanCourseName` leave a clean name alone. */
  lemma LaterRewritesKeepCleanName(u: string)
    requires IsCleanName(u)
    ensures Trim(StripLeadingCode(u)) == u
    ensures TrimCollapsed(Trim(StripDanglingSeparator(Trim(StripTrailingNumber(Trim(RemoveCodes(u))))))) == u
  {
    assert Trim(u) == u;
    assert StripLeadingCode(u) == u;
    assert RemoveCodes(u) == u;
    StripTrailingNumberFixed(u);
    StripDanglingSeparatorFixed(u);
    CollapseSpacesFromFixed(u, 0);
    assert CollapseSpaces(u) == u;
  }

  /** "Akuntansi Biaya 213" → "Akuntansi Biaya": a plain name followed by a space
      and a number loses the number. */
  lemma CleanDropsTrailingNumber(u: string, d: string)
    requires IsPlainName(u) && IsNumber(d)
    requires !StartsWithPhrase(u + " " + d, StarredPhrase)
    requires !StartsWithPhrase(u + " " + d, CourseNamePhrase)
    ensures CleanCourseName(u + " " + d) == u
  {
    var t := u + " " + d;
    NameAndNumberHasNoCode(u, d);
    EarlyRewritesKeep(t);
    NameAndNumberStrip(u, d);
    PlainNameIsCleanTail(u);
  }

  /** The first four rewrites of `cleanCourseName` leave t alone when it has no
      outer whitespace and starts with neither phrase nor code and holds no code. */
  lemma EarlyRewritesKeep(t: string)
    requires NoOuterSpace(t)
    requires !StartsWithPhrase(t, StarredPhrase) && !StartsWithPhrase(t, CourseNamePhrase)
    requires !LetterCodeAt(t, 0)
    requires forall i :: 0 <= i < |t| ==> !CodeTokenAt(t, i)
    ensures CleanCourseName(t) == TrimCollapsed(Trim(StripDanglingSeparator(Trim(StripTrailingNumber(t)))))
  {
    assert Trim(StripLeadingPhrase(t, StarredPhrase)) == t;
    assert Trim(StripLeadingPhrase(t, CourseNamePhrase)) == t;
    assert Trim(StripLeadingCode(t)) == t;
    assert Trim(RemoveCodes(t)) == t;
  }

  /** A plain name, a space and a number hold no code and no outer space. */
  lemma NameAndNumberHasNoCode(u: string, d: string)
    requires IsPlainName(u) && IsNumber(d)
    ensures NoOuterSpace(u + " " + d)
    ensures !LetterCodeAt(u + " " + d, 0)
    ensures forall i :: 0 <= i < |u + " " + d| ==> !CodeTokenAt(u + " " + d, i)
  {
    var t := u + " " + d;
    assert t[|u|] == ' ';
    assert forall k :: 0 <= k < |u| ==> t[k] == u[k];
    assert forall k :: |u| < k < |t| ==> t[k] == d[k - |u| - 1];
    assert t[|t| - 1] == d[|d| - 1];
  }

  /** A plain name, a space and a number: the leftmost `\s+\d+$` is that space. */
  lemma NameAndNumberStrip(u: string, d: string)
    requires IsPlainName(u) && IsNumber(d)
    ensures StripTrailingNumber(u + " " + d) == u
  {
    var t := u + " " + d;
    assert t[|u|] == ' ';
    assert forall k :: 0 <= k < |u| ==> t[k] == u[k];
    assert forall k :: |u| < k < |t| ==> t[k] == d[k - |u| - 1];
    assert RunEnd(t, |u|, IsSpace) == RunEnd(t, |u| + 1, IsSpace) == |u| + 1;
    assert RunEnd(t, |u| + 1, IsDigit) == |t|;
    assert TrailingNumberAt(t, |u|);
    forall j: nat | j < |u| ensures !TrailingNumberAt(t, j) {
      if IsSpace(t[j]) {
        assert j + 1 < |u| && !IsSpace(u[j + 1]);
        assert RunEnd(t, j, IsSpace) == RunEnd(t, j + 1, IsSpace) == j + 1;
        assert RunEnd(t, j + 1, IsDigit) == j + 1;
      }
    }
    var r := StripTrailingNumber(t);
    assert |r| == |u|;
    assert t[..|u|] == u;
  }

  /** The tail of `cleanCourseName` after the trailing number is gone. */
  lemma PlainNameIsCleanTail(u: string)
    requires IsPlainName(u)
    ensures TrimCollapsed(Trim(StripDanglingSeparator(Trim(u)))) == u
  {
    assert Trim(u) == u;
    StripDanglingSeparatorFixed(u);
    CollapseSpacesFromFixed(u, 0);
    assert CollapseSpaces(u) == u;
  }

  /** "MKWN4108.1614 - Nama Matkul" → "Nama Matkul": a leading code of either
      case, with or without a dotted suffix, then a space, one of '-', ':', '.'
      and a space, is removed with its separator. */
  lemma CleanDropsLeadingCode(c: string, x: string, p: char, u: string)
    requires |c| == 8 && LetterCodeAt(c, 0)
    requires x == [] || (x[0] == '.' && IsNumber(x[1..]))
    requires p == '-' || p == ':' || p == '.'
    requires u != [] && IsCleanName(u)
    ensures CleanCourseName(c + x + [' ', p, ' '] + u) == u
  {
    var t := c + x + [' ', p, ' '] + u;
    LeadingCodeShape(c, x, p, u);
    assert Trim(StripLeadingPhrase(t, StarredPhrase)) == t;
    assert Trim(StripLeadingPhrase(t, CourseNamePhrase)) == t;
    LeadingCodeStrip(c, x, p, u);
    assert Trim(StripLeadingCode(t)) == u;
    LaterRewritesKeepCleanName(u);
  }

  /** A string that starts with a code has no outer space when it ends in a
      clean name, and starts with neither phrase. */
  lemma LeadingCodeShape(c: string, x: string, p: char, u: string)
    requires |c| == 8 && LetterCodeAt(c, 0)
    requires u != [] && IsCleanName(u)
    ensures NoOuterSpace(c + x + [' ', p, ' '] + u)
    ensures !StartsWithPhrase(c + x + [' ', p, ' '] + u, StarredPhrase)
    ensures !StartsWithPhrase(c + x + [' ', p, ' '] + u, CourseNamePhrase)
  {
    var t := c + x + [' ', p, ' '] + u;
    assert t[0] == c[0] && t[4] == c[4] && t[|t| - 1] == u[|u| - 1];
    if |t| >= 17 { assert ToLower(t[..17])[4] == t[4]; }
    assert ToLower(t[..11])[4] == t[4];
  }

  /** The match of the leading-code expression ends where the clean name starts. */
  lemma LeadingCodeStrip(c: string, x: string, p: char, u: string)
    requires |c| == 8 && LetterCodeAt(c, 0)
    requires x == [] || (x[0] == '.' && IsNumber(x[1..]))
    requires p == '-' || p == ':' || p == '.'
    requires u != [] && IsCleanName(u)
    ensures StripLeadingCode(c + x + [' ', p, ' '] + u) == u
  {
    var t := c + x + [' ', p, ' '] + u;
    var n := 8 + |x|;
    assert t == c + x + ([' ', p, ' '] + u);
    DotSuffixEnd(c, x, [' ', p, ' '] + u);
    assert t[n] == ' ' && t[n + 1] == p && t[n + 2] == ' ' && t[n + 3] == u[0];
    assert t[n + 3..] == u;
    assert LetterCodeAt(t, 0) by {
      assert forall k :: 0 <= k < 8 ==> t[k] == c[k];
    }
    SeparatorEnd(t, n);
  }

  /** The greedy `(?:\.\d+)?` after a code takes exactly the dotted suffix. */
  lemma DotSuffixEnd(c: string, x: string, rest: string)
    requires |c| == 8
    requires x == [] || (x[0] == '.' && IsNumber(x[1..]))
    requires rest != [] && !IsDigit(rest[0]) && rest[0] != '.'
    ensures DotDigitsEnd(c + x + rest, 8) == 8 + |x|
  {
    var t := c + x + rest;
    var n := 8 + |x|;
    assert t[n] == rest[0];
    if x != [] {
      assert t[8] == '.';
      forall k | 9 <= k < n ensures IsDigit(t[k]) {
        assert t[k] == x[1..][k - 9];
      }
      assert RunEnd(t, 9, IsDigit) == n;
    } else {
      assert t[8] == rest[0];
    }
  }

  /** `\s*[-:.]?\s*` at n over " - " (or ':' or '.') and a non-space: it ends
      after the second space. */
  lemma SeparatorEnd(t: string, n: nat)
    requires n + 3 < |t| && LetterCodeAt(t, 0) && DotDigitsEnd(t, 8) == n
    requires t[n] == ' ' && t[n + 2] == ' ' && !IsSpace(t[n + 3])
    requires t[n + 1] == '-' || t[n + 1] == ':' || t[n + 1] == '.'
    ensures LeadingCodeEnd(t) == n + 3
  {
    assert RunEnd(t, n, IsSpace) == RunEnd(t, n + 1, IsSpace) == n + 1;
    assert RunEnd(t, n + 2, IsSpace) == RunEnd(t, n + 3, IsSpace) == n + 3;
  }

  /** "MKWN4108 Name" → "Name": a leading code of either case, with or without
      a dotted suffix, then a space before a clean name that does not start
      with a separator, is removed with the space. */
  lemma CleanDropsBareLeadingCode(c: string, x: string, u: string)
    requires |c| == 8 && LetterCodeAt(c, 0)
    requires x == [] || (x[0] == '.' && IsNumber(x[1..]))
    requires u != [] && IsCleanName(u) && !IsSeparator(u[0])
    ensures CleanCourseName(c + x + " " + u) == u
  {
    var t := c + x + " " + u;
    BareLeadingCodeShape(c, x, u);
    assert Trim(StripLeadingPhrase(t, StarredPhrase)) == t;
    assert Trim(StripLeadingPhrase(t, CourseNamePhrase)) == t;
    BareLeadingCodeStrip(c, x, u);
    assert Trim(StripLeadingCode(t)) == u;
    LaterRewritesKeepCleanName(u);
  }

  /** A code, a suffix, a space and a clean name: no outer space, and neither
      phrase at the start. */
  lemma BareLeadingCodeShape(c: string, x: string, u: string)
    requires |c| == 8 && LetterCodeAt(c, 0)
    requires u != [] && IsCleanName(u)
    ensures NoOuterSpace(c + x + " " + u)
    ensures !StartsWithPhrase(c + x + " " + u, StarredPhrase)
    ensures !StartsWithPhrase(c + x + " " + u, CourseNamePhrase)
  {
    var t := c + x + " " + u;
    assert t[0] == c[0] && t[4] == c[4] && t[|t| - 1] == u[|u| - 1];
    if |t| >= 17 { assert ToLower(t[..17])[4] == t[4]; }
    if |t| >= 11 { assert ToLower(t[..11])[4] == t[4]; }
  }

  /** Without a separator, the leading-code match ends after the single space. */
  lemma BareLeadingCodeStrip(c: string, x: string, u: string)
    requires |c| == 8 && LetterCodeAt(c, 0)
    requires x == [] || (x[0] == '.' && IsNumber(x[1..]))
    requires u != [] && IsCleanName(u) && !IsSeparator(u[0])
    ensures StripLeadingCode(c + x + " " + u) == u
  {
    var t := c + x + " " + u;
    var n := 8 + |x|;
    assert t == c + x + (" " + u);
    DotSuffixEnd(c, x, " " + u);
    assert t[n] == ' ' && t[n + 1] == u[0];
    assert t[n + 1..] == u;
    assert LetterCodeAt(t, 0) by {
      assert forall k :: 0 <= k < 8 ==> t[k] == c[k];
    }
    SpaceEnd(t, n);
  }

  /** `\s*[-:.]?\s*` at n over one space and a character that is neither
      whitespace nor a separator: it ends after the space. */
  lemma SpaceEnd(t: string, n: nat)
    requires n + 1 < |t| && LetterCodeAt(t, 0) && DotDigitsEnd(t, 8) == n
    requires t[n] == ' ' && !IsSpace(t[n + 1]) && !IsSeparator(t[n + 1])
    ensures LeadingCodeEnd(t) == n + 1
  {
    assert RunEnd(t, n, IsSpace) == RunEnd(t, n + 1, IsSpace) == n + 1;
  }

  /** "Nama PDGK4101 Matkul" → "Nama Matkul": a code between two plain names is
      removed by the global code removal, and the two spaces it leaves collapse
      into one. */
  lemma CleanDropsMidCode(u: string, c: string, v: string)
    requires IsPlainName(u) && IsPlainName(v) && IsCourseCode(c)
    requires !StartsWithPhrase(u + " " + c + " " + v, StarredPhrase)
    requires !StartsWithPhrase(u + " " + c + " " + v, CourseNamePhrase)
    ensures CleanCourseName(u + " " + c + " " + v) == u + " " + v
  {
    var t := u + " " + c + " " + v;
    MidCodeShape(u, c, v);
    assert Trim(StripLeadingPhrase(t, StarredPhrase)) == t;
    assert Trim(StripLeadingPhrase(t, CourseNamePhrase)) == t;
    assert Trim(StripLeadingCode(t)) == t;
    MidCodeRemoved(u, c, v);
    MidGapTail(u, v);
  }

  /** A code between two plain names: no outer space, no code at the start,
      and the only digits are the code's. */
  lemma MidCodeShape(u: string, c: string, v: string)
    requires IsPlainName(u) && IsPlainName(v) && IsCourseCode(c)
    ensures var t := u + " " + c + " " + v;
            NoOuterSpace(t) && !LetterCodeAt(t, 0)
            && forall q :: 0 <= q < |t| && IsDigit(t[q]) ==> |u| + 5 <= q < |u| + 9
  {
    var t := u + " " + c + " " + v;
    var p := |u| + 1;
    assert forall q :: 0 <= q < |u| ==> t[q] == u[q];
    assert t[|u|] == ' ' && t[p + 8] == ' ';
    assert forall q :: p <= q < p + 8 ==> t[q] == c[q - p];
    assert forall q :: p + 8 < q < |t| ==> t[q] == v[q - p - 9];
    assert t[0] == u[0] && t[|t| - 1] == v[|v| - 1];
  }

  /** The global code removal drops exactly the code between the names. */
  lemma MidCodeRemoved(u: string, c: string, v: string)
    requires IsPlainName(u) && IsPlainName(v) && IsCourseCode(c)
    ensures RemoveCodes(u + " " + c + " " + v) == u + "  " + v
  {
    var t := u + " " + c + " " + v;
    var p := |u| + 1;
    MidCodeTokens(u, c, v);
    KeepNoToken(t, 0, p);
    assert RemoveCodesFrom(t, p) == RemoveCodesFrom(t, p + 8) == t[p + 8..];
  }

  /** The only code token of the label is the code, and its match is the code alone. */
  lemma MidCodeTokens(u: string, c: string, v: string)
    requires IsPlainName(u) && IsPlainName(v) && IsCourseCode(c)
    ensures var t := u + " " + c + " " + v;
            var p := |u| + 1;
            (forall k :: 0 <= k < |t| && k != p ==> !CodeTokenAt(t, k))
            && BoundedCodeMatchAt(t, p) == Some(p + 8)
            && t[..p] == u + " " && t[p + 8..] == " " + v
  {
    var t := u + " " + c + " " + v;
    var p := |u| + 1;
    MidCodeShape(u, c, v);
    forall k | 0 <= k < |t| && k != p ensures !UpperCodeAt(t, k) {
      if k + 8 <= |t| {
        if k < p { assert !IsDigit(t[k + 4]); } else { assert !IsDigit(t[k + 7]); }
      }
    }
    MidCodeAt(u, c, v);
  }

  /** The code sits between two spaces, so its match is the code alone. */
  lemma MidCodeAt(u: string, c: string, v: string)
    requires IsPlainName(u) && IsPlainName(v) && IsCourseCode(c)
    ensures var t := u + " " + c + " " + v;
            var p := |u| + 1;
            BoundedCodeMatchAt(t, p) == Some(p + 8) && t[..p] == u + " " && t[p + 8..] == " " + v
  {
    var t := u + " " + c + " " + v;
    var p := |u| + 1;
    assert t[p - 1] == ' ' && t[p + 8] == ' ';
    assert UpperCodeAt(t, p) by {
      assert forall q :: 0 <= q < 8 ==> t[p + q] == c[q];
    }
    assert CodeTokenAt(t, p);
    assert DotDigitsEnd(t, p + 8) == p + 8;
    assert t[..p] == u + " " && t[p + 8..] == " " + v;
  }

  /** The removal copies a stretch of text in which no code token starts. */
  lemma {:induction false} KeepNoToken(s: string, i: nat, j: nat)
    requires i <= j <= |s|
    requires forall k :: i <= k < j ==> !CodeTokenAt(s, k)
    ensures RemoveCodesFrom(s, i) == s[i..j] + RemoveCodesFrom(s, j)
    decreases j - i
  {
    if i < j {
      KeepChar(s, i);
      KeepNoToken(s, i + 1, j);
      ConsSlice(s, i, j, RemoveCodesFrom(s, j));
    }
  }

  /** Two plain names with two spaces between them: the last three rewrites
      collapse the gap to one space. */
  lemma MidGapTail(u: string, v: string)
    requires IsPlainName(u) && IsPlainName(v)
    ensures TrimCollapsed(Trim(StripDanglingSeparator(Trim(StripTrailingNumber(Trim(u + "  " + v)))))) == u + " " + v
  {
    var w := u + "  " + v;
    assert w[0] == u[0] && w[|w| - 1] == v[|v| - 1];
    assert Trim(w) == w;
    StripTrailingNumberFixed(w);
    StripDanglingSeparatorFixed(w);
    GapCollapse(u, v);
    JoinedNamesTrimmed(u, v);
  }

  /** Collapsing the two spaces between two plain names leaves one. */
  lemma GapCollapse(u: string, v: string)
    requires IsPlainName(u) && IsPlainName(v)
    ensures CollapseRef(u + "  " + v) == u + " " + v
  {
    var w := u + "  " + v;
    var n := |u|;
    GapParts(u, v);
    GapKeepsLeft(u, v);
    GapKeepsRight(u, v);
    KeepCollapsed(w, 0, n + 1);
    KeepCollapsed(w, n + 2, |w|);
    assert CollapseRefFrom(w, n + 1) == CollapseRefFrom(w, n + 2);
    assert CollapseRefFrom(w, |w|) == [];
    assert w[n + 2..|w|] == w[n + 2..];
  }

  lemma GapParts(u: string, v: string)
    requires IsPlainName(u) && IsPlainName(v)
    ensures var w := u + "  " + v;
            w[..|u| + 1] == u + " " && w[|u| + 2..] == v && w[|u|] == ' ' && w[|u| + 1] == ' '
            && CollapsedAt(w, |u| + 1) == []
  {
  }

  /** Left of the gap, and its first space, every character stands for itself. */
  lemma GapKeepsLeft(u: string, v: string)
    requires IsPlainName(u) && IsPlainName(v)
    ensures forall k :: 0 <= k < |u| + 1 ==> CollapsedAt(u + "  " + v, k) == [(u + "  " + v)[k]]
  {
    var w := u + "  " + v;
    assert forall k :: 0 <= k < |u| ==> w[k] == u[k];
    forall k | 0 <= k < |u| + 1 ensures CollapsedAt(w, k) == [w[k]] {
      if k > 0 && IsSpace(w[k]) {
        assert !IsSpace(w[k - 1]);
      }
    }
  }

  /** Right of the gap every character stands for itself. */
  lemma GapKeepsRight(u: string, v: string)
    requires IsPlainName(u) && IsPlainName(v)
    ensures forall k :: |u| + 2 <= k < |u + "  " + v| ==> CollapsedAt(u + "  " + v, k) == [(u + "  " + v)[k]]
  {
    var w := u + "  " + v;
    var n := |u|;
    assert forall k :: n + 2 <= k < |w| ==> w[k] == v[k - n - 2];
    forall k | n + 2 <= k < |w| ensures CollapsedAt(w, k) == [w[k]] {
      if IsSpace(w[k]) {
        assert k > n + 2 && !IsSpace(w[k - 1]);
      }
    }
  }

  /** Two plain names joined by one space have no outer space. */
  lemma JoinedNamesTrimmed(u: string, v: string)
    requires IsPlainName(u) && IsPlainName(v)
    ensures Trim(u + " " + v) == u + " " + v
  {
    assert (u + " " + v)[0] == u[0] && (u + " " + v)[|u + " " + v| - 1] == v[|v| - 1];
  }

  /** The reference collapse copies a stretch where every character stands for itself. */
  lemma {:induction false} KeepCollapsed(s: string, i: nat, j: nat)
    requires i <= j <= |s|
    requires forall k :: i <= k < j ==> CollapsedAt(s, k) == [s[k]]
    ensures CollapseRefFrom(s, i) == s[i..j] + CollapseRefFrom(s, j)
    decreases j - i
  {
    if i < j {
      assert CollapseRefFrom(s, i) == [s[i]] + CollapseRefFrom(s, i + 1);
      KeepCollapsed(s, i + 1, j);
      ConsSlice(s, i, j, CollapseRefFrom(s, j));
    }
  }

  /** "Course is starred Course name Akuntansi Biaya" → "Akuntansi Biaya": the two
      leading phrases, in any case, are removed. */
  lemma CleanDropsLeadingPhrases(p1: string, p2: string, u: string)
    requires ToLower(p1) == StarredPhrase && ToLower(p2) == CourseNamePhrase
    requires u != [] && IsCleanName(u)
    ensures CleanCourseName(p1 + " " + p2 + " " + u) == u
  {
    var s1 := p2 + " " + u;
    assert p1 + " " + p2 + " " + u == p1 + " " + s1;
    assert NoOuterSpace(s1) by {
      assert ToLowerChar(p2[0]) == 'c';
      assert s1[0] == p2[0] && s1[|s1| - 1] == u[|u| - 1];
    }
    PhraseStrip(p1, s1, StarredPhrase);
    PhraseStrip(p2, u, CourseNamePhrase);
    LaterRewritesKeepCleanName(u);
  }

  /** A phrase (in any case), a space and a rest that has no outer space: the
      phrase rewrite leaves the rest. */
  lemma PhraseStrip(p: string, rest: string, phrase: string)
    requires ToLower(p) == phrase && phrase != [] && phrase[0] == 'c'
    requires rest != [] && NoOuterSpace(rest)
    ensures Trim(StripLeadingPhrase(p + " " + rest, phrase)) == rest
  {
    var t := p + " " + rest;
    assert t[..|p|] == p && t[|p|] == ' ' && t[|p| + 1] == rest[0];
    assert t[|p| + 1..] == rest;
    assert StartsWithPhrase(t, phrase);
    assert RunEnd(t, |p|, IsSpace) == RunEnd(t, |p| + 1, IsSpace) == |p| + 1;
  }

  /** A URL whose only query parameter is `id`: the id is its value. */
  lemma IdOfViewUrl(b: string, d: string)
    requires forall k :: 0 <= k < |b| ==> b[k] != '?' && b[k] != '&'
    requires IsNumber(d)
    ensures ExtractCourseId(b + "?id=" + d) == d
  {
    var url := b + "?id=" + d;
    assert forall k :: 0 <= k < |b| ==> url[k] == b[k];
    assert forall k :: 0 <= k < |d| ==> url[|b| + 4 + k] == d[k];
    assert IdParamAt(url, |b|);
    var r := ExtractCourseId(url);
    var i: nat :| FirstIdParamAt(url, i) && IdDigitsAt(url, i, r);
    assert i == |b|;
    assert |b| + 4 + |r| == |url|;
    assert r == url[|b| + 4..] == d;
  }

  // ---------------------------------------------------------------------------
  // The examples of the comments

  /** "MKWN4108.1614" gives the base code "MKWN4108". */
  lemma DottedCodeGivesBaseCode()
    ensures ExtractCourseCode("MKWN4108.1614") == Some("MKWN4108")
  {
    var s := "MKWN4108.1614";
    assert UpperCodeAt(s, 0) && IsWordBoundary(s, 0) && CodeTokenAt(s, 0);
    var r := ExtractCourseCode(s);
    var i: nat :| CodeTokenAt(s, i) && r.value == s[i..i + 8]
                  && forall j: nat :: j < i ==> !CodeTokenAt(s, j);
    assert i == 0;
    assert s[0..8] == "MKWN4108";
  }

  /** Text without a code gives none. */
  lemma NoCodeGivesNone()
    ensures ExtractCourseCode("no code here") == None
  {
  }

  /** A code glued to a word is not a match: `\b` fails before it. */
  lemma GluedCodeIsNoCode()
    ensures ExtractCourseCode("xPDGK4101") == None
  {
  }

  lemma AkuntansiBiaya()
    ensures IsPlainName("Akuntansi Biaya") && IsCleanName("Akuntansi Biaya")
  {
    assert IsPlainName("Akuntansi Biaya");
    NoPhraseUnlessC("Akuntansi Biaya");
    PlainNameIsClean("Akuntansi Biaya");
  }

  lemma CleanExampleTrailingNumber()
    ensures CleanCourseName("Akuntansi Biaya 213") == "Akuntansi Biaya"
  {
    var t := "Akuntansi Biaya 213";
    AkuntansiBiaya();
    assert t == "Akuntansi Biaya" + " " + "213";
    assert !StartsWithPhrase(t, StarredPhrase) by { assert ToLower(t[..17])[1] == t[1]; }
    assert !StartsWithPhrase(t, CourseNamePhrase) by { assert ToLower(t[..11])[1] == t[1]; }
    CleanDropsTrailingNumber("Akuntansi Biaya", "213");
  }

  lemma BahasaIndonesia()
    ensures IsPlainName("Bahasa Indonesia") && IsCleanName("Bahasa Indonesia")
  {
    assert IsPlainName("Bahasa Indonesia");
    NoPhraseUnlessC("Bahasa Indonesia");
    PlainNameIsClean("Bahasa Indonesia");
  }

  lemma CleanExampleTrailingYear()
    ensures CleanCourseName("Bahasa Indonesia 1614") == "Bahasa Indonesia"
  {
    var t := "Bahasa Indonesia 1614";
    BahasaIndonesia();
    assert t == "Bahasa Indonesia" + " " + "1614";
    assert !StartsWithPhrase(t, StarredPhrase) by { assert ToLower(t[..17])[1] == t[1]; }
    assert !StartsWithPhrase(t, CourseNamePhrase) by { assert ToLower(t[..11])[1] == t[1]; }
    CleanDropsTrailingNumber("Bahasa Indonesia", "1614");
  }

  lemma NamaMatkul()
    ensures IsPlainName("Nama Matkul") && IsCleanName("Nama Matkul")
  {
    assert IsPlainName("Nama Matkul");
    NoPhraseUnlessC("Nama Matkul");
    PlainNameIsClean("Nama Matkul");
  }

  lemma DottedCodeParts()
    ensures LetterCodeAt("MKWN4108", 0)
    ensures ".1614"[0] == '.' && IsNumber(".1614"[1..])
  {
    assert ".1614"[1..] == "1614";
  }

  lemma CleanExampleLeadingCode()
    ensures CleanCourseName("MKWN4108.1614 - Nama Matkul") == "Nama Matkul"
  {
    NamaMatkul();
    DottedCodeParts();
    assert "MKWN4108.1614 - Nama Matkul" == "MKWN4108" + ".1614" + [' ', '-', ' '] + "Nama Matkul";
    CleanDropsLeadingCode("MKWN4108", ".1614", '-', "Nama Matkul");
  }

  lemma PlainName()
    ensures IsPlainName("Name") && IsCleanName("Name")
  {
    assert IsPlainName("Name");
    NoPhraseUnlessC("Name");
    PlainNameIsClean("Name");
  }

  lemma CleanExampleBareLeadingCode()
    ensures CleanCourseName("MKWN4108 Name") == "Name"
  {
    PlainName();
    assert LetterCodeAt("MKWN4108", 0) && !IsSeparator("Name"[0]);
    assert "MKWN4108 Name" == "MKWN4108" + [] + " " + "Name";
    CleanDropsBareLeadingCode("MKWN4108", [], "Name");
  }

  lemma MidCodeParts()
    ensures IsPlainName("Nama") && IsPlainName("Matkul") && IsCourseCode("PDGK4101")
    ensures "Nama" + " " + "Matkul" == "Nama Matkul"
  {
  }

  lemma MidCodeLabel()
    ensures "Nama PDGK4101 Matkul" == "Nama" + " " + "PDGK4101" + " " + "Matkul"
    ensures !StartsWithPhrase("Nama PDGK4101 Matkul", StarredPhrase)
    ensures !StartsWithPhrase("Nama PDGK4101 Matkul", CourseNamePhrase)
  {
    NoPhraseUnlessC("Nama PDGK4101 Matkul");
  }

  lemma CleanExampleMidCode()
    ensures CleanCourseName("Nama PDGK4101 Matkul") == "Nama Matkul"
  {
    MidCodeParts();
    MidCodeLabel();
    CleanDropsMidCode("Nama", "PDGK4101", "Matkul");
  }

  lemma PhrasesInTitleCase()
    ensures ToLower("Course is starred") == StarredPhrase
    ensures ToLower("Course name") == CourseNamePhrase
  {
  }

  lemma PhrasedLabelParts()
    ensures "Course is starred Course name Akuntansi Biaya"
            == "Course is starred" + " " + "Course name" + " " + "Akuntansi Biaya"
  {
  }

  lemma CleanExampleLeadingPhrases()
    ensures CleanCourseName("Course is starred Course name Akuntansi Biaya") == "Akuntansi Biaya"
  {
    AkuntansiBiaya();
    PhrasesInTitleCase();
    PhrasedLabelParts();
    CleanDropsLeadingPhrases("Course is starred", "Course name", "Akuntansi Biaya");
  }

  lemma CourseViewUrlId()
    ensures ExtractCourseId("https://elearning.ut.ac.id/course/view.php?id=12345") == "12345"
  {
    var b := "https://elearning.ut.ac.id/course/view.php";
    assert forall k :: 0 <= k < |b| ==> b[k] != '?' && b[k] != '&';
    assert "https://elearning.ut.ac.id/course/view.php?id=12345" == b + "?id=" + "12345";
    IdOfViewUrl(b, "12345");
  }
}
