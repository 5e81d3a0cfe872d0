/** Character classes and string helpers with the meaning JavaScript gives them
    in content.js: `\d`, `\w` (and so `\b`), `\s`, `String.prototype.trim`,
    `String.prototype.includes` and an ASCII `toLowerCase`. */
module Text {

  datatype Option<T> = None | Some(value: T)

  /** `\d`: an ASCII decimal digit. */
  predicate IsDigit(c: char) { '0' <= c <= '9' }

  /** `[A-Z]` without the `i` flag. */
  predicate IsUpper(c: char) { 'A' <= c <= 'Z' }

  /** `[A-Z]` under the `i` flag (non-unicode mode folds ASCII letters only). */
  predicate IsLetter(c: char) { 'A' <= c <= 'Z' || 'a' <= c <= 'z' }

  /** `\w`; `\b` is a change of this class between two neighbouring positions. */
  predicate IsWordChar(c: char) { IsLetter(c) || IsDigit(c) || c == '_' }

  /** `\s`, which is also the set of characters `trim()` removes:
      ECMAScript WhiteSpace and LineTerminator code points. */
  predicate IsSpace(c: char) {
    ('\U{0009}' <= c <= '\U{000D}') || c == ' ' || c == '\U{00A0}' || c == '\U{1680}'
    || ('\U{2000}' <= c <= '\U{200A}') || c == '\U{2028}' || c == '\U{2029}'
    || c == '\U{202F}' || c == '\U{205F}' || c == '\U{3000}' || c == '\U{FEFF}'
  }

  /** `\b` at position i of s (i == |s| is the end of input). */
  predicate IsWordBoundary(s: string, i: nat)
    requires i <= |s|
  {
    (i > 0 && IsWordChar(s[i - 1])) != (i < |s| && IsWordChar(s[i]))
  }

  /** s has no whitespace at either end: what `trim()` leaves. */
  predicate NoOuterSpace(s: string) {
    s == [] || (!IsSpace(s[0]) && !IsSpace(s[|s| - 1]))
  }

  /** No two neighbouring characters of s are both whitespace. */
  predicate NoDoubleSpace(s: string) {
    forall k :: 0 < k < |s| ==> !(IsSpace(s[k - 1]) && IsSpace(s[k]))
  }

  /** `toLowerCase()` restricted to ASCII letters. */
  function ToLowerChar(c: char): (r: char)
    ensures IsUpper(c) ==> r as int == c as int + 32
    ensures !IsUpper(c) ==> r == c
  {
    if IsUpper(c) then (c as int + 32) as char else c
  }

  function ToLower(s: string): (r: string)
    ensures |r| == |s|
    ensures forall k :: 0 <= k < |s| ==> r[k] == ToLowerChar(s[k])
  {
    seq(|s|, k requires 0 <= k < |s| => ToLowerChar(s[k]))
  }

  /** `s.includes(w)`. */
  predicate Contains(s: string, w: string) {
    exists k :: 0 <= k <= |s| && w <= s[k..]
  }

  /** End of the longest run of characters satisfying p that starts at i:
      the greedy `p*` of a regular expression. */
  function RunEnd(s: string, i: nat, p: char -> bool): (e: nat)
    requires i <= |s|
    ensures i <= e <= |s|
    ensures forall k :: i <= k < e ==> p(s[k])
    ensures e == |s| || !p(s[e])
    decreases |s| - i
  {
    if i < |s| && p(s[i]) then RunEnd(s, i + 1, p) else i
  }

  /** Start of the longest run of characters satisfying p that ends at j. */
  function RunStart(s: string, j: nat, p: char -> bool): (b: nat)
    requires j <= |s|
    ensures b <= j
    ensures forall k :: b <= k < j ==> p(s[k])
    ensures b == 0 || !p(s[b - 1])
  {
    if j > 0 && p(s[j - 1]) then RunStart(s, j - 1, p) else j
  }

  /** `trim()`: the slice of s left after removing only whitespace at both ends. */
  function Trim(s: string): (r: string)
    ensures NoOuterSpace(r)
    ensures NoOuterSpace(s) ==> r == s
    ensures |r| <= |s|
    ensures var a := RunEnd(s, 0, IsSpace);
            a + |r| <= |s| && r == s[a..a + |r|] && forall k :: a + |r| <= k < |s| ==> IsSpace(s[k])
    ensures NonSpace(r) == NonSpace(s)
    ensures r == [] <==> forall k :: 0 <= k < |s| ==> IsSpace(s[k])
    ensures NoDoubleSpace(s) ==> NoDoubleSpace(r)
  {
    var a := RunEnd(s, 0, IsSpace);
    var b := RunStart(s, |s|, IsSpace);
    var r := if b <= a then [] else s[a..b];
    TrimIsSlice(s, a, r);
    r
  }

  /** What `Trim` proves of its result, for the slice r of s at a with only
      whitespace around it. */
  lemma TrimIsSlice(s: string, a: nat, r: string)
    requires a + |r| <= |s| && r == s[a..a + |r|]
    requires forall k :: 0 <= k < a ==> IsSpace(s[k])
    requires forall k :: a + |r| <= k < |s| ==> IsSpace(s[k])
    requires r == [] || (!IsSpace(r[0]) && !IsSpace(r[|r| - 1]))
    ensures NoOuterSpace(r) && |r| <= |s|
    ensures NoOuterSpace(s) ==> r == s
    ensures NonSpace(r) == NonSpace(s)
    ensures r == [] <==> forall k :: 0 <= k < |s| ==> IsSpace(s[k])
    ensures NoDoubleSpace(s) ==> NoDoubleSpace(r)
  {
    assert s == s[..a] + (r + s[a + |r|..]);
    NonSpaceAppend(s[..a], r + s[a + |r|..]);
    NonSpaceAppend(r, s[a + |r|..]);
    NonSpaceOfSpaces(s[..a]);
    NonSpaceOfSpaces(s[a + |r|..]);
    if r != [] {
      assert s[a] == r[0];
    }
    if NoDoubleSpace(s) {
      NoDoubleSpaceSlice(s, a, a + |r|);
    }
  }

  /** The characters of s that are not whitespace, in order. */
  function NonSpace(s: string): string {
    if s == [] then [] else (if IsSpace(s[0]) then [] else [s[0]]) + NonSpace(s[1..])
  }

  lemma {:induction false} NonSpaceAppend(a: string, b: string)
    ensures NonSpace(a + b) == NonSpace(a) + NonSpace(b)
  {
    if a == [] {
      assert a + b == b;
    } else {
      assert (a + b)[0] == a[0] && (a + b)[1..] == a[1..] + b;
      NonSpaceAppend(a[1..], b);
    }
  }

  lemma {:induction false} NonSpaceOfSpaces(s: string)
    requires forall k :: 0 <= k < |s| ==> IsSpace(s[k])
    ensures NonSpace(s) == []
  {
    if s != [] {
      NonSpaceOfSpaces(s[1..]);
    }
  }

  /** A slice of a string without double whitespace has none either. */
  lemma NoDoubleSpaceSlice(s: string, a: nat, b: nat)
    requires a <= b <= |s|
    requires NoDoubleSpace(s)
    ensures NoDoubleSpace(s[a..b])
  {
    forall k | 0 < k < b - a
      ensures !(IsSpace(s[a..b][k - 1]) && IsSpace(s[a..b][k]))
    {
      assert s[a..b][k - 1] == s[a + k - 1] && s[a..b][k] == s[a + k];
    }
  }
}
