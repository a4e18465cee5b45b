/**
 * Character and string primitives shared by the HTML pipeline, the service and
 * the extension: JavaScript white space, the ASCII case folding of a regular
 * expression's `i` flag, forward searches and `String.prototype.includes`.
 */
module Text {
  import opened Wrappers

  /**
   * The characters JavaScript's `\s` class and `String.prototype.trim` treat as
   * white space: the WhiteSpace and LineTerminator productions of ECMA-262.
   */
  predicate IsWs(c: char) {
    || c == '\t' || c == '\n' || c == '\U{000B}' || c == '\U{000C}' || c == '\r' || c == ' '
    || c == '\U{00A0}' || c == '\U{1680}' || ('\U{2000}' <= c <= '\U{200A}')
    || c == '\U{2028}' || c == '\U{2029}' || c == '\U{202F}' || c == '\U{205F}'
    || c == '\U{3000}' || c == '\U{FEFF}'
  }

  /**
   * Case folding as a non-Unicode regular expression with the `i` flag applies
   * it to ASCII patterns: only `A`-`Z` fold (to `a`-`z`); no other character
   * folds onto an ASCII letter.
   */
  function Lower(c: char): (r: char)
    ensures 'a' <= r <= 'z' <==> ('a' <= c <= 'z' || 'A' <= c <= 'Z')
    ensures 'A' <= c <= 'Z' ==> r as int == c as int + 32
    ensures !('A' <= c <= 'Z') ==> r == c
  {
    if 'A' <= c <= 'Z' then (c as int + 32) as char else c
  }

  /** `pat` (written in lower case) matches `s` at position `i`, ignoring ASCII case. */
  predicate MatchesCI(s: string, i: nat, pat: string)
    decreases |pat|
  {
    && i + |pat| <= |s|
    && (pat == [] || (Lower(s[i]) == pat[0] && MatchesCI(s, i + 1, pat[1..])))
  }

  /** A match covers its characters: each one folds onto the pattern's character. */
  lemma {:induction false} MatchedChar(s: string, k: nat, pat: string, p: nat)
    requires MatchesCI(s, k, pat) && p < |pat|
    ensures Lower(s[k + p]) == pat[p]
    decreases |pat|
  {
    if p > 0 {
      MatchedChar(s, k + 1, pat[1..], p - 1);
    }
  }

  lemma MatchedCharIf(s: string, k: nat, pat: string, p: nat)
    requires p < |pat|
    ensures MatchesCI(s, k, pat) ==> Lower(s[k + p]) == pat[p]
  {
    if MatchesCI(s, k, pat) {
      MatchedChar(s, k, pat, p);
    }
  }

  /** A match of a pattern is a match of each of its prefixes. */
  lemma {:induction false} MatchesPatternPrefix(s: string, k: nat, pat: string, n: nat)
    requires MatchesCI(s, k, pat) && n <= |pat|
    ensures MatchesCI(s, k, pat[..n])
    decreases n
  {
    if n > 0 {
      assert pat[..n][1..] == pat[1..][..n - 1];
      MatchesPatternPrefix(s, k + 1, pat[1..], n - 1);
    }
  }

  /** The first position at or after `from` that holds `c`. */
  function FindChar(s: string, c: char, from: nat): (r: Option<nat>)
    decreases |s| - from
    ensures r.Some? ==> from <= r.value < |s| && s[r.value] == c
    ensures r.Some? ==> forall k :: from <= k < r.value ==> s[k] != c
    ensures r.None? ==> forall k :: from <= k < |s| ==> s[k] != c
  {
    if from >= |s| then None
    else if s[from] == c then Some(from)
    else FindChar(s, c, from + 1)
  }

  /** The first position at or after `from` where `pat` matches case-insensitively. */
  function FindCI(s: string, pat: string, from: nat): (r: Option<nat>)
    decreases |s| - from
    ensures r.Some? ==> from <= r.value && MatchesCI(s, r.value, pat)
    ensures r.Some? ==> forall k :: from <= k < r.value ==> !MatchesCI(s, k, pat)
    ensures r.None? ==> forall k :: from <= k ==> !MatchesCI(s, k, pat)
  {
    if from + |pat| > |s| then None
    else if MatchesCI(s, from, pat) then Some(from)
    else FindCI(s, pat, from + 1)
  }

  /** The first occurrence is the only position `FindChar` can report. */
  lemma FindCharIs(s: string, c: char, from: nat, j: nat)
    requires from <= j < |s| && s[j] == c
    requires forall k :: from <= k < j ==> s[k] != c
    ensures FindChar(s, c, from) == Some(j)
  {
  }

  /** The first match is the only position `FindCI` can report. */
  lemma FindCIIs(s: string, pat: string, from: nat, j: nat)
    requires from <= j && MatchesCI(s, j, pat)
    requires forall k :: from <= k < j ==> !MatchesCI(s, k, pat)
    ensures FindCI(s, pat, from) == Some(j)
  {
  }

  /** `pat` occurs in `s` starting at `i` (case-sensitive). */
  predicate OccursAt(s: string, i: nat, pat: string) {
    i + |pat| <= |s| && s[i..i + |pat|] == pat
  }

  /** `String.prototype.includes`: a case-sensitive substring test. */
  function Contains(s: string, pat: string): (b: bool)
    decreases |s|
    ensures b <==> exists i: nat :: OccursAt(s, i, pat)
  {
    if |pat| > |s| then false
    else if s[..|pat|] == pat then (assert OccursAt(s, 0, pat); true)
    else
      var b := Contains(s[1..], pat);
      assert b ==> exists i: nat :: OccursAt(s, i, pat) by {
        if b {
          var i: nat :| OccursAt(s[1..], i, pat);
          assert s[1..][i..i + |pat|] == s[i + 1..i + 1 + |pat|];
          assert OccursAt(s, i + 1, pat);
        }
      }
      assert (exists i: nat :: OccursAt(s, i, pat)) ==> b by {
        if exists i: nat :: OccursAt(s, i, pat) {
          var i: nat :| OccursAt(s, i, pat);
          assert i != 0;
          assert s[1..][i - 1..i - 1 + |pat|] == s[i..i + |pat|];
          assert OccursAt(s[1..], i - 1, pat);
        }
      }
      b
  }

  /** Whatever surrounds it, a text contains its middle part. */
  lemma ContainsMiddle(a: string, b: string, c: string)
    ensures Contains(a + b + c, b)
  {
    assert (a + b + c)[|a|..|a| + |b|] == b;
    assert OccursAt(a + b + c, |a|, b);
  }

  /** A pattern as long as the text occurs in it only as the whole text. */
  lemma ContainsSameLength(s: string, pat: string)
    requires |s| == |pat|
    ensures Contains(s, pat) <==> s == pat
  {
    assert OccursAt(s, 0, pat) <==> s == pat;
  }

  /** A one-character pattern occurs exactly when the character does. */
  lemma ContainsOneChar(s: string, c: char)
    ensures Contains(s, [c]) <==> c in s
  {
    if c in s {
      var i :| 0 <= i < |s| && s[i] == c;
      assert OccursAt(s, i, [c]);
    }
    forall i: nat | OccursAt(s, i, [c]) ensures s[i] == c {
      assert s[i..i + 1][0] == s[i];
    }
  }

  /** A text cannot contain a pattern one of whose characters it lacks. */
  lemma MissingCharNotContained(s: string, pat: string, k: nat)
    requires k < |pat|
    ensures pat[k] !in s ==> !Contains(s, pat)
  {
    forall i: nat | OccursAt(s, i, pat)
      ensures pat[k] in s
    {
      assert s[i..i + |pat|][k] == s[i + k];
    }
  }

  predicate IsDigit(c: char) { '0' <= c <= '9' }

  /** An occurrence in the middle part is an occurrence in the whole. */
  lemma OccursInMiddle(pre: string, d: string, post: string, pat: string, i: nat)
    requires OccursAt(d, i, pat)
    ensures OccursAt(pre + d + post, |pre| + i, pat)
  {
    assert (pre + d + post)[|pre| + i..|pre| + i + |pat|] == d[i..i + |pat|];
  }

  /** Where a pattern that starts and ends with a digit can occur when the digits all sit in a middle part. */
  lemma DigitPatternInMiddle(pre: string, d: string, post: string, pat: string, i: nat)
    requires pat != [] && IsDigit(pat[0]) && IsDigit(pat[|pat| - 1])
    requires forall k :: 0 <= k < |pre| ==> !IsDigit(pre[k])
    requires forall k :: 0 <= k < |post| ==> !IsDigit(post[k])
    requires OccursAt(pre + d + post, i, pat)
    ensures |pre| <= i && OccursAt(d, i - |pre|, pat)
  {
    var s := pre + d + post;
    assert s[i] == pat[0];
    assert s[i + |pat| - 1] == pat[|pat| - 1];
    assert i + |pat| <= |pre| + |d|;
    assert d[i - |pre|..i - |pre| + |pat|] == s[i..i + |pat|];
  }

  /**
   * A pattern that starts and ends with a digit occurs in a text whose digits
   * all sit in one middle part exactly when it occurs in that part.
   */
  lemma ContainsDigitsOnlyInMiddle(pre: string, d: string, post: string, pat: string)
    requires pat != [] && IsDigit(pat[0]) && IsDigit(pat[|pat| - 1])
    requires forall i :: 0 <= i < |pre| ==> !IsDigit(pre[i])
    requires forall i :: 0 <= i < |post| ==> !IsDigit(post[i])
    ensures Contains(pre + d + post, pat) <==> Contains(d, pat)
  {
    var s := pre + d + post;
    if Contains(d, pat) {
      var i: nat :| OccursAt(d, i, pat);
      OccursInMiddle(pre, d, post, pat, i);
    }
    if Contains(s, pat) {
      var i: nat :| OccursAt(s, i, pat);
      DigitPatternInMiddle(pre, d, post, pat, i);
    }
  }

  function DigitChar(d: nat): (c: char)
    requires d < 10
    ensures IsDigit(c)
  {
    ('0' as int + d) as char
  }

  function DigitValue(c: char): (d: nat)
    requires IsDigit(c)
    ensures d < 10 && DigitChar(d) == c
  {
    c as int - '0' as int
  }

  /** JavaScript's `String(n)` for a non-negative integer: its decimal digits. */
  function DecimalString(n: nat): (s: string)
    ensures 0 < |s|
    ensures forall i :: 0 <= i < |s| ==> IsDigit(s[i])
    ensures s[0] == '0' ==> n == 0
  {
    if n < 10 then [DigitChar(n)] else DecimalString(n / 10) + [DigitChar(n % 10)]
  }

  /** Reads a string of decimal digits back as a number. */
  function ParseDecimal(s: string): nat
    requires forall i :: 0 <= i < |s| ==> IsDigit(s[i])
  {
    if s == [] then 0 else ParseDecimal(s[..|s| - 1]) * 10 + DigitValue(s[|s| - 1])
  }

  /** Printing a number in decimal loses nothing. */
  lemma {:induction false} DecimalRoundTrip(n: nat)
    ensures ParseDecimal(DecimalString(n)) == n
  {
    var s := DecimalString(n);
    if n >= 10 {
      DecimalRoundTrip(n / 10);
      assert s[..|s| - 1] == DecimalString(n / 10);
    }
  }
}
