/**
 Character classes and small string searches shared by the pattern matchers:
 Python's `str.strip()`, `\d` runs, runs of characters outside a class, the
 case-insensitive character comparison of `re.IGNORECASE`, and "starts at".
 */
module Text {
  import opened Wrappers

  // ---------------------------------------------------------------------------
  // Whitespace and str.strip()

  /** The characters Python's `str.isspace` accepts, which `str.strip()` removes. */
  predicate IsSpace(c: char) {
    || c == ' '
    || ('\t' <= c <= '\r')
    || ('\U{1C}' <= c <= '\U{1F}')
    || c == '\U{85}' || c == '\U{A0}' || c == '\U{1680}'
    || ('\U{2000}' <= c <= '\U{200A}')
    || c == '\U{2028}' || c == '\U{2029}' || c == '\U{202F}' || c == '\U{205F}' || c == '\U{3000}'
  }

  /** Every character of `s` is whitespace (the empty string included). */
  predicate IsBlank(s: string) {
    forall k :: 0 <= k < |s| ==> IsSpace(s[k])
  }

  /** The index of the first non-whitespace character of `s` at or after `i`,
      or `|s|` when there is none. */
  function SkipSpaces(s: string, i: nat): (a: nat)
    requires i <= |s|
    ensures i <= a <= |s|
    ensures forall k :: i <= k < a ==> IsSpace(s[k])
    ensures a == |s| || !IsSpace(s[a])
    decreases |s| - i
  {
    if i < |s| && IsSpace(s[i]) then SkipSpaces(s, i + 1) else i
  }

  /** The end of `s[lo..hi]` once its trailing whitespace is dropped. */
  function TrimEnd(s: string, lo: nat, hi: nat): (b: nat)
    requires lo <= hi <= |s|
    ensures lo <= b <= hi
    ensures forall k :: b <= k < hi ==> IsSpace(s[k])
    ensures b == lo || !IsSpace(s[b - 1])
    decreases hi - lo
  {
    if lo < hi && IsSpace(s[hi - 1]) then TrimEnd(s, lo, hi - 1) else hi
  }

  /** Python's `s.strip()`: the slice of `s` left once whitespace is dropped
      from both ends; it neither begins nor ends with whitespace. */
  function Strip(s: string): (r: string)
    ensures exists a, b ::
              && 0 <= a <= b <= |s| && r == s[a..b]
              && (forall k :: 0 <= k < a ==> IsSpace(s[k]))
              && (forall k :: b <= k < |s| ==> IsSpace(s[k]))
    ensures r == [] || (!IsSpace(r[0]) && !IsSpace(r[|r| - 1]))
  {
    var a := SkipSpaces(s, 0);
    var b := TrimEnd(s, a, |s|);
    s[a..b]
  }

  /** `not s.strip()` in Python: the stripped string is empty exactly when `s` is blank. */
  lemma StripEmptyIffBlank(s: string)
    ensures Strip(s) == [] <==> IsBlank(s)
  {
  }

  // ---------------------------------------------------------------------------
  // Digits and runs

  /** `\d`, restricted to the ASCII digits. */
  predicate IsDigit(c: char) {
    '0' <= c <= '9'
  }

  /** A non-empty string of ASCII digits. */
  predicate IsNumeral(s: string) {
    |s| > 0 && forall k :: 0 <= k < |s| ==> IsDigit(s[k])
  }

  /** Length of the longest run of digits in `s` starting at `i` — what a
      greedy `\d+` or `\d*` consumes there. */
  function DigitRun(s: string, i: nat): (n: nat)
    requires i <= |s|
    ensures i + n <= |s|
    ensures forall k :: i <= k < i + n ==> IsDigit(s[k])
    ensures i + n == |s| || !IsDigit(s[i + n])
    decreases |s| - i
  {
    if i < |s| && IsDigit(s[i]) then 1 + DigitRun(s, i + 1) else 0
  }

  /** Length of the longest run of characters other than `c` starting at `i` —
      what a greedy `[^c]*` consumes there. */
  function RunWithout(s: string, i: nat, c: char): (n: nat)
    requires i <= |s|
    ensures i + n <= |s|
    ensures forall k :: i <= k < i + n ==> s[k] != c
    ensures i + n == |s| || s[i + n] == c
    decreases |s| - i
  {
    if i < |s| && s[i] != c then 1 + RunWithout(s, i + 1, c) else 0
  }

  /** A run of characters other than `c` ended by `c` or by the end of `s`
      is exactly what `RunWithout` measures. */
  lemma RunWithoutOf(s: string, i: nat, c: char, w: string)
    requires i + |w| <= |s|
    requires forall t :: 0 <= t < |w| ==> s[i + t] == w[t] && w[t] != c
    requires i + |w| == |s| || s[i + |w|] == c
    ensures RunWithout(s, i, c) == |w|
    decreases |w|
  {
    if |w| > 0 {
      assert s[i + 0] == w[0];
      forall t | 0 <= t < |w| - 1 ensures s[i + 1 + t] == w[1..][t] && w[1..][t] != c {
        assert s[i + (t + 1)] == w[t + 1];
      }
      RunWithoutOf(s, i + 1, c, w[1..]);
    }
  }

  /** No character of `s[lo..hi]` is `c`. */
  predicate NoneOf(s: string, lo: nat, hi: nat, c: char) {
    lo <= hi <= |s| && forall k :: lo <= k < hi ==> s[k] != c
  }

  /** The first index at or after `i` holding `c`, if any. */
  function IndexOf(s: string, c: char, i: nat): (r: Option<nat>)
    requires i <= |s|
    ensures r.Some? ==> i <= r.value < |s| && s[r.value] == c && NoneOf(s, i, r.value, c)
    ensures r.None? ==> NoneOf(s, i, |s|, c)
    decreases |s| - i
  {
    if i == |s| then None
    else if s[i] == c then Some(i)
    else IndexOf(s, c, i + 1)
  }

  // ---------------------------------------------------------------------------
  // Literal occurrences

  /** The literal `lit` occurs in `s` at index `i` (case-sensitive). */
  predicate StartsAt(s: string, i: nat, lit: string) {
    i + |lit| <= |s| && s[i..i + |lit|] == lit
  }

  /** A concatenation occurs at `i` exactly when its two parts occur one after the other. */
  lemma StartsAtConcat(s: string, i: nat, x: string, y: string)
    ensures StartsAt(s, i, x + y) <==> StartsAt(s, i, x) && StartsAt(s, i + |x|, y)
  {
    if i + |x| + |y| <= |s| {
      assert s[i..i + |x| + |y|] == s[i..i + |x|] + s[i + |x|..i + |x| + |y|];
      if StartsAt(s, i, x + y) {
        assert s[i..i + |x|] == (x + y)[..|x|] == x;
        assert s[i + |x|..i + |x| + |y|] == (x + y)[|x|..] == y;
      }
    }
  }

  /** A literal occurring at `i` fixes the characters there. */
  lemma StartsAtChars(s: string, i: nat, lit: string)
    requires StartsAt(s, i, lit)
    ensures forall t :: 0 <= t < |lit| ==> s[i + t] == lit[t]
  {
    forall t | 0 <= t < |lit| ensures s[i + t] == lit[t] {
      assert s[i..i + |lit|][t] == lit[t];
    }
  }

  /** The character at `q` of a literal occurring at `i`, when `q` falls inside it. */
  lemma StartsAtChar(s: string, i: nat, lit: string, q: nat)
    ensures StartsAt(s, i, lit) && i <= q < i + |lit| ==> s[q] == lit[q - i]
  {
    if StartsAt(s, i, lit) && i <= q < i + |lit| {
      assert s[i..i + |lit|][q - i] == lit[q - i];
    }
  }

  /** A literal occurs at `i` when the characters there are its characters. */
  lemma StartsAtOfChars(s: string, i: nat, lit: string)
    requires i + |lit| <= |s| && forall t :: 0 <= t < |lit| ==> s[i + t] == lit[t]
    ensures StartsAt(s, i, lit)
  {
    assert s[i..i + |lit|] == lit by {
      forall t | 0 <= t < |lit| ensures s[i..i + |lit|][t] == lit[t] {
        assert s[i + t] == lit[t];
      }
    }
  }

  /** `s` contains the literal `lit` somewhere. */
  ghost predicate Contains(s: string, lit: string) {
    exists i: nat :: StartsAt(s, i, lit)
  }

  /** Under `re.IGNORECASE`, pattern character `p` (a lower-case ASCII letter or
      a non-letter) matches text character `c`: `c` is `p`, its upper-case
      ASCII form, or one of the four non-ASCII letters Python folds onto an
      ASCII letter (U+0130 and U+0131 onto `i`, U+017F onto `s`, U+212A onto `k`). */
  predicate FoldEq(c: char, p: char) {
    || c == p
    || ('a' <= p <= 'z' && c as int == p as int - 32)
    || (p == 'i' && (c == '\U{130}' || c == '\U{131}'))
    || (p == 's' && c == '\U{17F}')
    || (p == 'k' && c == '\U{212A}')
  }

  /** The literal `lit` occurs case-insensitively in `s` at index `i`. */
  predicate FoldStartsAt(s: string, i: nat, lit: string) {
    i + |lit| <= |s| && forall t :: 0 <= t < |lit| ==> FoldEq(s[i + t], lit[t])
  }

  /** Whether `lit` occurs case-insensitively in `s` at `i` or later — an
      unanchored `re.search` for a literal. */
  function FoldFindFrom(s: string, lit: string, i: nat): (r: bool)
    requires i <= |s|
    ensures r <==> exists j: nat :: i <= j && FoldStartsAt(s, j, lit)
    decreases |s| - i
  {
    if |s| < i + |lit| then false
    else if FoldStartsAt(s, i, lit) then true
    else i < |s| && FoldFindFrom(s, lit, i + 1)
  }

  // ---------------------------------------------------------------------------
  // ASCII lower-casing, to relate FoldEq to `lower()`

  predicate IsAscii(s: string) {
    forall k :: 0 <= k < |s| ==> s[k] as int < 128
  }

  function LowerChar(c: char): (d: char)
  {
    if 'A' <= c <= 'Z' then (c as int + 32) as char else c
  }

  /** ASCII `s.lower()`. */
  function Lower(s: string): (r: string)
    ensures |r| == |s| && forall k :: 0 <= k < |s| ==> r[k] == LowerChar(s[k])
  {
    if s == [] then [] else [LowerChar(s[0])] + Lower(s[1..])
  }

  /** A pattern written in lower-case ASCII letters and punctuation. */
  predicate IsLowerLiteral(lit: string) {
    forall t :: 0 <= t < |lit| ==> lit[t] as int < 128 && !('A' <= lit[t] <= 'Z')
  }

  /** On ASCII text, matching a lower-case literal case-insensitively at `i`
      is the same as finding it in the lower-cased text at `i`. */
  lemma FoldStartsAtAscii(s: string, i: nat, lit: string)
    requires IsAscii(s) && IsLowerLiteral(lit)
    ensures FoldStartsAt(s, i, lit) <==> StartsAt(Lower(s), i, lit)
  {
    if i + |lit| <= |s| {
      var low := Lower(s);
      if FoldStartsAt(s, i, lit) {
        forall t | 0 <= t < |lit| ensures low[i..i + |lit|][t] == lit[t] {
          assert FoldEq(s[i + t], lit[t]);
        }
        assert low[i..i + |lit|] == lit;
      }
      if StartsAt(low, i, lit) {
        forall t | 0 <= t < |lit| ensures FoldEq(s[i + t], lit[t]) {
          assert low[i..i + |lit|][t] == lit[t];
        }
      }
    }
  }
}
