/**
 * The pieces of the .NET string API that the launcher relies on:
 * `char.IsWhiteSpace`, `string.Trim`, `string.IsNullOrWhiteSpace`,
 * `string.IndexOf(char, int)` and an ordinal, case-insensitive suffix test.
 */
module Text {

  /** The characters `char.IsWhiteSpace` accepts: the controls U+0009..U+000D
      and U+0085, and the Unicode space, line and paragraph separators. */
  predicate IsWhiteSpace(ch: char) {
    || ('\t' <= ch <= '\r')
    || ch == ' ' || ch == '\U{0085}' || ch == '\U{00A0}' || ch == '\U{1680}'
    || ('\U{2000}' <= ch <= '\U{200A}')
    || ch == '\U{2028}' || ch == '\U{2029}' || ch == '\U{202F}' || ch == '\U{205F}'
    || ch == '\U{3000}'
  }

  /** `string.IsNullOrWhiteSpace` on a non-null string. */
  predicate IsNullOrWhiteSpace(s: string) {
    forall i :: 0 <= i < |s| ==> IsWhiteSpace(s[i])
  }

  /** No leading and no trailing white space. */
  predicate IsTrimmed(s: string) {
    s == [] || (!IsWhiteSpace(s[0]) && !IsWhiteSpace(s[|s| - 1]))
  }

  /** The first position at or after `from` that does not hold white
      space, or `|s|` when there is none. */
  function SkipWhiteSpace(s: string, from: nat): (k: nat)
    requires from <= |s|
    ensures from <= k <= |s|
    ensures forall i :: from <= i < k ==> IsWhiteSpace(s[i])
    ensures k < |s| ==> !IsWhiteSpace(s[k])
    decreases |s| - from
  {
    if from == |s| || !IsWhiteSpace(s[from]) then from else SkipWhiteSpace(s, from + 1)
  }

  /** The end of `s[lo..hi]` once its trailing white space is dropped. */
  function BackWhiteSpace(s: string, lo: nat, hi: nat): (k: nat)
    requires lo <= hi <= |s|
    ensures lo <= k <= hi
    ensures forall i :: k <= i < hi ==> IsWhiteSpace(s[i])
    ensures k > lo ==> !IsWhiteSpace(s[k - 1])
    decreases hi
  {
    if hi == lo || !IsWhiteSpace(s[hi - 1]) then hi else BackWhiteSpace(s, lo, hi - 1)
  }

  /** `string.Trim()`: skip white space from the front, then from the back. */
  function Trim(s: string): (r: string)
    ensures IsTrimmed(r)
    ensures |r| <= |s|
  {
    var start := SkipWhiteSpace(s, 0);
    s[start..BackWhiteSpace(s, start, |s|)]
  }

  /** Trim is characterised by the split it makes: whatever white-space
      prefix and suffix surround a trimmed middle, Trim returns that middle. */
  lemma {:induction false} TrimUnique(pre: string, mid: string, post: string)
    requires IsNullOrWhiteSpace(pre) && IsNullOrWhiteSpace(post) && IsTrimmed(mid)
    ensures Trim(pre + mid + post) == mid
  {
    var s := pre + mid + post;
    var start := SkipWhiteSpace(s, 0);
    var end := BackWhiteSpace(s, start, |s|);
    assert forall i :: 0 <= i < |pre| ==> s[i] == pre[i];
    assert forall i :: |pre| + |mid| <= i < |s| ==> s[i] == post[i - |pre| - |mid|];
    if mid == [] {
      assert start == |s|;
    } else {
      assert s[|pre|] == mid[0] && s[|pre| + |mid| - 1] == mid[|mid| - 1];
      assert start == |pre|;
      assert end == |pre| + |mid|;
      assert s[start..end] == mid;
    }
  }

  /** `string.IsNullOrWhiteSpace(s)` holds exactly when `s.Trim()` is empty. */
  lemma BlankIffTrimEmpty(s: string)
    ensures IsNullOrWhiteSpace(s) <==> Trim(s) == []
  {
    var start := SkipWhiteSpace(s, 0);
    if !IsNullOrWhiteSpace(s) {
      assert start < |s|;
      assert BackWhiteSpace(s, start, |s|) > start;
    }
  }

  /** A string with no leading and no trailing white space is its own trim. */
  lemma TrimOfTrimmed(s: string)
    requires IsTrimmed(s)
    ensures Trim(s) == s
  {
    TrimUnique([], s, []);
    assert [] + s + [] == s;
  }

  /** Trimming twice is trimming once. */
  lemma TrimIdempotent(s: string)
    ensures Trim(Trim(s)) == Trim(s)
  {
    TrimOfTrimmed(Trim(s));
  }

  /** `s.IndexOf(c, from)`: the first position at or after `from` holding
      `c`, or -1 when there is none. */
  function IndexOf(s: string, c: char, from: nat): (r: int)
    requires from <= |s|
    ensures r == -1 || from <= r < |s|
    ensures r == -1 <==> forall i :: from <= i < |s| ==> s[i] != c
    ensures r != -1 ==> s[r] == c && forall i :: from <= i < r ==> s[i] != c
    decreases |s| - from
  {
    if from == |s| then -1
    else if s[from] == c then from
    else IndexOf(s, c, from + 1)
  }

  /** ASCII upper-casing, as ordinal case-insensitive comparison applies it. */
  function ToUpperAscii(ch: char): char {
    if 'a' <= ch <= 'z' then (ch as int - 32) as char else ch
  }

  /** `s.EndsWith(suffix, StringComparison.OrdinalIgnoreCase)`. */
  predicate EndsWithIgnoreCase(s: string, suffix: string) {
    && |suffix| <= |s|
    && forall i :: 0 <= i < |suffix| ==>
         ToUpperAscii(s[|s| - |suffix| + i]) == ToUpperAscii(suffix[i])
  }
}
