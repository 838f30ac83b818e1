/**
 * The handful of JavaScript string operations the page relies on, written out
 * over `string` (a sequence of characters).
 */
module Text {

  /** `s.startsWith(p)`. */
  predicate StartsWith(s: string, p: string) {
    |p| <= |s| && s[..|p|] == p
  }

  /** `s.endsWith(suffix)`. */
  predicate EndsWith(s: string, suffix: string) {
    |suffix| <= |s| && s[|s| - |suffix|..] == suffix
  }

  /** `s.includes(p)`: `p` occurs in `s` at some offset. */
  predicate Includes(s: string, p: string) {
    exists i :: 0 <= i <= |s| && StartsWith(s[i..], p)
  }

  /** A string in which the first character of `p` never occurs does not include `p`. */
  lemma MissingFirstCharNotIncluded(s: string, p: string)
    requires p != [] && p[0] !in s
    ensures !Includes(s, p)
  {
  }

  /**
   * The characters `String.prototype.trim` removes: the ECMAScript WhiteSpace
   * and LineTerminator code points.
   */
  predicate IsWhiteSpace(c: char) {
    c in {'\t', '\n', '\U{B}', '\U{C}', '\r', ' ', '\U{A0}', '\U{1680}', '\U{2028}', '\U{2029}',
          '\U{202F}', '\U{205F}', '\U{3000}', '\U{FEFF}'}
    || ('\U{2000}' <= c <= '\U{200A}')
  }

  /** `!s.trim()`: trimming leaves the empty string exactly when every character is white space. */
  predicate IsBlank(s: string) {
    forall i :: 0 <= i < |s| ==> IsWhiteSpace(s[i])
  }

  /** `toLowerCase` of one character, on the ASCII letters. */
  function LowerChar(c: char): char {
    if 'A' <= c <= 'Z' then (c as int + 32) as char else c
  }

  /** `s.toLowerCase()`, character by character. */
  function ToLower(s: string): (r: string)
    ensures |r| == |s|
  {
    seq(|s|, i requires 0 <= i < |s| => LowerChar(s[i]))
  }

  /** `ss.join('')`: the strings of `ss` one after another. */
  function Concat(ss: seq<string>): string {
    if ss == [] then "" else ss[0] + Concat(ss[1..])
  }

  lemma {:induction false} ConcatAppend(a: seq<string>, b: seq<string>)
    ensures Concat(a + b) == Concat(a) + Concat(b)
    decreases |a|
  {
    if a == [] {
      assert a + b == b;
    } else {
      assert (a + b)[1..] == a[1..] + b;
      ConcatAppend(a[1..], b);
    }
  }

  /**
   * `tag.split('-')[0]`: the longest dash-free prefix of `tag`. The result is a
   * prefix of `tag`, holds no dash, and is followed in `tag` by a dash unless it
   * is all of `tag`.
   */
  function LangPrefix(tag: string): (p: string)
    ensures StartsWith(tag, p)
    ensures '-' !in p
    ensures |p| < |tag| ==> tag[|p|] == '-'
  {
    if tag == [] || tag[0] == '-' then "" else [tag[0]] + LangPrefix(tag[1..])
  }
}
