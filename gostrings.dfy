/**
 * The three functions of Go's `strings` package that the tool relies on,
 * modelled for ASCII text: `strings.Replace(s, "-", "_", -1)`,
 * `strings.ToUpper` and `strings.Contains`.
 */
module GoStrings {

  predicate IsLowerAscii(c: char) {
    'a' <= c <= 'z'
  }

  /** Upper-case one character: ASCII `a`..`z` become `A`..`Z`, everything else is kept. */
  function UpperChar(c: char): (u: char)
    ensures !IsLowerAscii(u)
    ensures IsLowerAscii(c) ==> 'A' <= u <= 'Z' && u as int - 'A' as int == c as int - 'a' as int
    ensures !IsLowerAscii(c) ==> u == c
  {
    if IsLowerAscii(c) then ('A' as int + (c as int - 'a' as int)) as char else c
  }

  /**
   * Every occurrence of `target` replaced by `replacement`, as
   * `strings.Replace(s, target, replacement, -1)` does for one-character strings.
   */
  function ReplaceAll(s: string, target: char, replacement: char): (r: string)
    ensures |r| == |s|
  {
    if s == [] then []
    else [if s[0] == target then replacement else s[0]] + ReplaceAll(s[1..], target, replacement)
  }

  lemma {:induction false} ReplaceAllAt(s: string, target: char, replacement: char, i: nat)
    requires i < |s|
    ensures ReplaceAll(s, target, replacement)[i] == if s[i] == target then replacement else s[i]
  {
    if i > 0 {
      ReplaceAllAt(s[1..], target, replacement, i - 1);
    }
  }

  /** `strings.ToUpper` restricted to the ASCII letters. */
  function ToUpper(s: string): (r: string)
    ensures |r| == |s|
  {
    if s == [] then [] else [UpperChar(s[0])] + ToUpper(s[1..])
  }

  lemma {:induction false} ToUpperAt(s: string, i: nat)
    requires i < |s|
    ensures ToUpper(s)[i] == UpperChar(s[i])
  {
    if i > 0 {
      ToUpperAt(s[1..], i - 1);
    }
  }

  /** `sub` occurs in `s` starting at position `i`. */
  predicate OccursAt(s: string, sub: string, i: int) {
    0 <= i <= |s| - |sub| && s[i..i + |sub|] == sub
  }

  /** `strings.Contains(s, sub)`: `sub` occurs in `s` as a contiguous piece. */
  predicate Contains(s: string, sub: string) {
    exists i :: 0 <= i <= |s| && OccursAt(s, sub, i)
  }

  /** Every character of `sub` occurs in any text that contains `sub`. */
  lemma ContainsNeedsEveryChar(s: string, sub: string, j: nat)
    requires j < |sub| && Contains(s, sub)
    ensures sub[j] in s
  {
    var i :| 0 <= i <= |s| && OccursAt(s, sub, i);
    assert s[i + j] == s[i..i + |sub|][j];
  }
}
