/** String facts shared by the path, loader and HTML models. */
module Text {

  predicate StartsWith(s: string, prefix: string) {
    |prefix| <= |s| && s[..|prefix|] == prefix
  }

  predicate EndsWith(s: string, suffix: string) {
    |suffix| <= |s| && s[|s| - |suffix|..] == suffix
  }

  /** True when `s` holds no double quote, the character the HTML pattern stops at. */
  predicate QuoteFree(s: string) {
    '"' !in s
  }

  /** `String.prototype.toLowerCase` on one character, restricted to ASCII letters. */
  function LowerChar(c: char): (r: char)
    ensures 'A' <= c <= 'Z' ==> r as int == c as int + 32
    ensures !('A' <= c <= 'Z') ==> r == c
    ensures !('A' <= r <= 'Z')
  {
    if 'A' <= c <= 'Z' then (c as int + 32) as char else c
  }

  /** `String.prototype.toLowerCase`, character by character. */
  function Lower(s: string): (r: string)
    ensures |r| == |s|
    ensures forall i :: 0 <= i < |s| ==> r[i] == LowerChar(s[i])
  {
    if s == [] then [] else [LowerChar(s[0])] + Lower(s[1..])
  }

  /** Two strings that agree once ASCII case is ignored. */
  predicate EqualsIgnoreCase(a: string, b: string) {
    |a| == |b| && forall i :: 0 <= i < |a| ==> LowerChar(a[i]) == LowerChar(b[i])
  }

  /** A string already in lower case is its own lower-cased form. */
  lemma {:induction false} LowerOfLowercase(w: string)
    requires forall i :: 0 <= i < |w| ==> !('A' <= w[i] <= 'Z')
    ensures Lower(w) == w
  {
    assert forall i :: 0 <= i < |w| ==> Lower(w)[i] == w[i];
  }

  /** Lower-casing reaches a lower-case word exactly from its case variants. */
  lemma LowerEqualsIff(t: string, w: string)
    requires forall i :: 0 <= i < |w| ==> !('A' <= w[i] <= 'Z')
    ensures Lower(t) == w <==> EqualsIgnoreCase(t, w)
  {
    LowerOfLowercase(w);
    if EqualsIgnoreCase(t, w) {
      assert forall i :: 0 <= i < |t| ==> Lower(t)[i] == Lower(w)[i];
    }
  }
}
