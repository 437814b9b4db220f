/** The one string operation shared by several files: `toLowerCase` on ASCII text. */
module Text {

  function LowerChar(c: char): char {
    if 'A' <= c <= 'Z' then (c as int - 'A' as int + 'a' as int) as char else c
  }

  function Lower(s: string): string {
    seq(|s|, i requires 0 <= i < |s| => LowerChar(s[i]))
  }

  /** The capital and the small form of one ASCII letter. */
  predicate CapitalOf(a: char, b: char) {
    'A' <= a <= 'Z' && b as int == a as int + 32
  }

  /** Equal character by character, up to the case of ASCII letters. */
  ghost predicate SameUpToCase(s: string, t: string) {
    && |s| == |t|
    && forall i :: 0 <= i < |s| ==> s[i] == t[i] || CapitalOf(s[i], t[i]) || CapitalOf(t[i], s[i])
  }

  /** Exactly which texts become equal in lower case. */
  lemma LowerIdentifies(s: string, t: string)
    ensures Lower(s) == Lower(t) <==> SameUpToCase(s, t)
  {
    if Lower(s) == Lower(t) {
      assert |s| == |Lower(s)| == |t|;
      forall i | 0 <= i < |s|
        ensures s[i] == t[i] || CapitalOf(s[i], t[i]) || CapitalOf(t[i], s[i])
      {
        assert Lower(s)[i] == LowerChar(s[i]) && Lower(t)[i] == LowerChar(t[i]);
      }
    }
  }
}
