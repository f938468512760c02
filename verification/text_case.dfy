/** Lower case of ASCII letters, as the case-insensitive map and the string helpers of the source fold it. */
module TextCase {

  function LowerChar(c: char): char {
    if 'A' <= c <= 'Z' then (c as int + 32) as char else c
  }

  function Lower(s: string): string {
    seq(|s|, i requires 0 <= i < |s| => LowerChar(s[i]))
  }

  /** The two cases of one ASCII letter. */
  predicate SameLetter(upper: char, lower: char) {
    'A' <= upper <= 'Z' && lower as int == upper as int + 32
  }

  /** Two texts fold to the same one exactly when they agree position by position up to the case of ASCII letters. */
  lemma {:induction false} FoldAgrees(s: string, t: string)
    ensures Lower(s) == Lower(t)
            <==> |s| == |t|
                 && forall i :: 0 <= i < |s| ==> s[i] == t[i] || SameLetter(s[i], t[i]) || SameLetter(t[i], s[i])
  {
    assert |Lower(s)| == |s| && |Lower(t)| == |t|;
    if Lower(s) == Lower(t) {
      forall i | 0 <= i < |s|
        ensures s[i] == t[i] || SameLetter(s[i], t[i]) || SameLetter(t[i], s[i])
      {
        assert LowerChar(s[i]) == Lower(s)[i] == Lower(t)[i] == LowerChar(t[i]);
      }
    }
  }

  /** Folding gives lower case: it changes nothing but the upper-case ASCII letters. */
  lemma {:induction false} FoldIsLower(s: string)
    ensures |Lower(s)| == |s|
    ensures forall i :: 0 <= i < |s| ==> if 'A' <= s[i] <= 'Z' then SameLetter(s[i], Lower(s)[i]) else Lower(s)[i] == s[i]
  {
  }
}
