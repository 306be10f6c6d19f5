/** Whether one text occurs in another. */
module Substrings {

  predicate Contains(s: string, t: string) {
    exists i | 0 <= i <= |s| :: t <= s[i..]
  }

  /** It does when something before it and something after it make up the other. */
  lemma ContainsIff(s: string, t: string)
    ensures Contains(s, t) <==> exists p, u :: s == p + t + u
  {
    if i :| 0 <= i <= |s| && t <= s[i..] {
      assert s == s[..i] + t + s[i + |t|..];
    }
    if p, u :| s == p + t + u {
      assert t <= s[|p|..];
    }
  }
}
