/** Plain facts about splitting and regrouping strings, used as steps in the
    proofs about the substitution pass. None of them is about the pass
    itself. */
module StringFacts {

  /** A string is its prefix followed by the rest. */
  lemma SplitAt(s: string, n: nat)
    requires n <= |s|
    ensures s[..n] + s[n..] == s
  {
  }

  /** Concatenation regrouped to the right. */
  lemma Regroup(p: string, a: string, b: string, c: string)
    ensures p + a + b + c == p + (a + b + c)
  {
  }

  /** The empty string is neutral on the right. */
  lemma AppendEmpty(x: string)
    ensures x + "" == x
  {
  }

  /** How the text `u`, a newline, and `w` splits at an index inside `u`. */
  lemma SplitInFirstLine(u: string, w: string, n: nat)
    requires n <= |u|
    ensures (u + "\n" + w)[..n] == u[..n]
    ensures (u + "\n" + w)[n..] == u[n..] + "\n" + w
  {
  }

  /** Regrouping `a + (b + "\n" + c)` around the newline. */
  lemma RegroupLines(a: string, b: string, c: string)
    ensures a + (b + "\n" + c) == (a + b) + "\n" + c
  {
  }

  /** Dropping the first character of `t + rest` drops it from `t`. */
  lemma SplitAfterFirst(t: string, rest: string)
    requires t != []
    ensures (t + rest)[0] == t[0] && (t + rest)[1..] == t[1..] + rest
  {
  }

  /** Putting the first character of `t` back in front. */
  lemma ConsRegroup(t: string, x: string)
    requires t != []
    ensures [t[0]] + (t[1..] + x) == t + x
  {
    assert t == [t[0]] + t[1..];
  }
}
