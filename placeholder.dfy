/** Recognition of one placeholder, the pattern `\${(.*?)}` of the template
    tool: a `$`, a `{`, then the shortest run of characters other than a
    newline (the regular expression's `.` does not match `\n`) that is
    followed by `}`. The pattern has no anchors, so whether a match starts at
    some position depends only on the text from that position on; this module
    therefore only asks whether a match starts at the front of a string. */
module Placeholder {

  datatype Option<T> = None | Some(value: T)

  /** `j` is the first `}` at or after `k`, with no newline in between. */
  predicate IsClose(s: string, k: int, j: int) {
    && 0 <= k <= j < |s|
    && s[j] == '}'
    && forall m :: k <= m < j ==> s[m] != '}' && s[m] != '\n'
  }

  /** Scans forward from `k` for the `}` that ends a non-greedy match: the
      first `}`, unless a newline or the end of the text comes first. */
  function CloseBrace(s: string, k: nat): (r: Option<nat>)
    decreases |s| - k
    ensures r.Some? ==> k <= r.value < |s| && s[r.value] == '}'
  {
    if k >= |s| then None
    else if s[k] == '}' then Some(k)
    else if s[k] == '\n' then None
    else CloseBrace(s, k + 1)
  }

  /** What CloseBrace finds is the first `}` from `k` on, with no newline
      before it. */
  lemma {:induction false} CloseBraceSound(s: string, k: nat)
    requires CloseBrace(s, k).Some?
    ensures IsClose(s, k, CloseBrace(s, k).value)
    decreases |s| - k
  {
    if s[k] != '}' {
      CloseBraceSound(s, k + 1);
    }
  }

  /** CloseBrace finds the closing `}` whenever there is one: the match is
      non-greedy and is missed only when a newline or the end comes first. */
  lemma {:induction false} CloseBraceComplete(s: string, k: nat, j: nat)
    requires IsClose(s, k, j)
    ensures CloseBrace(s, k) == Some(j)
    decreases j - k
  {
    if k < j {
      assert s[k] != '}' && s[k] != '\n';
      CloseBraceComplete(s, k + 1, j);
    }
  }

  /** `s` begins with the opening delimiter `${`. */
  predicate StartsWithOpener(s: string) {
    |s| >= 2 && s[0] == '$' && s[1] == '{'
  }

  /** The length of the placeholder match at the front of `s`, if there is
      one: `${`, then everything up to and including the first `}` when no
      newline comes before it. */
  function MatchAt(s: string): (r: Option<nat>)
    ensures r.Some? ==> StartsWithOpener(s) && 3 <= r.value <= |s| && s[r.value - 1] == '}'
  {
    if StartsWithOpener(s) then
      match CloseBrace(s, 2)
      case Some(j) => Some(j + 1)
      case None => None
    else None
  }

  /** A match is `${`, then characters other than `}` and newline, then the
      first `}`. */
  lemma MatchAtSound(s: string)
    requires MatchAt(s).Some?
    ensures StartsWithOpener(s) && IsClose(s, 2, MatchAt(s).value - 1)
  {
    CloseBraceSound(s, 2);
  }

  /** A match starts at the front of `s` whenever `s` opens with `${` and a
      `}` follows before any newline; it ends at the first such `}`. */
  lemma MatchAtComplete(s: string, j: nat)
    requires StartsWithOpener(s) && IsClose(s, 2, j)
    ensures MatchAt(s) == Some(j + 1)
  {
    CloseBraceComplete(s, 2, j);
  }

  /** Every match ends with a `}`, so a text without one has no match. */
  lemma MatchAtNeedsCloser(s: string)
    ensures MatchAt(s).Some? ==> '}' in s
  {
    if MatchAt(s).Some? {
      var n := MatchAt(s).value;
      assert s[n - 1] in s;
    }
  }

  /** `k` contains neither `}` nor a newline, so `${k}` is one whole match. */
  predicate IsPlainKey(k: string) {
    '}' !in k && '\n' !in k
  }

  /** `${k}` followed by anything is matched exactly up to its own `}`. */
  lemma MatchAtPlaceholder(k: string, rest: string)
    requires IsPlainKey(k)
    ensures MatchAt("${" + k + "}" + rest) == Some(|k| + 3)
  {
    var s := "${" + k + "}" + rest;
    forall m | 2 <= m < |k| + 2 ensures s[m] != '}' && s[m] != '\n' {
      assert s[m] == k[m - 2] && k[m - 2] in k;
    }
    MatchAtComplete(s, |k| + 2);
  }

  /** A newline ends every unfinished placeholder: scanning `u` followed by a
      newline finds the same `}` as scanning `u` alone. */
  lemma {:induction false} CloseBraceStopsAtNewline(u: string, w: string, k: nat)
    requires k <= |u|
    ensures CloseBrace(u + "\n" + w, k) == CloseBrace(u, k)
    decreases |u| - k
  {
    var s := u + "\n" + w;
    if k == |u| {
      assert s[k] == '\n';
    } else {
      assert s[k] == u[k];
      if u[k] != '}' && u[k] != '\n' {
        CloseBraceStopsAtNewline(u, w, k + 1);
      }
    }
  }

  /** A match starting inside `u` never reaches past a newline after `u`;
      when `u` is empty, the newline itself starts no match. */
  lemma MatchAtStopsAtNewline(u: string, w: string)
    ensures MatchAt(u + "\n" + w) == MatchAt(u)
  {
    var s := u + "\n" + w;
    if |u| >= 2 {
      CloseBraceStopsAtNewline(u, w, 2);
    } else if |u| == 1 {
      assert s[1] == '\n';
    } else {
      assert s[0] == '\n';
    }
  }
}
