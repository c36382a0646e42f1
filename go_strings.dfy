/** Go's `strings.Trim(s, cutset)`: strip every leading and every trailing
    character of `s` that occurs in `cutset`. Characters inside the string are
    never touched, and a string made only of cutset characters trims to "".
    Only membership in the cutset matters, so it is a set of characters. */
module GoStrings {

  /** The slice `s[a..b]` is what trimming keeps: everything before `a` and
      from `b` on is a cutset character, and the slice is empty or has a
      non-cutset character at each end. */
  predicate IsTrimmedSlice(s: string, cutset: set<char>, a: int, b: int) {
    && 0 <= a <= b <= |s|
    && (forall i :: 0 <= i < a ==> s[i] in cutset)
    && (forall i :: b <= i < |s| ==> s[i] in cutset)
    && (a < b ==> s[a] !in cutset && s[b - 1] !in cutset)
  }

  /** Scanning forward from `i`: the index of the first character that is
      not in the cutset, or `|s|` if there is none. */
  function LeftEdge(s: string, cutset: set<char>, i: nat): (a: nat)
    requires i <= |s|
    decreases |s| - i
    ensures i <= a <= |s|
    ensures a < |s| ==> s[a] !in cutset
  {
    if i < |s| && s[i] in cutset then LeftEdge(s, cutset, i + 1) else i
  }

  /** Everything LeftEdge skips is a cutset character. */
  lemma {:induction false} LeftEdgeSkipsCutset(s: string, cutset: set<char>, i: nat)
    requires i <= |s|
    ensures forall k :: i <= k < LeftEdge(s, cutset, i) ==> s[k] in cutset
    decreases |s| - i
  {
    if i < |s| && s[i] in cutset {
      LeftEdgeSkipsCutset(s, cutset, i + 1);
    }
  }

  /** Scanning backward from `j`, never below `lo`: the index just after the
      last character that is not in the cutset, or `lo` if there is none. */
  function RightEdge(s: string, cutset: set<char>, lo: nat, j: nat): (b: nat)
    requires lo <= j <= |s|
    decreases j
    ensures lo <= b <= j
    ensures b > lo ==> s[b - 1] !in cutset
  {
    if j > lo && s[j - 1] in cutset then RightEdge(s, cutset, lo, j - 1) else j
  }

  /** Everything RightEdge skips is a cutset character. */
  lemma {:induction false} RightEdgeSkipsCutset(s: string, cutset: set<char>, lo: nat, j: nat)
    requires lo <= j <= |s|
    ensures forall k :: RightEdge(s, cutset, lo, j) <= k < j ==> s[k] in cutset
    decreases j
  {
    if j > lo && s[j - 1] in cutset {
      RightEdgeSkipsCutset(s, cutset, lo, j - 1);
    }
  }

  /** Where trimming cuts `s`: the left edge first, then the right edge, which
      never moves past the left one. */
  function TrimBounds(s: string, cutset: set<char>): (ab: (nat, nat))
    ensures 0 <= ab.0 <= ab.1 <= |s|
    ensures ab.0 < ab.1 ==> s[ab.0] !in cutset && s[ab.1 - 1] !in cutset
  {
    var a := LeftEdge(s, cutset, 0);
    (a, RightEdge(s, cutset, a, |s|))
  }

  /** TrimBounds marks exactly the trimmed slice. */
  lemma TrimBoundsSound(s: string, cutset: set<char>)
    ensures IsTrimmedSlice(s, cutset, TrimBounds(s, cutset).0, TrimBounds(s, cutset).1)
  {
    var a := LeftEdge(s, cutset, 0);
    LeftEdgeSkipsCutset(s, cutset, 0);
    RightEdgeSkipsCutset(s, cutset, a, |s|);
  }

  /** `strings.Trim`: `s` with its leading and trailing cutset characters
      removed. */
  function Trim(s: string, cutset: set<char>): (r: string)
    ensures |r| <= |s|
    ensures r == [] || (r[0] !in cutset && r[|r| - 1] !in cutset)
  {
    var ab := TrimBounds(s, cutset);
    s[ab.0..ab.1]
  }

  /** Trim yields the trimmed slice, whichever way it is described: such a
      slice is unique. */
  lemma TrimIsTrimmedSlice(s: string, cutset: set<char>, a: int, b: int)
    requires IsTrimmedSlice(s, cutset, a, b)
    ensures Trim(s, cutset) == s[a..b]
  {
    var ab := TrimBounds(s, cutset);
    var a', b' := ab.0, ab.1;
    TrimBoundsSound(s, cutset);
    if a < b {
      // Both slices start at the first non-cutset character ...
      assert s[a] !in cutset;
      assert a' <= a;
      assert a' < b' && s[a'] !in cutset;
      assert a' == a;
      // ... and end after the last one.
      assert s[b - 1] !in cutset;
      assert b - 1 < b';
      assert s[b' - 1] !in cutset;
      assert b' == b;
    } else {
      // Every character is a cutset character, so both slices are empty.
      assert a' == b';
    }
  }

  /** A string with no cutset character at either end is left unchanged. */
  lemma TrimKeepsCleanEnds(s: string, cutset: set<char>)
    requires s == [] || (s[0] !in cutset && s[|s| - 1] !in cutset)
    ensures Trim(s, cutset) == s
  {
    TrimIsTrimmedSlice(s, cutset, 0, |s|);
  }

  /** Trimming is idempotent. */
  lemma TrimIdempotent(s: string, cutset: set<char>)
    ensures Trim(Trim(s, cutset), cutset) == Trim(s, cutset)
  {
    TrimKeepsCleanEnds(Trim(s, cutset), cutset);
  }

  /** Padding a string with cutset characters on both sides shifts its
      trimmed slice by the length of the left padding. */
  lemma PaddedTrimmedSlice(p: string, s: string, q: string, cutset: set<char>, a: int, b: int)
    requires forall i :: 0 <= i < |p| ==> p[i] in cutset
    requires forall i :: 0 <= i < |q| ==> q[i] in cutset
    requires IsTrimmedSlice(s, cutset, a, b)
    ensures IsTrimmedSlice(p + s + q, cutset, |p| + a, |p| + b)
  {
    var u := p + s + q;
    forall i | 0 <= i < |p| + a ensures u[i] in cutset {
      if i < |p| { assert u[i] == p[i]; } else { assert u[i] == s[i - |p|]; }
    }
    forall i | |p| + b <= i < |u| ensures u[i] in cutset {
      if i < |p| + |s| { assert u[i] == s[i - |p|]; } else { assert u[i] == q[i - |p| - |s|]; }
    }
    if a < b {
      assert u[|p| + a] == s[a] && u[|p| + b - 1] == s[b - 1];
    }
  }

  /** The copy of `s` inside `p + s + q` is `s` again, slice by slice. */
  lemma SliceOfPadded(p: string, s: string, q: string, a: int, b: int)
    requires 0 <= a <= b <= |s|
    ensures (p + s + q)[|p| + a..|p| + b] == s[a..b]
  {
  }

  /** Surrounding a string with cutset characters does not change what
      trimming it yields. */
  lemma TrimIgnoresCutsetPadding(p: string, s: string, q: string, cutset: set<char>)
    requires forall i :: 0 <= i < |p| ==> p[i] in cutset
    requires forall i :: 0 <= i < |q| ==> q[i] in cutset
    ensures Trim(p + s + q, cutset) == Trim(s, cutset)
  {
    var ab := TrimBounds(s, cutset);
    TrimBoundsSound(s, cutset);
    PaddedTrimmedSlice(p, s, q, cutset, ab.0, ab.1);
    TrimIsTrimmedSlice(p + s + q, cutset, |p| + ab.0, |p| + ab.1);
    SliceOfPadded(p, s, q, ab.0, ab.1);
  }
}
