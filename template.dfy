/** The substitution pass of the template tool (`replaceVariables`): every
    placeholder match, found left to right without overlap, is replaced by
    the value of its key when the key is in the variable map and kept
    verbatim otherwise. Text between matches is copied, and replacement text
    is never scanned again. */
module Template {
  import opened GoStrings
  import opened Placeholder

  /** The characters stripped from both ends of a match to get its key (the
      cutset string "${}"). */
  const Cutset: set<char> := {'$', '{', '}'}

  /** The lookup key of a match: the whole match with its leading and
      trailing `$`, `{` and `}` characters removed. */
  function KeyOf(m: string): (key: string)
    ensures |key| <= |m|
    ensures key == [] || (key[0] !in Cutset && key[|key| - 1] !in Cutset)
  {
    Trim(m, Cutset)
  }

  /** What one match is replaced by. */
  function Resolve(m: string, vars: map<string, string>): (r: string) {
    var key := KeyOf(m);
    if key in vars then vars[key] else m
  }

  /** The single forward substitution pass over `s`. When a match starts at
      the front, it is resolved and the scan resumes right after it; otherwise
      the first character is copied and the scan moves on by one. */
  function Replace(s: string, vars: map<string, string>): (r: string)
    decreases |s|
  {
    if s == [] then []
    else
      match MatchAt(s)
      case Some(n) => Resolve(s[..n], vars) + Replace(s[n..], vars)
      case None => [s[0]] + Replace(s[1..], vars)
  }

  /** The keys the pass over `s` looks up, one per match. */
  function LookedUp(s: string): (keys: set<string>)
    decreases |s|
  {
    if s == [] then {}
    else
      match MatchAt(s)
      case Some(n) => {KeyOf(s[..n])} + LookedUp(s[n..])
      case None => LookedUp(s[1..])
  }

  /** One step of the pass when a match of length `n` starts at the front. */
  lemma MatchStep(s: string, vars: map<string, string>, n: nat)
    requires s != [] && MatchAt(s) == Some(n)
    ensures n <= |s|
    ensures Replace(s, vars) == Resolve(s[..n], vars) + Replace(s[n..], vars)
    ensures LookedUp(s) == {KeyOf(s[..n])} + LookedUp(s[n..])
  {
  }

  /** One step of the pass when no match starts at the front. */
  lemma TextStep(s: string, vars: map<string, string>)
    requires s != [] && MatchAt(s) == None
    ensures Replace(s, vars) == [s[0]] + Replace(s[1..], vars)
    ensures LookedUp(s) == LookedUp(s[1..])
  {
  }
}
