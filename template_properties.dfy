/** What the substitution pass promises: identity when nothing can be
    substituted, exact replacement of a bound placeholder, literal survival of
    an unbound one, matches confined to one line, and worked examples of each
    of these behaviours. */
module TemplateProperties {
  import opened GoStrings
  import opened Placeholder
  import opened Template
  import opened StringFacts

  /** `s` has the opening delimiter `${` at index `i`. */
  predicate OpenerAt(s: string, i: int) {
    0 <= i < |s| - 1 && s[i] == '$' && s[i + 1] == '{'
  }

  /** A text without any `${` comes back unchanged, whatever the map. */
  lemma {:induction false} ReplaceWithoutOpener(s: string, vars: map<string, string>)
    requires forall i :: !OpenerAt(s, i)
    ensures Replace(s, vars) == s
    decreases |s|
  {
    if s != [] {
      assert !OpenerAt(s, 0);
      forall i ensures !OpenerAt(s[1..], i) {
        assert OpenerAt(s[1..], i) ==> OpenerAt(s, i + 1);
      }
      ReplaceWithoutOpener(s[1..], vars);
    }
  }

  /** Text at none of whose positions a match starts is copied to the output
      in order, ahead of whatever the rest becomes. A match may start in `t`
      and reach into `rest`, so the condition looks at `t + rest`. */
  lemma {:induction false} ReplaceCopiesUnmatched(t: string, rest: string, vars: map<string, string>)
    requires forall i :: 0 <= i < |t| ==> MatchAt((t + rest)[i..]) == None
    ensures Replace(t + rest, vars) == t + Replace(rest, vars)
    decreases |t|
  {
    if t != [] {
      var s := t + rest;
      assert s[0..] == s;
      TextStep(s, vars);
      forall i | 0 <= i < |t| - 1 ensures MatchAt((t[1..] + rest)[i..]) == None {
        assert (t[1..] + rest)[i..] == s[i + 1..];
      }
      ReplaceCopiesUnmatched(t[1..], rest, vars);
      SplitAfterFirst(t, rest);
      ConsRegroup(t, Replace(rest, vars));
    } else {
      assert t + rest == rest;
    }
  }

  /** Text that contains no `$` cannot start a match, so it is copied to the
      output in order, ahead of whatever the rest becomes. */
  lemma ReplaceCopiesPlainPrefix(t: string, rest: string, vars: map<string, string>)
    requires '$' !in t
    ensures Replace(t + rest, vars) == t + Replace(rest, vars)
  {
    forall i | 0 <= i < |t| ensures MatchAt((t + rest)[i..]) == None {
      assert (t + rest)[i..][0] == t[i] && t[i] in t;
    }
    ReplaceCopiesUnmatched(t, rest, vars);
  }

  /** A `${` that no `}` closes on its line starts no match: it is copied
      as text, and the pass goes on right after it. */
  lemma ReplaceUnclosedOpener(s: string, vars: map<string, string>)
    requires StartsWithOpener(s)
    requires forall j :: !IsClose(s, 2, j)
    ensures Replace(s, vars) == "${" + Replace(s[2..], vars)
  {
    if MatchAt(s).Some? {
      MatchAtSound(s);
    }
    TextStep(s, vars);
    TextStep(s[1..], vars);
    assert s[1..][1..] == s[2..];
    assert "${" + Replace(s[2..], vars) == [s[0]] + ([s[1..][0]] + Replace(s[2..], vars));
  }

  /** A text without any `}` has no match, so it comes back unchanged. */
  lemma {:induction false} ReplaceWithoutCloser(s: string, vars: map<string, string>)
    requires '}' !in s
    ensures Replace(s, vars) == s
    decreases |s|
  {
    if s != [] {
      MatchAtNeedsCloser(s);
      assert forall i :: 0 <= i < |s| - 1 ==> s[1..][i] == s[i + 1];
      ReplaceWithoutCloser(s[1..], vars);
    }
  }

  /** When none of the keys the pass looks up is bound, every match is kept
      verbatim and the text comes back unchanged. */
  lemma {:induction false} ReplaceUnbound(s: string, vars: map<string, string>)
    requires forall k :: k in LookedUp(s) ==> k !in vars
    ensures Replace(s, vars) == s
    decreases |s|
  {
    if s != [] {
      match MatchAt(s)
      case Some(n) =>
        MatchStep(s, vars, n);
        ReplaceUnbound(s[n..], vars);
        SplitAt(s, n);
      case None =>
        TextStep(s, vars);
        ReplaceUnbound(s[1..], vars);
        SplitAt(s, 1);
        assert s[..1] == [s[0]];
    }
  }

  /** A text without any `${` looks up no key at all. */
  lemma {:induction false} LookedUpWithoutOpener(s: string)
    requires forall i :: !OpenerAt(s, i)
    ensures LookedUp(s) == {}
    decreases |s|
  {
    if s != [] {
      assert !OpenerAt(s, 0);
      forall i ensures !OpenerAt(s[1..], i) {
        assert OpenerAt(s[1..], i) ==> OpenerAt(s, i + 1);
      }
      LookedUpWithoutOpener(s[1..]);
    }
  }

  /** With an empty variable map the output equals the input. */
  lemma ReplaceEmptyVars(s: string)
    ensures Replace(s, map[]) == s
  {
    ReplaceUnbound(s, map[]);
  }

  /** The pass consults the map only at the keys it looks up: two maps that
      agree there give the same output. */
  lemma {:induction false} ReplaceDependsOnlyOnLookedUp(s: string, v1: map<string, string>, v2: map<string, string>)
    requires forall k :: k in LookedUp(s) ==> (k in v1 <==> k in v2)
    requires forall k :: k in LookedUp(s) && k in v1 ==> v1[k] == v2[k]
    ensures Replace(s, v1) == Replace(s, v2)
    decreases |s|
  {
    if s != [] {
      match MatchAt(s)
      case Some(n) =>
        assert KeyOf(s[..n]) in LookedUp(s);
        ReplaceDependsOnlyOnLookedUp(s[n..], v1, v2);
      case None =>
        ReplaceDependsOnlyOnLookedUp(s[1..], v1, v2);
    }
  }

  /** The key of `${k}` is `k` with its own leading and trailing `$`, `{`
      and `}` removed: the delimiters themselves never reach the key. */
  lemma KeyOfPlaceholder(k: string)
    ensures KeyOf("${" + k + "}") == Trim(k, Cutset)
  {
    TrimIgnoresCutsetPadding("${", k, "}", Cutset);
  }

  /** A placeholder `${k}` whose key is bound is replaced by exactly its
      value, which is inserted as is and not scanned again; the scan goes on
      right after the `}`. */
  lemma ReplaceBoundPlaceholder(k: string, rest: string, vars: map<string, string>)
    requires IsPlainKey(k) && Trim(k, Cutset) in vars
    ensures Replace("${" + k + "}" + rest, vars) == vars[Trim(k, Cutset)] + Replace(rest, vars)
  {
    var s := "${" + k + "}" + rest;
    MatchAtPlaceholder(k, rest);
    assert s[..|k| + 3] == "${" + k + "}";
    assert s[|k| + 3..] == rest;
    KeyOfPlaceholder(k);
  }

  /** A placeholder `${k}` whose key is not bound appears literally in the
      output, and the scan goes on right after the `}`. */
  lemma ReplaceUnboundPlaceholder(k: string, rest: string, vars: map<string, string>)
    requires IsPlainKey(k) && Trim(k, Cutset) !in vars
    ensures Replace("${" + k + "}" + rest, vars) == "${" + k + "}" + Replace(rest, vars)
  {
    var s := "${" + k + "}" + rest;
    MatchAtPlaceholder(k, rest);
    assert s[..|k| + 3] == "${" + k + "}";
    assert s[|k| + 3..] == rest;
    KeyOfPlaceholder(k);
  }

  /** The template `${k}` yields exactly the value of `k` when `k` is bound,
      has no `}` or newline, and neither starts nor ends with `$`, `{` or
      `}`. */
  lemma ReplaceSinglePlaceholder(k: string, vars: map<string, string>)
    requires IsPlainKey(k) && k in vars
    requires k == [] || (k[0] !in Cutset && k[|k| - 1] !in Cutset)
    ensures Replace("${" + k + "}", vars) == vars[k]
  {
    TrimKeepsCleanEnds(k, Cutset);
    ReplaceBoundPlaceholder(k, "", vars);
    assert "${" + k + "}" + "" == "${" + k + "}";
  }

  /** The inductive step of ReplaceLines when a match starts the first line:
      the match lies inside that line. */
  lemma LinesMatchStep(u: string, w: string, vars: map<string, string>, n: nat)
    requires u != [] && MatchAt(u) == Some(n)
    requires Replace(u[n..] + "\n" + w, vars) == Replace(u[n..], vars) + "\n" + Replace(w, vars)
    ensures Replace(u + "\n" + w, vars) == Replace(u, vars) + "\n" + Replace(w, vars)
  {
    var s := u + "\n" + w;
    MatchAtStopsAtNewline(u, w);
    MatchStep(s, vars, n);
    MatchStep(u, vars, n);
    SplitInFirstLine(u, w, n);
    RegroupLines(Resolve(u[..n], vars), Replace(u[n..], vars), Replace(w, vars));
  }

  /** The inductive step of ReplaceLines when no match starts the first line:
      its first character is copied. */
  lemma LinesTextStep(u: string, w: string, vars: map<string, string>)
    requires u != [] && MatchAt(u) == None
    requires Replace(u[1..] + "\n" + w, vars) == Replace(u[1..], vars) + "\n" + Replace(w, vars)
    ensures Replace(u + "\n" + w, vars) == Replace(u, vars) + "\n" + Replace(w, vars)
  {
    var s := u + "\n" + w;
    MatchAtStopsAtNewline(u, w);
    TextStep(s, vars);
    TextStep(u, vars);
    SplitInFirstLine(u, w, 1);
    assert s[0] == u[0];
    RegroupLines([u[0]], Replace(u[1..], vars), Replace(w, vars));
  }

  /** Matches never span a newline: the pass over two lines joined by a
      newline is the pass over each line, joined by the same newline. */
  lemma {:induction false} ReplaceLines(u: string, w: string, vars: map<string, string>)
    ensures Replace(u + "\n" + w, vars) == Replace(u, vars) + "\n" + Replace(w, vars)
    decreases |u|
  {
    if u == [] {
      var s := u + "\n" + w;
      assert s == "\n" + w && s[1..] == w;
      TextStep(s, vars);
    } else {
      match MatchAt(u)
      case Some(n) =>
        ReplaceLines(u[n..], w, vars);
        LinesMatchStep(u, w, vars, n);
      case None =>
        ReplaceLines(u[1..], w, vars);
        LinesTextStep(u, w, vars);
    }
  }

  /** A line without any `}` is copied verbatim, including any `${` in it:
      an unclosed placeholder is passed through and raises no error. */
  lemma ReplaceUnclosedLine(u: string, w: string, vars: map<string, string>)
    requires '}' !in u
    ensures Replace(u + "\n" + w, vars) == u + "\n" + Replace(w, vars)
  {
    ReplaceLines(u, w, vars);
    ReplaceWithoutCloser(u, vars);
  }

  /** Non-greedy matching: two adjacent placeholders `${a}${b}` are two
      matches, not one reaching to the last `}`, and yield the two values. */
  lemma ReplaceAdjacentPlaceholders(a: string, b: string, vars: map<string, string>)
    requires IsPlainKey(a) && IsPlainKey(b)
    requires Trim(a, Cutset) in vars && Trim(b, Cutset) in vars
    ensures Replace("${" + a + "}" + ("${" + b + "}"), vars) == vars[Trim(a, Cutset)] + vars[Trim(b, Cutset)]
  {
    var tb := "${" + b + "}";
    ReplaceBoundPlaceholder(b, "", vars);
    AppendEmpty(tb);
    AppendEmpty(vars[Trim(b, Cutset)]);
    ReplaceBoundPlaceholder(a, tb, vars);
  }

  /** Non-greedy matching on concrete keys: `${a}${b}` with `a` and `b`
      bound to `1` and `2` gives `12`. */
  lemma NonGreedyExample()
    ensures Replace("${a}${b}", map["a" := "1", "b" := "2"]) == "12"
  {
    var s := "${a}${b}";
    assert s == "${" + "a" + "}" + ("${" + "b" + "}");
    var vars := map["a" := "1", "b" := "2"];
    assert Trim("a", Cutset) == "a" && Trim("b", Cutset) == "b" by {
      TrimKeepsCleanEnds("a", Cutset);
      TrimKeepsCleanEnds("b", Cutset);
    }
    ReplaceAdjacentPlaceholders("a", "b", vars);
  }

  /** No recursive expansion: a value that itself looks like a placeholder
      stays literal in the output. */
  lemma NoRescanExample()
    ensures Replace("${x}", map["x" := "${y}", "y" := "Z"]) == "${y}"
  {
    ReplaceSinglePlaceholder("x", map["x" := "${y}", "y" := "Z"]);
    assert "${x}" == "${" + "x" + "}";
  }

  /** `${}` looks up the empty key. */
  lemma EmptyKeyExample()
    ensures Replace("${}", map["" := "E"]) == "E"
  {
    ReplaceSinglePlaceholder("", map["" := "E"]);
    assert "${}" == "${" + "" + "}";
  }

  /** `${$x}` looks up `x`: delimiter characters inside the braces are
      stripped from the key too. */
  lemma DelimiterInKeyExample()
    ensures Replace("${$x}", map["x" := "1"]) == "1"
  {
    var k := "$x";
    assert "${$x}" == "${" + k + "}" + "";
    assert Trim(k, Cutset) == "x" by {
      TrimIsTrimmedSlice(k, Cutset, 1, 2);
    }
    assert Replace("${" + k + "}" + "", map["x" := "1"]) == "1" + Replace("", map["x" := "1"]) by {
      ReplaceBoundPlaceholder(k, "", map["x" := "1"]);
    }
  }

  /** `${x}}` matches only `${x}`; the second `}` is plain text. */
  lemma ExtraCloserExample()
    ensures Replace("${x}}", map["x" := "1"]) == "1}"
  {
    assert "${x}}" == "${" + "x" + "}" + "}";
    TrimKeepsCleanEnds("x", Cutset);
    ReplaceBoundPlaceholder("x", "}", map["x" := "1"]);
    ReplaceWithoutOpener("}", map["x" := "1"]);
  }

  /** An unclosed `${` followed by a placeholder on the next line: the first
      line is kept, the second is substituted. */
  lemma UnclosedExample(template: string, vars: map<string, string>)
    requires template == "${a" + "\n" + "${a}" && vars == map["a" := "1"]
    ensures Replace(template, vars) == "${a" + "\n" + "1"
  {
    assert "${a}" == "${" + "a" + "}";
    ReplaceUnclosedLine("${a", "${a}", vars);
    TrimKeepsCleanEnds("a", Cutset);
    ReplaceSinglePlaceholder("a", vars);
  }

  /** `p` followed by the placeholder `${k}`, where `p` has no `$`. */
  lemma ReplaceLabelledPlaceholder(p: string, k: string, vars: map<string, string>)
    requires '$' !in p
    requires IsPlainKey(k)
    ensures Replace(p + "${" + k + "}", vars)
         == p + (if Trim(k, Cutset) in vars then vars[Trim(k, Cutset)] else "${" + k + "}")
  {
    var t := "${" + k + "}";
    assert p + "${" + k + "}" == p + t;
    ReplaceCopiesPlainPrefix(p, t, vars);
    assert t + "" == t;
    assert Replace("", vars) == "";
    if Trim(k, Cutset) in vars {
      ReplaceBoundPlaceholder(k, "", vars);
    } else {
      ReplaceUnboundPlaceholder(k, "", vars);
    }
  }

  /** One line of a template, `p${k}`, where the label `p` has no `$`: the
      label is copied and the placeholder resolved. */
  lemma LabelledLine(line: string, p: string, k: string, vars: map<string, string>)
    requires '$' !in p && IsPlainKey(k) && Trim(k, Cutset) == k
    requires line == p + "${" + k + "}"
    ensures Replace(line, vars) == if k in vars then p + vars[k] else line
  {
    ReplaceLabelledPlaceholder(p, k, vars);
    Regroup(p, "${", k, "}");
  }

  /** A line `k: ${k}` naming its own key: the label is copied and the
      placeholder becomes the key's value. */
  lemma KeyLine(line: string, k: string, vars: map<string, string>)
    requires '$' !in k && IsPlainKey(k) && Trim(k, Cutset) == k && k in vars
    requires line == k + ": " + "${" + k + "}"
    ensures Replace(line, vars) == k + ": " + vars[k]
  {
    LabelledLine(line, k + ": ", k, vars);
  }

  /** The keys `name` and `port` meet KeyLine's conditions on keys. */
  lemma ScenarioKeys()
    ensures '$' !in "name" && IsPlainKey("name") && Trim("name", Cutset) == "name"
    ensures '$' !in "port" && IsPlainKey("port") && Trim("port", Cutset) == "port"
  {
    TrimKeepsCleanEnds("name", Cutset);
    TrimKeepsCleanEnds("port", Cutset);
  }

  /** The lines `name: ${name}` and `port: ${port}` have KeyLine's shape. */
  lemma ScenarioShapes()
    ensures "name: ${name}" == "name" + ": " + "${" + "name" + "}"
    ensures "port: ${port}" == "port" + ": " + "${" + "port" + "}"
  {
  }

  /** The first two lines of the three-line template: each label is copied
      and each bound key is replaced by its value. */
  lemma BoundLines(l1: string, l2: string, vars: map<string, string>)
    requires l1 == "name: ${name}" && l2 == "port: ${port}"
    requires vars == map["name" := "svc", "port" := "8080"]
    ensures Replace(l1, vars) == "name: svc" && Replace(l2, vars) == "port: 8080"
  {
    ScenarioKeys();
    ScenarioShapes();
    KeyLine(l1, "name", vars);
    KeyLine(l2, "port", vars);
  }

  /** The third line of the three-line template: a missing key. */
  lemma UnusedLine(line: string, vars: map<string, string>)
    requires line == "unused: ${missing}" && vars == map["name" := "svc", "port" := "8080"]
    ensures Replace(line, vars) == line
  {
    assert line == "unused: " + "${" + "missing" + "}";
    assert "missing" !in vars;
    TrimKeepsCleanEnds("missing", Cutset);
    LabelledLine(line, "unused: ", "missing", vars);
  }

  /** A whole three-line template: two bound keys and one missing key,
      each on its own line. The template and the map are
      parameters fixed by the preconditions, which keeps the verifier from
      evaluating the whole pass on a literal. */
  lemma EndToEndExample(template: string, vars: map<string, string>)
    requires template == "name: ${name}" + "\n" + "port: ${port}" + "\n" + "unused: ${missing}"
    requires vars == map["name" := "svc", "port" := "8080"]
    ensures Replace(template, vars) == "name: svc" + "\n" + "port: 8080" + "\n" + "unused: ${missing}"
  {
    var l1, l2, l3 := "name: ${name}", "port: ${port}", "unused: ${missing}";
    RegroupLines(l1 + "\n", l2, l3);
    ReplaceLines(l1, l2 + "\n" + l3, vars);
    ReplaceLines(l2, l3, vars);
    BoundLines(l1, l2, vars);
    UnusedLine(l3, vars);
    RegroupLines("name: svc" + "\n", "port: 8080", l3);
  }
}
