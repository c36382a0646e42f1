# tmplt: placeholder substitution, modelled in Dafny

`tmplt` reads a YAML template and a YAML map of variables, and replaces every
`${key}` placeholder in the template with the key's value. The substitution
itself is `replaceVariables` in `main.go`. It is one
`regexp.ReplaceAllStringFunc` call with the pattern `\${(.*?)}`. Its callback
works out the lookup key with `strings.Trim(match, "${}")`. It returns the
value when the key is bound, and returns the match unchanged when it is not.

The model is pure, like the source: datatypes, functions and lemmas. There is
no class and no loop method, because `replaceVariables` has no state and no
loop of its own. It is split into five modules:

- `GoStrings` (`go_strings.dfy`): `strings.Trim` with a set of cut
  characters. It is defined by a forward scan and a backward scan. It is
  proved equal to the unique "trimmed slice" (`IsTrimmedSlice`), which is an
  independent description.
- `Placeholder` (`placeholder.dfy`): the regular expression `\${(.*?)}`,
  written as a direct scan. A match at a position is `${`, then the first
  `}` after it, provided no newline comes before that `}`. In Go's RE2
  syntax, `.` does not match `\n`. The pattern has no anchors, so whether a
  match starts at a position depends only on the text from there on.
  `MatchAt` therefore looks only at the front of a string. It is proved sound
  and complete against the predicate `IsClose`.
- `Template` (`template.dfy`): the pass itself, and the keys it looks up.
  - `KeyOf` is the key of a match.
  - `Resolve` is what a match becomes.
  - `Replace` is the left-to-right pass that never overlaps matches.
    Whenever a match starts at the front, it is resolved and scanning
    resumes after it. Otherwise one character is copied.
  - `LookedUp` is the set of keys the pass consults. It is an auxiliary
    function with no counterpart in the source. It states the hypotheses of
    `ReplaceUnbound` and `ReplaceDependsOnlyOnLookedUp`, and
    `LookedUpWithoutOpener` says it is empty for text without `${`.
- `TemplateProperties` (`template_properties.dfy`): what the pass promises,
  plus worked examples of each behaviour on concrete templates.
- `StringFacts` (`string_facts.dfy`): plain facts about splitting and
  regrouping strings. They are proof steps, not claims about the pass.

Two consequences of the code are easy to miss:

- The `.` in the pattern at main.go:66 does not match a newline. So a
  placeholder never spans a line break, and a `${` whose `}` comes only after
  a line break is not a match. It is copied verbatim (`ReplaceLines`,
  `ReplaceUnclosedLine`, `UnclosedExample`).
- main.go:68 trims the whole match with the cut set `${}`, not just the
  captured text between the braces. So `${$x}` looks up `x`, not `$x`
  (`DelimiterInKeyExample`), and `${}` looks up the empty key
  (`EmptyKeyExample`).

## Model

| member | source | states |
|---|---|---|
| GoStrings.Trim | main.go:68 | the trimmed key is no longer than its input, and is empty or starts and ends with a character outside the cut set |
| GoStrings.LeftEdgeSkipsCutset | main.go:68 | every leading character that trimming removes is in the cut set |
| GoStrings.RightEdgeSkipsCutset | main.go:68 | every trailing character that trimming removes is in the cut set |
| GoStrings.TrimBoundsSound | main.go:68 | the bounds that trimming cuts at mark a trimmed slice: only cut characters before and after, and a non-cut character at each end of a non-empty result |
| GoStrings.TrimIsTrimmedSlice | main.go:68 | `strings.Trim` returns exactly the trimmed slice, which is unique whichever way it is described |
| GoStrings.TrimKeepsCleanEnds | main.go:68 | a string whose two ends are outside the cut set is left unchanged |
| GoStrings.TrimIdempotent | main.go:68 | trimming twice is trimming once |
| GoStrings.TrimIgnoresCutsetPadding | main.go:68 | surrounding a string with cut characters does not change its trimmed form |
| Placeholder.CloseBrace | main.go:66 | when the scan finds a closing brace, the position holds a `}` at or after the start |
| Placeholder.CloseBraceSound | main.go:66 | the brace found is the first `}` from the start, with no newline before it |
| Placeholder.CloseBraceComplete | main.go:66 | whenever such a first `}` exists, the scan finds exactly it (non-greedy matching) |
| Placeholder.MatchAt | main.go:66 | a match starts with `${`, is at least three characters long, fits in the text and ends with `}` |
| Placeholder.MatchAtSound | main.go:66 | a match is `${`, then characters other than `}` and newline, then the first `}` |
| Placeholder.MatchAtComplete | main.go:66 | every text that opens with `${` and has a `}` before any newline has a match, ending at that `}` |
| Placeholder.MatchAtPlaceholder | main.go:66 | `${k}` followed by anything is matched exactly up to its own `}` when `k` has no `}` or newline |
| Placeholder.CloseBraceStopsAtNewline | main.go:66 | the closing-brace scan never looks past a newline |
| Placeholder.MatchAtStopsAtNewline | main.go:66 | a match that starts before a newline never extends past it |
| Template.Resolve | main.go:67-72 | what one match becomes: the value when the trimmed key is bound, otherwise the match unchanged; its promises are `ReplaceBoundPlaceholder` and `ReplaceUnboundPlaceholder` |
| Template.Replace | main.go:65-74 | the left-to-right pass, defined by recursion on the text; its promises are the TemplateProperties lemmas |
| Template.KeyOf | main.go:68 | the key is no longer than the match, and neither starts nor ends with `$`, `{` or `}` |
| TemplateProperties.ReplaceWithoutOpener | main.go:66-67 | an input with no `${` is returned unchanged, whatever the variables |
| TemplateProperties.ReplaceWithoutCloser | main.go:66-67 | an input with no `}` has no match and is returned unchanged |
| TemplateProperties.ReplaceCopiesUnmatched | main.go:66-67 | text at none of whose positions a match starts is copied to the output in order, ahead of whatever follows it; it may hold `$`, `${` and `}` |
| TemplateProperties.ReplaceCopiesPlainPrefix | main.go:66-67 | text without `$` is copied to the output in order, ahead of whatever follows it (a special case of the row above) |
| TemplateProperties.ReplaceUnclosedOpener | main.go:66-67 | a `${` that no `}` closes before the next newline or the end is copied as text, and the pass goes on right after it, with no error |
| TemplateProperties.ReplaceUnbound | main.go:69-72 | when no key that the pass looks up is bound, every match is kept verbatim and the output equals the input |
| TemplateProperties.LookedUpWithoutOpener | main.go:66-67 | a text with no `${` looks up no key, because it has no match |
| TemplateProperties.ReplaceEmptyVars | main.go:69-72 | with an empty variable map the output equals the input |
| TemplateProperties.ReplaceDependsOnlyOnLookedUp | main.go:67-72 | two variable maps that agree on the keys the pass looks up give the same output |
| TemplateProperties.KeyOfPlaceholder | main.go:68 | the key of `${k}` is `k` with its own leading and trailing `$`, `{`, `}` removed |
| TemplateProperties.ReplaceBoundPlaceholder | main.go:67-70 | a bound placeholder becomes exactly its value, which is not scanned again, and the pass continues after the `}` |
| TemplateProperties.ReplaceUnboundPlaceholder | main.go:72 | a placeholder whose key is unbound appears literally in the output, and the pass continues after the `}` |
| TemplateProperties.ReplaceSinglePlaceholder | main.go:68-70 | the template `${k}` yields exactly `vars[k]` when `k` is bound, has no `}` or newline, and has no `$`, `{`, `}` at its ends |
| TemplateProperties.LinesMatchStep | main.go:66-67 | a match that starts the first line lies inside that line, so the pass over the two lines splits at the newline |
| TemplateProperties.LinesTextStep | main.go:66-67 | a copied first character keeps the pass over two lines split at the newline |
| TemplateProperties.ReplaceLines | main.go:66-67 | matches never span a newline: the pass over `u`, a newline and `w` is the pass over `u`, the newline and the pass over `w` |
| TemplateProperties.ReplaceUnclosedLine | main.go:66-67 | a line with no `}` is passed through verbatim, any unclosed `${` included, and raises no error |
| TemplateProperties.ReplaceAdjacentPlaceholders | main.go:66 | `${a}${b}` is two matches, not one spanning to the last `}`, and yields the two values side by side |
| TemplateProperties.NonGreedyExample | main.go:66 | `${a}${b}` with a=1 and b=2 gives `12` |
| TemplateProperties.NoRescanExample | main.go:67 | a value that looks like a placeholder, `${y}`, stays literal even when `y` is bound |
| TemplateProperties.EmptyKeyExample | main.go:68 | `${}` looks up the empty key |
| TemplateProperties.DelimiterInKeyExample | main.go:68 | `${$x}` looks up `x`, because the delimiter characters are trimmed off the whole match |
| TemplateProperties.ExtraCloserExample | main.go:66 | `${x}}` matches only `${x}`, and the second `}` is copied as text |
| TemplateProperties.UnclosedExample | main.go:66-67 | an unclosed `${a` is kept, and the placeholder on the next line is still substituted |
| TemplateProperties.ReplaceLabelledPlaceholder | main.go:66-72 | a label without `$` followed by `${k}` becomes the label followed by the value, or by `${k}` unchanged when the key is unbound |
| TemplateProperties.LabelledLine | main.go:66-72 | a line made of a label and a placeholder becomes the label and the value when the key is bound, and is unchanged otherwise |
| TemplateProperties.KeyLine | main.go:66-70 | a line `k: ${k}` whose key is bound becomes `k: ` followed by the key's value |
| TemplateProperties.BoundLines | main.go:69-70 | `name: ${name}` and `port: ${port}` with name=svc and port=8080 become `name: svc` and `port: 8080` |
| TemplateProperties.UnusedLine | main.go:72 | `unused: ${missing}` is unchanged when `missing` is unbound |
| TemplateProperties.EndToEndExample | main.go:65-74 | the three-line template with two bound keys and one missing key becomes `name: svc`, `port: 8080` and `unused: ${missing}` |

## Left out

- `main` (main.go:14-63) is left out. It parses flags, reads and writes files, prints, and exits. All of that is I/O.
- The YAML decoding of the variables file (main.go:44-48) is left out, because it is a call into a YAML library. The variable map is a parameter of type `map<string, string>`.
- Go's general regular-expression engine is left out. Only the one pattern used is modelled, as a direct scan.
- Go strings are UTF-8 byte strings, and RE2's `.` has its own rules for invalid UTF-8. Here strings are `seq<char>`, and the only character that `.` refuses is `\n`.
- The cut-set string `"${}"` is modelled as the set of its characters. `strings.Trim` only tests whether a character is in the cut set.
