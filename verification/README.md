# Spacing rules for brackets and braces

A Dafny model of two ESLint rules from `@martin-pettersson/eslint-plugin-spacing-rules`:

- **array-bracket-spacing** looks at every `ArrayExpression` and `ArrayPattern`.
  For each of its two boundaries, `[` plus the token after it and `]` plus the token before it, it decides whether the inside must be spaced.
  The decision starts from the `"always"`/`"never"` directive.
  A destructuring exception can invert it for patterns.
  Three boundary-local exceptions can also invert it: `singleValue`, `objectsInArrays` and `arraysInArrays`.
  The rule reports `missingSpaceAfter`/`missingSpaceBefore` or `unexpectedSpaceAfter`/`unexpectedSpaceBefore`, each with a fix of one edit.
- **object-curly-spacing** does the same for the braces of object literals and patterns and of named import and export lists.
  - Its boundary tokens include comments.
  - It never reports an unexpected space before a line comment that follows `{`.
  - Its nested exceptions (`arraysInObjects`, `objectsInObjects`) apply to the closing brace only.
    They ask the host which innermost node contains the start of the token before `}`.
  - Its missing-space messages are `requireSpaceAfter`/`requireSpaceBefore`.
- The shared token and node predicates come from the `InspectsTokens` and `InspectsNodes` mixins.

The source text is a sequence of `Token`s, comments included, in source order.
A node is the span of token indices it covers.
The host queries `getFirstToken`, `getLastToken`, `getTokenBefore` and `getTokenAfter` become index functions over that sequence.
Where the host would return `null` and the rule would then throw, the model returns `None`.
The rules do not specify the two host services they call, so these are function parameters:

- `isSpaceBetweenTokens` becomes `isSpaceBetween: (Token, Token) -> bool`;
- the type of `getNodeByRangeIndex(offset)` becomes `nodeTypeAt: nat -> NodeKind`.

A fix is a datatype: `InsertText(at, " ")` or `RemoveRange(lo, hi)`.
Its effect is modelled as flipping the spacing observation at the boundary it repairs.
That is all the rules need to know about it.

The modules follow the source: `Tokens` holds the token predicates of `InspectsTokens`, and `Nodes` holds the node predicates of `InspectsNodes` and the node shapes the rules read. `SourceCode` holds the host's token queries, `Options` the shared `#isOptionSet` and spacing policy, and `Diagnostics` the reports. `ArrayBracketSpacing` and `ObjectCurlySpacing` are the two rules, and `Scenarios` holds concrete inputs with their exact outputs.

Throughout, `Options.Required(spaced, d, b) = (spaced XOR d) XOR b` is the reference policy.
Here `d` is the destructuring inversion and `b` the boundary-local one.
The rules' own `(s && !e) || (!s && e)` and `cond ? !x : x` formulas are proved equal to it.

## Model

| member | source | states |
|---|---|---|
| Tokens.IsNotCommaToken | lib/mixins/InspectsTokens.js:2-4 | a definition with no contract of its own: it fails only for the punctuator `,`, as `Tokens.CommaCharacterization` states both ways |
| Tokens.IsTokenOnSameLine | lib/mixins/InspectsTokens.js:6-8 | a definition with no contract of its own: the left token ends on the line where the right one starts; the Reports lemmas use it as the "on one line" condition |
| Tokens.IsClosingBracketToken | lib/mixins/InspectsTokens.js:10-12 | a definition with no contract of its own: the punctuator `]`; `Tokens.ClosersAreDistinct` and `Tokens.ClosersAreNotComments` state its consequences |
| Tokens.IsClosingBraceToken | lib/mixins/InspectsTokens.js:14-16 | a definition with no contract of its own: the punctuator `}`; `ObjectCurlySpacing.GetClosingBraceOfObject` finds the first one after the last property |
| Tokens.CommaCharacterization | lib/mixins/InspectsTokens.js:2-4 | a token fails `isNotCommaToken` exactly when it is the punctuator `,` |
| Tokens.ClosersAreDistinct | lib/mixins/InspectsTokens.js:10-16 | no token is both a closing bracket and a closing brace |
| Tokens.ClosersAreNotCommas | lib/mixins/InspectsTokens.js:2-16 | closing brackets, closing braces and comments all pass `isNotCommaToken`, so skipping commas never skips them |
| Tokens.ClosersAreNotComments | lib/mixins/InspectsTokens.js:10-16 | a closing bracket or brace is a punctuator, never a comment |
| Nodes.IsObjectType | lib/mixins/InspectsNodes.js:2-4 | a definition with no contract of its own: a present `ObjectExpression` or `ObjectPattern`; `Nodes.MissingNodeHasNoShape` and `Nodes.ShapesAreDisjoint` state its consequences |
| Nodes.IsArrayType | lib/mixins/InspectsNodes.js:6-8 | a definition with no contract of its own: a present `ArrayExpression` or `ArrayPattern`; `Nodes.MissingNodeHasNoShape` and `Nodes.ShapesAreDisjoint` state its consequences |
| Nodes.MissingNodeHasNoShape | lib/mixins/InspectsNodes.js:2-8 | a missing node (a hole, or an absent element such as `elements[0]` of `[]`, which is `undefined`) is neither object-shaped nor array-shaped; the model uses the same `None` for the object rule's `false` when it skips the lookup |
| Nodes.ShapesAreDisjoint | lib/mixins/InspectsNodes.js:2-8 | no node kind is both object-shaped and array-shaped |
| SourceCode.TokenAfter | lib/rules/object-curly-spacing/Rule.js:72 | `getTokenAfter` returns the nearest later entry passing the filter and the comment option, or nothing when no such entry exists |
| SourceCode.TokenBefore | lib/rules/array-bracket-spacing/Rule.js:29-30 | `getTokenBefore` returns the nearest earlier entry the comment option admits, or nothing when no such entry exists |
| SourceCode.FirstToken | lib/rules/array-bracket-spacing/Rule.js:27 | a definition with no contract of its own: `getFirstToken(node)` is the node's first stream entry, or nothing when that entry is outside the stream; `ArrayBracketSpacing.LocateBrackets` and `ObjectCurlySpacing.ObjectBoundaries` state that the opening token is this entry, and `ArrayBracketSpacing.LocateBrackets` fails whenever it is missing |
| SourceCode.SecondToken | lib/rules/array-bracket-spacing/Rule.js:28 | `getFirstToken(node, 1)` is the nearest non-comment token after the node's first token and lies inside the node; it is missing exactly when every entry after the first token, up to the node's last one, is a comment |
| SourceCode.LastToken | lib/rules/array-bracket-spacing/Rule.js:29 | a definition with no contract of its own: `getLastToken(node)` is the node's last stream entry, or nothing when that entry is outside the stream; `ArrayBracketSpacing.ClosingBracket` states both directions for a node without a type annotation |
| SourceCode.TokenBeforeNode | lib/rules/object-curly-spacing/Rule.js:71 | `getTokenBefore(specifier)` is the nearest non-comment token before the node; it is missing exactly when every earlier entry is a comment |
| SourceCode.TokenAfterNode | lib/rules/object-curly-spacing/Rule.js:72 | `getTokenAfter(specifier, filter)` is the nearest non-comment token after the node that passes the filter, and every entry in between is a comment or fails the filter; it is missing exactly when every later entry is one of those |
| SourceCode.AdjacentWithComments | lib/rules/object-curly-spacing/Rule.js:29-30 | with `includeComments`, the tokens after and before an entry are its neighbours in the stream |
| SourceCode.OrderedTokensAreDistinct | lib/rules/array-bracket-spacing/Rule.js:54 | in a tokenizer's stream, two positions never hold the same token, so token identity (`!==`) is position identity |
| Options.IsOptionSet | lib/rules/array-bracket-spacing/Rule.js:65-67 | a definition with no contract of its own (`#isOptionSet`, identical in lib/rules/object-curly-spacing/Rule.js:102-104); `Options.OptionSetIffInverts` states what it means |
| Options.ShouldBeSpaced | lib/rules/array-bracket-spacing/Rule.js:10 | a definition with no contract of its own: `options[0] === "always"` (identical in lib/rules/object-curly-spacing/Rule.js:10); `ArrayBracketSpacing.ConfigOf` and `ObjectCurlySpacing.ConfigOf` state that `spaced` holds exactly for `"always"` |
| Options.OptionSetIffInverts | lib/rules/array-bracket-spacing/Rule.js:65-67 | a flag is enabled exactly when it is configured to the negation of the directive; restating the directive, omitting the flag, or omitting `options[1]` leaves it off |
| Options.InversionsCancel | lib/rules/array-bracket-spacing/Rule.js:25-26 | the destructuring and boundary inversions cancel in pairs |
| Diagnostics.ReportsOfConcat | lib/rules/array-bracket-spacing/Rule.js:44-62 | the reports of both boundaries together contain a message exactly when the opening or the closing reports contain it |
| ArrayBracketSpacing.ConfigOf | lib/rules/array-bracket-spacing/Rule.js:10-16 | `spaced` holds exactly for `"always"`; each of the four flags holds exactly when `options[1]` maps its option name to the negation of the directive |
| ArrayBracketSpacing.NodeShouldBeSpaced | lib/rules/array-bracket-spacing/Rule.js:25-26 | the node-wide requirement is the directive XOR (destructuring exception and the node is an `ArrayPattern`) |
| ArrayBracketSpacing.FirstElement | lib/rules/array-bracket-spacing/Rule.js:31 | a definition with no contract of its own: `node.elements[0]`, missing for a hole or an empty array; `ArrayBracketSpacing.OpeningBracketVerdict` states the opening bracket's requirement through it |
| ArrayBracketSpacing.LastElement | lib/rules/array-bracket-spacing/Rule.js:32 | a definition with no contract of its own: `node.elements[node.elements.length - 1]`, missing for a hole or an empty array; `ArrayBracketSpacing.ClosingBracketVerdict` states the closing bracket's requirement through it |
| ArrayBracketSpacing.ElementInverts | lib/rules/array-bracket-spacing/Rule.js:33-41 | a definition with no contract of its own: the three-way disjunction that guards each `? !shouldBeSpaced : shouldBeSpaced`; `ArrayBracketSpacing.BracketMustBeSpaced` proves the bracket's requirement equal to `Required` with it as the boundary inversion |
| ArrayBracketSpacing.BracketMustBeSpaced | lib/rules/array-bracket-spacing/Rule.js:31-42 | a bracket's requirement is the node-wide one, inverted when the element next to it is object-shaped under `objectsInArrays`, array-shaped under `arraysInArrays`, or the only element under `singleValue` |
| ArrayBracketSpacing.LocateBrackets | lib/rules/array-bracket-spacing/Rule.js:27-30 | the opening bracket is the node's first token, and `second` is the nearest non-comment token after it, inside the node; `last` is the closing bracket; `penultimate` is the nearest non-comment token before `last`; the lookup fails exactly when the first token is outside the stream, `second`, the closing bracket or `penultimate` is not found |
| ArrayBracketSpacing.ClosingBracket | lib/rules/array-bracket-spacing/Rule.js:29 | without a type annotation the closing bracket is the node's last token, found exactly when that token is in the stream; with one it is the nearest non-comment token before the annotation, and it is missing only when every earlier entry is a comment |
| ArrayBracketSpacing.BracketsLocated | lib/rules/array-bracket-spacing/Rule.js:27-30 | when the node starts with a non-comment token and a non-comment closing bracket lies inside it (its last token, or a token before the type annotation), all four lookups succeed; without an annotation the closing bracket found is the node's last token |
| ArrayBracketSpacing.ReportNoBeginningSpace | lib/rules/array-bracket-spacing/Rule.js:69-83 | an `unexpectedSpaceAfter` report for the bracket's value, located from the bracket's end, whose fix is a removal starting where the bracket ends |
| ArrayBracketSpacing.RemovesGapToNextCode | lib/rules/array-bracket-spacing/Rule.js:69-83 | the removal after `[` ends exactly at the next non-comment token, where the report's location ends; there is no report exactly when only comments follow `[` |
| ArrayBracketSpacing.ReportNoEndingSpace | lib/rules/array-bracket-spacing/Rule.js:85-99 | an `unexpectedSpaceBefore` report for the bracket's value, located up to the bracket's start, whose fix is a removal ending where the bracket starts |
| ArrayBracketSpacing.RemovesGapFromPreviousCode | lib/rules/array-bracket-spacing/Rule.js:85-99 | the removal before `]` starts exactly at the end of the previous non-comment token, where the report's location starts; there is no report exactly when only comments precede `]` |
| ArrayBracketSpacing.ReportRequiredBeginningSpace | lib/rules/array-bracket-spacing/Rule.js:101-113 | a `missingSpaceAfter` report at the bracket's location and for its value, whose fix inserts one space at the bracket's end and removes nothing |
| ArrayBracketSpacing.ReportRequiredEndingSpace | lib/rules/array-bracket-spacing/Rule.js:115-127 | a `missingSpaceBefore` report at the bracket's location and for its value, whose fix inserts one space at the bracket's start and removes nothing |
| ArrayBracketSpacing.OpeningChecked | lib/rules/array-bracket-spacing/Rule.js:44 | a definition with no contract of its own: `isTokenOnSameLine(first, second)`; `ArrayBracketSpacing.OpeningBracketVerdict` states that the opening bracket is reported only when it holds |
| ArrayBracketSpacing.ClosingChecked | lib/rules/array-bracket-spacing/Rule.js:54 | a definition with no contract of its own: `first !== penultimate && isTokenOnSameLine(penultimate, last)`; `ArrayBracketSpacing.ClosingBracketVerdict` states that the closing bracket is reported only when it holds, and `ArrayBracketSpacing.EmptyPairAtMostOne` shows the identity test disabling it for `[ ]` |
| ArrayBracketSpacing.Exempt | lib/rules/array-bracket-spacing/Rule.js:20-22 | a definition with no contract of its own: the early return for an empty array under `"always"`; `ArrayBracketSpacing.ValidateArraySpacing` states that an exempt node yields no report, whatever its tokens |
| ArrayBracketSpacing.OpeningDiagnostics | lib/rules/array-bracket-spacing/Rule.js:44-52 | the opening boundary yields at most one report, always `missingSpaceAfter` or `unexpectedSpaceAfter` with key `tokenValue`, and it yields a result whenever `second` is the next code token |
| ArrayBracketSpacing.ClosingDiagnostics | lib/rules/array-bracket-spacing/Rule.js:54-62 | the closing boundary yields at most one report, always `missingSpaceBefore` or `unexpectedSpaceBefore` with key `tokenValue`, and it yields a result whenever `penultimate` is the previous code token |
| ArrayBracketSpacing.ValidateArraySpacing | lib/rules/array-bracket-spacing/Rule.js:19-63 | an empty array under `"always"` yields nothing; the rule fails only when a bracket lookup fails; it reports at most twice, any opening report before any closing one, always with data key `tokenValue` and one of the four array message ids |
| ArrayBracketSpacing.OpeningReports | lib/rules/array-bracket-spacing/Rule.js:44-52 | the opening boundary reports `missingSpaceAfter` iff it is on one line, required spaced and unspaced, `unexpectedSpaceAfter` iff on one line, required unspaced and spaced, and never a closing message |
| ArrayBracketSpacing.ClosingReports | lib/rules/array-bracket-spacing/Rule.js:54-62 | the closing boundary reports `missingSpaceBefore` / `unexpectedSpaceBefore` iff it is checked and its requirement disagrees with the observation in that direction, and never an opening message |
| ArrayBracketSpacing.OpeningBracketVerdict | lib/rules/array-bracket-spacing/Rule.js:44-52 | `missingSpaceAfter` is reported iff the opening boundary is on one line, required spaced and unspaced; `unexpectedSpaceAfter` iff it is on one line, required unspaced and spaced |
| ArrayBracketSpacing.ClosingBracketVerdict | lib/rules/array-bracket-spacing/Rule.js:54-62 | `missingSpaceBefore` / `unexpectedSpaceBefore` are reported iff the token before `]` is not `[`, the boundary is on one line, and the requirement (judged on the last element) disagrees with the observation in the matching direction |
| ArrayBracketSpacing.OpeningShapes | lib/rules/array-bracket-spacing/Rule.js:69-83 | every opening report is exactly the one its message calls for: an insert of `" "` after `[`, or the removal of the gap up to the next code token |
| ArrayBracketSpacing.ClosingShapes | lib/rules/array-bracket-spacing/Rule.js:85-99 | every closing report is exactly the one its message calls for: an insert of `" "` before `]`, or the removal of the gap back to the previous code token |
| ArrayBracketSpacing.DiagnosticShapes | lib/rules/array-bracket-spacing/Rule.js:69-127 | each report's location, message id, `tokenValue` and fix: insert `" "` right after `[` or right before `]`, or remove exactly the gap to the neighbouring non-comment token |
| ArrayBracketSpacing.FixesSilenceTheNode | lib/rules/array-bracket-spacing/Rule.js:44-62 | once every reported boundary's spacing is flipped, the node yields no report |
| ArrayBracketSpacing.AfterFixesAt | lib/rules/array-bracket-spacing/Rule.js:44-62 | after the fixes, each boundary's spacing is flipped exactly when that boundary was reported |
| ArrayBracketSpacing.OpeningSilenced | lib/rules/array-bracket-spacing/Rule.js:44-52 | an opening boundary whose spacing agrees with its requirement yields no report |
| ArrayBracketSpacing.ClosingSilenced | lib/rules/array-bracket-spacing/Rule.js:54-62 | a closing boundary whose spacing agrees with its requirement yields no report |
| ArrayBracketSpacing.EmptyPairAtMostOne | lib/rules/array-bracket-spacing/Rule.js:44-62 | `[ ]`, with no token between the brackets, yields at most one report |
| ArrayBracketSpacing.FixesDoNotOverlap | lib/rules/array-bracket-spacing/Rule.js:69-127 | the fixes of one node edit disjoint stretches of the source, the opening one first |
| ObjectCurlySpacing.ConfigOf | lib/rules/object-curly-spacing/Rule.js:10-15 | `spaced` holds exactly for `"always"`; each of the three flags holds exactly when `options[1]` maps its option name to the negation of the directive |
| ObjectCurlySpacing.ReportNoBeginningSpace | lib/rules/object-curly-spacing/Rule.js:106-123 | an `unexpectedSpaceAfter` report for the brace's value, located from the brace's end, whose fix is a removal starting where the brace ends |
| ObjectCurlySpacing.RemovesGapToNextEntry | lib/rules/object-curly-spacing/Rule.js:106-123 | with comments included, the removal after `{` ends exactly at the entry right after it, whatever that entry is; there is no report exactly when `{` is the last entry |
| ObjectCurlySpacing.ReportNoEndingSpace | lib/rules/object-curly-spacing/Rule.js:125-142 | an `unexpectedSpaceBefore` report for the brace's value, located up to the brace's start, whose fix is a removal ending where the brace starts |
| ObjectCurlySpacing.RemovesGapFromPreviousEntry | lib/rules/object-curly-spacing/Rule.js:125-142 | with comments included, the removal before `}` starts exactly at the end of the entry right before it; there is no report exactly when `}` is the first entry |
| ObjectCurlySpacing.ReportRequiredBeginningSpace | lib/rules/object-curly-spacing/Rule.js:144-156 | a `requireSpaceAfter` report at the brace's location and for its value, whose fix inserts one space at the brace's end and removes nothing |
| ObjectCurlySpacing.ReportRequiredEndingSpace | lib/rules/object-curly-spacing/Rule.js:158-170 | a `requireSpaceBefore` report at the brace's location and for its value, whose fix inserts one space at the brace's start and removes nothing |
| ObjectCurlySpacing.OpeningChecked | lib/rules/object-curly-spacing/Rule.js:177 | a definition with no contract of its own: `isTokenOnSameLine(first, second)`; `ObjectCurlySpacing.OpeningBraceVerdict` states that the opening brace is reported only when it holds, and then the line-comment guard of lib/rules/object-curly-spacing/Rule.js:184 |
| ObjectCurlySpacing.ClosingChecked | lib/rules/object-curly-spacing/Rule.js:189 | a definition with no contract of its own: `isTokenOnSameLine(penultimate, last)`; `ObjectCurlySpacing.ClosingBraceVerdict` states that the closing brace is reported only when it holds |
| ObjectCurlySpacing.NodeShouldBeSpaced | lib/rules/object-curly-spacing/Rule.js:172-175 | the requirement is the directive XOR (destructuring exception and destructuring context) |
| ObjectCurlySpacing.PenultimateType | lib/rules/object-curly-spacing/Rule.js:190-196 | a definition with no contract of its own: the node type at the penultimate token's start, asked only when a watched `]` or `}` is there, otherwise the source's `false`; `ObjectCurlySpacing.ClosingBraceMustBeSpaced` folds it into `ClosingInverts` |
| ObjectCurlySpacing.ClosingInverts | lib/rules/object-curly-spacing/Rule.js:190-203 | a definition with no contract of its own: the closing-brace inversion of the source, as one predicate on the penultimate token and the node kind found there; `ObjectCurlySpacing.ClosingBraceMustBeSpaced` proves the source's formula equal to `Required` with it, and `ObjectCurlySpacing.NestedExceptionByShape` states when it holds |
| ObjectCurlySpacing.ClosingBraceMustBeSpaced | lib/rules/object-curly-spacing/Rule.js:189-203 | the closing requirement is the node-wide one, inverted exactly when a watched closer (`]` under `arraysInObjects`, `}` under `objectsInObjects`) precedes the brace and the node at its offset is an `ArrayExpression` under `arraysInObjects` or an object under `objectsInObjects` |
| ObjectCurlySpacing.NestedExceptionByShape | lib/rules/object-curly-spacing/Rule.js:190-203 | for a lookup consistent with the closer's shape, the closing brace is inverted iff a `]` of an `ArrayExpression` precedes it under `arraysInObjects`, or a `}` of an object under `objectsInObjects`; an `ArrayPattern` never qualifies |
| ObjectCurlySpacing.OpeningDiagnostics | lib/rules/object-curly-spacing/Rule.js:177-187 | the opening boundary yields at most one report, and only opening messages |
| ObjectCurlySpacing.ClosingDiagnostics | lib/rules/object-curly-spacing/Rule.js:189-213 | the closing boundary yields at most one report, and only closing messages |
| ObjectCurlySpacing.ValidateBraceSpacing | lib/rules/object-curly-spacing/Rule.js:172-214 | at most two reports, any opening one first, always with data key `token` and one of `requireSpaceAfter`, `requireSpaceBefore`, `unexpectedSpaceAfter`, `unexpectedSpaceBefore` |
| ObjectCurlySpacing.OpeningReports | lib/rules/object-curly-spacing/Rule.js:177-187 | the opening boundary reports `requireSpaceAfter` iff it is on one line, required spaced and unspaced, `unexpectedSpaceAfter` iff on one line, required unspaced, spaced and not followed by a line comment, and never a closing message |
| ObjectCurlySpacing.ClosingReports | lib/rules/object-curly-spacing/Rule.js:189-213 | the closing boundary reports `requireSpaceBefore` / `unexpectedSpaceBefore` iff it is on one line and its requirement disagrees with the observation in that direction, and never an opening message |
| ObjectCurlySpacing.OpeningBraceVerdict | lib/rules/object-curly-spacing/Rule.js:177-187 | `requireSpaceAfter` is reported iff the opening boundary is on one line, required spaced and unspaced; `unexpectedSpaceAfter` iff it is on one line, required unspaced, spaced, and the token after `{` is not a line comment |
| ObjectCurlySpacing.ClosingBraceVerdict | lib/rules/object-curly-spacing/Rule.js:189-213 | `requireSpaceBefore` / `unexpectedSpaceBefore` are reported iff the closing boundary is on one line and its requirement disagrees with the observation in the matching direction |
| ObjectCurlySpacing.OpeningShapes | lib/rules/object-curly-spacing/Rule.js:106-123 | every opening report is exactly the one its message calls for: an insert of `" "` after `{`, or the removal of the gap up to the adjacent entry |
| ObjectCurlySpacing.ClosingShapes | lib/rules/object-curly-spacing/Rule.js:125-142 | every closing report is exactly the one its message calls for: an insert of `" "` before `}`, or the removal of the gap back to the adjacent entry |
| ObjectCurlySpacing.DiagnosticShapes | lib/rules/object-curly-spacing/Rule.js:106-170 | each report's location, message id, `token` value and fix: insert `" "` right after `{` or right before `}`, or remove exactly the gap to the adjacent entry, comments included |
| ObjectCurlySpacing.AfterFixesAt | lib/rules/object-curly-spacing/Rule.js:177-213 | after the fixes, each boundary's spacing is flipped exactly when that boundary was reported |
| ObjectCurlySpacing.BracesSilenced | lib/rules/object-curly-spacing/Rule.js:177-213 | boundaries whose spacing agrees with their requirements, or a spaced line comment after `{`, yield no report |
| ObjectCurlySpacing.FixesSilenceTheBraces | lib/rules/object-curly-spacing/Rule.js:177-213 | once every reported boundary's spacing is flipped, a pair of braces with something between them yields no report |
| ObjectCurlySpacing.FixesDoNotOverlap | lib/rules/object-curly-spacing/Rule.js:106-170 | the two fixes of a pair of braces edit disjoint stretches of the source, the opening one first |
| ObjectCurlySpacing.FixStaysAtItsBoundary | lib/rules/object-curly-spacing/Rule.js:106-170 | an opening report's fix ends by the start of the entry after `{`; a closing report's fix starts after the end of the entry before `}` |
| ObjectCurlySpacing.OneFixPerSide | lib/rules/object-curly-spacing/Rule.js:172-214 | with at most one report on each side of the interior, the opening fix ends before the closing fix starts |
| ObjectCurlySpacing.GetClosingBraceOfObject | lib/rules/object-curly-spacing/Rule.js:216-220 | the closing brace is the first `}` punctuator after the last property, or nothing when there is none |
| ObjectCurlySpacing.ObjectBoundaries | lib/rules/object-curly-spacing/Rule.js:23-30 | an object's boundaries start at its first token and end at its closing brace, and `second`/`penultimate` are the stream entries next to them; they are missing exactly when no entry follows the first token or no `}` follows the last property |
| ObjectCurlySpacing.SpecifierBoundaries | lib/rules/object-curly-spacing/Rule.js:71-78 | the opening token is the nearest non-comment token before the first specifier; the closing token is the first non-comment, non-comma token after the last specifier, with only comments and commas skipped; they are missing exactly when either token is not found or no entry follows the opening token |
| ObjectCurlySpacing.CheckForObjectDestructuringAssignment | lib/rules/object-curly-spacing/Rule.js:18-34 | a pattern without properties yields nothing; otherwise the check fails exactly when the braces cannot be located, and when they can it validates them as a destructuring context |
| ObjectCurlySpacing.CheckForObject | lib/rules/object-curly-spacing/Rule.js:36-52 | a literal without properties yields nothing; otherwise the check fails exactly when the braces cannot be located, and when they can it validates them outside a destructuring context |
| ObjectCurlySpacing.FirstBracedSpecifier | lib/rules/object-curly-spacing/Rule.js:61-69 | the first braced specifier is `specifiers[0]` unless that is a default or namespace import, in which case it is `specifiers[1]`, which then exists |
| ObjectCurlySpacing.CheckForImport | lib/rules/object-curly-spacing/Rule.js:54-82 | an import without specifiers, or whose last specifier is not a named one, yields nothing; otherwise the braces are found from the first named specifier (a leading default import is skipped) and the last, the check fails exactly when they cannot be located, and when they can it validates them as a destructuring context |
| ObjectCurlySpacing.CheckForExport | lib/rules/object-curly-spacing/Rule.js:84-100 | an export without specifiers yields nothing; otherwise the braces are found from the first and last specifiers, the check fails exactly when they cannot be located, and when they can it validates them outside a destructuring context |
| ObjectCurlySpacing.Skipped | lib/rules/object-curly-spacing/Rule.js:18-21 | a definition with no contract of its own: the visitors' early returns: an object without properties (lib/rules/object-curly-spacing/Rule.js:19-21, :37-39), an import without specifiers or whose last specifier is not an `ImportSpecifier` (lib/rules/object-curly-spacing/Rule.js:55-57, :63-65), an export without specifiers (lib/rules/object-curly-spacing/Rule.js:85-87); `ObjectCurlySpacing.Check` states that a skipped node yields no report |
| ObjectCurlySpacing.DestructuringContext | lib/rules/object-curly-spacing/Rule.js:26-33 | a definition with no contract of its own: the `isDestructuringAssignment` argument each visitor passes: `true` for patterns (lib/rules/object-curly-spacing/Rule.js:32) and imports (lib/rules/object-curly-spacing/Rule.js:80), the default `false` for literals and exports; `ObjectCurlySpacing.Check` states that every other node is validated with it |
| ObjectCurlySpacing.Check | lib/rules/object-curly-spacing/Rule.js:18-100 | skipped nodes yield nothing; any other node fails exactly when its braces cannot be located, and is otherwise validated at them with the destructuring context true for patterns and imports, false for literals and exports |
| ObjectCurlySpacing.Located | lib/rules/object-curly-spacing/Rule.js:18-100 | the brace lookup of the four visitors: located braces are adjacent to their interior entries, and for a node as the parser nests it they are missing exactly when no `}` follows the last property (objects) or no token is found before the first braced specifier or after the last one (imports and exports) |
| ObjectCurlySpacing.ObjectValidatedAtItsBraces | lib/rules/object-curly-spacing/Rule.js:18-52 | a non-empty object is validated at its located braces, as a destructuring context exactly when it is a pattern, and its visit fails exactly when the braces are missing |
| ObjectCurlySpacing.ImportValidatedAtItsBraces | lib/rules/object-curly-spacing/Rule.js:54-82 | a braced import is validated at its located braces as a destructuring context, and its visit fails exactly when the braces are missing |
| ObjectCurlySpacing.ExportValidatedAtItsBraces | lib/rules/object-curly-spacing/Rule.js:84-100 | a non-empty export is validated at its located braces outside a destructuring context, and its visit fails exactly when the braces are missing |
| ObjectCurlySpacing.LocatedHasInterior | lib/rules/object-curly-spacing/Rule.js:19-30 | for a well-nested node, the located braces enclose at least one token |
| ObjectCurlySpacing.FixesSilenceTheNode | lib/rules/object-curly-spacing/Rule.js:172-214 | once every reported boundary of a checked node is flipped, the node yields no report |
| ObjectCurlySpacing.NodeFixesDoNotOverlap | lib/rules/object-curly-spacing/Rule.js:106-170 | the fixes reported for one node edit disjoint stretches of the source |
| ObjectCurlySpacing.ImportSkipsDefault | lib/rules/object-curly-spacing/Rule.js:63-71 | after a leading default import, the opening brace is the nearest non-comment token before the second specifier |
| Scenarios.NeverUnspacedArrayIsClean | lib/rules/array-bracket-spacing/Rule.js:44-62 | `[1, 2]` under `"never"` yields nothing |
| Scenarios.NeverSpacedOpeningIsReported | lib/rules/array-bracket-spacing/Rule.js:69-83 | `[ 1, 2]` under `"never"` yields exactly one `unexpectedSpaceAfter` that removes the gap after `[` |
| Scenarios.NeverEmptyArrayIsChecked | lib/rules/array-bracket-spacing/Rule.js:20-22 | `[ ]` under `"never"` is still checked, and yields exactly one report |
| Scenarios.AlwaysEmptyArrayIsExempt | lib/rules/array-bracket-spacing/Rule.js:20-22 | `[]` under `"always"` yields nothing |
| Scenarios.SingleValueInvertsNever | lib/rules/array-bracket-spacing/Rule.js:31-42 | `[1]` under `"never"` with `singleValue: true` yields `missingSpaceAfter` and then `missingSpaceBefore` |
| Scenarios.ObjectsInArraysHugTheObject | lib/rules/array-bracket-spacing/Rule.js:33-42 | `[{ a: 1 }]` under `"always"` with `objectsInArrays: false` yields nothing |
| Scenarios.UnspacedImportBraces | lib/rules/object-curly-spacing/Rule.js:59-72 | in `import {a, b}` the braces are the token before `a` and the first non-comma token after `b` |
| Scenarios.UnspacedImportOpening | lib/rules/object-curly-spacing/Rule.js:177-183 | in `import {a, b}` under `"always"` the opening boundary yields exactly one `requireSpaceAfter` |
| Scenarios.UnspacedImportClosing | lib/rules/object-curly-spacing/Rule.js:189-208 | in `import {a, b}` under `"always"` the closing boundary yields exactly one `requireSpaceBefore` |
| Scenarios.AlwaysUnspacedImportIsReported | lib/rules/object-curly-spacing/Rule.js:144-170 | `import {a, b}` under `"always"` yields `requireSpaceAfter` and `requireSpaceBefore`, each inserting one space |
| Scenarios.AlwaysSpacedImportIsClean | lib/rules/object-curly-spacing/Rule.js:54-82 | `import { a, b }` under `"always"` yields nothing |
| Scenarios.DestructuringInvertsPatterns | lib/rules/object-curly-spacing/Rule.js:18-34 | `{a, b}` as a pattern, under `"always"` with `destructuringAssignments: false`, yields nothing |
| Scenarios.UnspacedPairBraces | lib/rules/object-curly-spacing/Rule.js:41-50 | the braces of the literal `{a, b}` are its first token and the first `}` after `b` |
| Scenarios.UnspacedLiteralOpening | lib/rules/object-curly-spacing/Rule.js:177-183 | in the literal `{a, b}` the opening boundary yields exactly one `requireSpaceAfter` inserting a space after `{` |
| Scenarios.UnspacedLiteralClosing | lib/rules/object-curly-spacing/Rule.js:189-208 | in the literal `{a, b}` the closing boundary yields exactly one `requireSpaceBefore` inserting a space before `}` |
| Scenarios.DestructuringLeavesLiteralsAlone | lib/rules/object-curly-spacing/Rule.js:36-52 | the same `{a, b}` as a literal is not a destructuring context, so it yields `requireSpaceAfter` and then `requireSpaceBefore` |
| Scenarios.LineCommentKeepsItsSpace | lib/rules/object-curly-spacing/Rule.js:184 | a spaced line comment after `{` under `"never"` is not reported |

## Left out

- `lib/rules/*/RuleFactory.js` binds node types to the entry points.
  For objects, `ObjectCurlySpacing.Check` is that table as one `match`.
  For arrays, both node types go to `ValidateArraySpacing`, and `ArrayNode.isPattern` tells them apart.
- `lib/rules/index.js`, `lib/rules/*/index.js` and the rule metadata only register the rules, so they are not modelled.
- Two host services are parameters about which nothing is assumed: `isSpaceBetweenTokens` and `getNodeByRangeIndex`.
  The lookup is taken to always find a node, because the object or declaration that contains the offset always encloses it.
- The tokenizer and the parser are not modelled.
  Node spans are assumed to begin and end at code tokens, not comments.
  Some lemmas state this about the first token, or demand an `Ordered` stream, as a precondition.
- `context.report` and the fixer are not modelled.
  A fix is data, and its effect is modelled as flipping the spacing observation at the boundary it repairs.
  Text is never rewritten.
- Diagnostic: the `node` a report is anchored to is not recorded, since it is always the node being checked.
- The rules dereference a `null` token in these cases:
  - a `getTokenAfter` that finds nothing;
  - an array with no second token;
  - an object with no closing brace.
  
  The host's parser never produces such inputs. In the model the rule returns `None` instead of throwing.
  The locators state exactly when that happens.
  `ArrayBracketSpacing.BracketsLocated` and `ObjectCurlySpacing.Located` show that it does not happen for nodes as the parser builds them.
- `options[1]` values other than booleans are not modelled, because the option schema allows only booleans.
- The CommonJS and ES-module copies of the same rule and the `Object.assign` mixin composition are not modelled, because the predicates are plain functions here.

Where a prose description of the rules differs from the code, the model follows the code:
- The object rule's missing-space messages are `requireSpaceAfter` and `requireSpaceBefore`.
- Its message data key is `token`, while the array rule's is `tokenValue`.
- `arraysInObjects` inverts the closing brace only after an `ArrayExpression`, never after an `ArrayPattern`.
- The closing brace's inversion needs two things, both checked: the watched closer before `}`, and the node type found at it.
  `ObjectCurlySpacing.ClosingInverts` states this.
  `NestedExceptionByShape` relates it to the per-closer description.
