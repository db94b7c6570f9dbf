# golangci-lint quick-fixes: a Dafny model

This project models the part of the IntelliJ golangci-lint plugin that turns
one golangci-lint issue into quick-fixes: the per-linter handlers of
`GoLinterQuickFix.kt`, the message mini-parsers they use, and the
`quickFixHandler` map from linter names to handlers. The map is where a
caller looks up the handler for an issue, and `DefaultHandler` is the one a
linter without an entry is meant to get; that lookup itself is outside
`GoLinterQuickFix.kt` and is modelled as `Registry.HandlerFor`.

The editor's syntax tree and document are abstract, in-memory values:

- A document is a sequence of lines with their start and end offsets.
- The file maps an offset to the element `findElementAt` returns there.
- A node has a kind, a text, a range and its chain of ancestors. The kind
  carries the sub-nodes a handler reads: an identifier, a type signature,
  the case clauses and the condition of a switch.

A handler's result is one of three outcomes (`QuickFix.Outcome`):

- `NonAvailable` is the plugin's `NonAvailableFix`.
- `RangeOnly(range)` is `EmptyLocalQuickFix` with a range that may be absent.
- `Fixes(fixes, range)` is an array of quick-fixes with an optional range.

A fix is a description named after the quick-fix class that would carry it
out. Applying it is the editor's job.

The tree search `chainFindAndHandle` is not part of this model. A handler that
uses it takes the search result as the input `found`. That is the node of the
handler's kind nearest to the issue, or `None`. When the search fails, the
handler answers `NonAvailable`. `calcPos` (NlReturn's highlight offset) is an
input offset too. `ProblemHandler.FuncLinters` is the parameter `funcLinters`
of the registry. The model takes every line number, the issue's included,
as a 0-based document line; any offset between the lines golangci-lint
reports and the document's is part of the drift, which the handlers add
before reading a line. The drift
`overrideLine - Pos.Line` is `Lint.Shift`.

Modules: `Wrappers` (Option), `Lint` (the issue record), `Psi` (tree and
document), `QuickFix` (fixes and outcomes), `Messages` (message parsing),
`Handlers` (one member per handler), `Registry` (the linter-to-handler map).

Some behaviour of the code that the model keeps as written:

- UnparamHandler with no enclosing function declaration is range-only, not "not found".
- WhitespaceHandler with nothing removable in a reported range is `NonAvailable`,
  not range-only.
- The exhaustive label starts two characters after the first `:`, whatever those
  characters are. When the message has no `:`, the label is the message minus its
  first character.
- A failed message parse is not always folded into "not found". The backtick name
  parser never fails. The exhaustive label read throws where the start of the
  substring is past the end of the message; the model turns that into a
  precondition.

## Model

| member | source | states |
|---|---|---|
| `Lint.Shift` | src/main/kotlin/com/ypwang/plugin/GoLinterQuickFix.kt:55 | the drift carries the reported line onto the caller's line |
| `Messages.LastIndexOf` | src/main/kotlin/com/ypwang/plugin/GoLinterQuickFix.kt:29 | -1 exactly when the character is absent; otherwise a position holding it with none after it |
| `Messages.IndexOf` | src/main/kotlin/com/ypwang/plugin/GoLinterQuickFix.kt:111 | -1 exactly when the character is absent; otherwise a position holding it with none before it |
| `Messages.LeadingCount` | src/main/kotlin/com/ypwang/plugin/GoLinterQuickFix.kt:29 | the length of the longest prefix made only of the trimmed character |
| `Messages.TrailingCount` | src/main/kotlin/com/ypwang/plugin/GoLinterQuickFix.kt:29 | the length of the longest suffix made only of the trimmed character |
| `Messages.Trim` | src/main/kotlin/com/ypwang/plugin/GoLinterQuickFix.kt:29 | a contiguous part of the input; everything cut away on either side is the trimmed character; the result neither starts nor ends with it |
| `Messages.TrimKeepsAbsent` | src/main/kotlin/com/ypwang/plugin/GoLinterQuickFix.kt:29 | trimming introduces no character that was not in the input |
| `Messages.QuotedName` | src/main/kotlin/com/ypwang/plugin/GoLinterQuickFix.kt:29 | the extracted name has no space and no backtick at either end; it is the part after the last space with its backticks trimmed, and with no space in the message it is the whole message trimmed |
| `Messages.TrimQuoted` | src/main/kotlin/com/ypwang/plugin/GoLinterQuickFix.kt:29 | trimming leaves a name without backticks at its ends unchanged and strips one pair of backticks around it |
| `Messages.QuotedNameOfQuoted` | src/main/kotlin/com/ypwang/plugin/GoLinterQuickFix.kt:29 | a message ending in a space and a backtick-quoted name yields exactly that name |
| `Messages.QuotedNameOfBare` | src/main/kotlin/com/ypwang/plugin/GoLinterQuickFix.kt:44 | a message ending in a space and an unquoted name yields exactly that name |
| `Messages.CaseLabel` | src/main/kotlin/com/ypwang/plugin/GoLinterQuickFix.kt:111 | the label is the rest of the message from two characters after the first colon; absent exactly when that start is past the end; with no colon it is the message without its first character |
| `Messages.CaseLabelOf` | src/main/kotlin/com/ypwang/plugin/GoLinterQuickFix.kt:111 | a message whose first colon is followed by a space and a label yields that label |
| `Messages.TestPackageName` | src/main/kotlin/com/ypwang/plugin/GoLinterQuickFix.kt:95 | the new package name is the old one followed by `_test` |
| `Messages.PrintfFuncName` | src/main/kotlin/com/ypwang/plugin/GoLinterQuickFix.kt:102 | the new function name is the old one followed by `f` |
| `Handlers.Default` | src/main/kotlin/com/ypwang/plugin/GoLinterQuickFix.kt:21-23 | always NonAvailable |
| `Handlers.IneffAssign` | src/main/kotlin/com/ypwang/plugin/GoLinterQuickFix.kt:25-37 | a fix exactly when a reference was found whose text equals the name the message ends with; then one rename-to-blank fix on it, with the identifier's range; otherwise NonAvailable |
| `Handlers.IneffAssignQuoted` | src/main/kotlin/com/ypwang/plugin/GoLinterQuickFix.kt:29-35 | with a message ending in `` `x` ``: the rename fix when the reference reads `x`, NonAvailable when it reads anything else |
| `Handlers.Interfacer` | src/main/kotlin/com/ypwang/plugin/GoLinterQuickFix.kt:39-48 | NonAvailable exactly when no parameter was found; otherwise one replace-type fix with the type named last in the message, highlighting the type signature |
| `Handlers.InterfacerQuoted` | src/main/kotlin/com/ypwang/plugin/GoLinterQuickFix.kt:44 | a message ending in `` `T` `` makes the fix replace the parameter's type by `T` |
| `Handlers.BlankLineElement` | src/main/kotlin/com/ypwang/plugin/GoLinterQuickFix.kt:64-65 | the element at the start of a blank line is whitespace made only of line feeds |
| `Handlers.BlankLinesExactly` | src/main/kotlin/com/ypwang/plugin/GoLinterQuickFix.kt:57-67 | the lines the scan takes from are exactly the live lines in the moved range that are empty and start with line-feed-only whitespace, in strictly descending order |
| `Handlers.CollectWhitespace` | src/main/kotlin/com/ypwang/plugin/GoLinterQuickFix.kt:57-68 | at most one element per line of the range, and every collected element is whitespace made only of newlines |
| `Handlers.CollectWhitespaceIsBlankLineElements` | src/main/kotlin/com/ypwang/plugin/GoLinterQuickFix.kt:57-67 | the collected elements are, one for one and in the same order, the elements at the start of those lines |
| `Handlers.CollectWhitespaceDrift` | src/main/kotlin/com/ypwang/plugin/GoLinterQuickFix.kt:55-58 | moving the reported range by d and the drift by -d collects the same elements: only live lines matter |
| `Handlers.Whitespace` | src/main/kotlin/com/ypwang/plugin/GoLinterQuickFix.kt:50-75 | the downward loop collects exactly the specified elements; the result is one delete fix over them with the range from the start of the first moved line to the end of the last, or NonAvailable when nothing was collected; a missing line range is excluded by precondition |
| `Handlers.NothingCollectedIffNoBlankLine` | src/main/kotlin/com/ypwang/plugin/GoLinterQuickFix.kt:62-72 | the scan collects nothing exactly when no moved line in the range is blank |
| `Handlers.WhitespaceOutcome` | src/main/kotlin/com/ypwang/plugin/GoLinterQuickFix.kt:70-74 | never range-only; NonAvailable exactly when nothing was collected; otherwise a single "Remove whitespace" deletion of the collected elements, ranged from the start of the first moved line to the end of the last |
| `Handlers.WhitespaceOutcomeMeaning` | src/main/kotlin/com/ypwang/plugin/GoLinterQuickFix.kt:70-74 | NonAvailable exactly when no moved line in the range is blank, even though a range was reported; otherwise a single deletion of the collected elements with the full line span as range |
| `Handlers.TwoBlankLines` | src/main/kotlin/com/ypwang/plugin/GoLinterQuickFix.kt:57-72 | lines "a", "", "", "b" with two line-feed elements: both are deleted, the lower line's last, and the range runs from offset 2 to 3 |
| `Handlers.OneElementForTwoBlankLines` | src/main/kotlin/com/ypwang/plugin/GoLinterQuickFix.kt:57-72 | when one whitespace element covers both blank lines, it is collected once per line and so listed twice in the deletion |
| `Handlers.GoConst` | src/main/kotlin/com/ypwang/plugin/GoLinterQuickFix.kt:78-83 | NonAvailable exactly when no string literal was found; otherwise one introduce-constant fix for its text, highlighting the literal |
| `Handlers.GoDot` | src/main/kotlin/com/ypwang/plugin/GoLinterQuickFix.kt:85-90 | NonAvailable exactly when no comment was found; otherwise one fix on it, highlighting the comment |
| `Handlers.TestPackage` | src/main/kotlin/com/ypwang/plugin/GoLinterQuickFix.kt:92-97 | NonAvailable exactly when no package clause was found; otherwise one rename to the name with `_test` appended, highlighting the name only |
| `Handlers.GoPrintfFuncName` | src/main/kotlin/com/ypwang/plugin/GoLinterQuickFix.kt:99-104 | NonAvailable exactly when no function was found; otherwise one rename to the name with `f` appended, highlighting the name only |
| `Handlers.Exhaustive` | src/main/kotlin/com/ypwang/plugin/GoLinterQuickFix.kt:106-119 | a fix exactly when the last case clause is not `default`: one add-case fix with the label from the message; otherwise range-only; the range is always the condition's, possibly absent |
| `Handlers.ExhaustiveAfterInsert` | src/main/kotlin/com/ypwang/plugin/GoLinterQuickFix.kt:109-117 | for a message "prefix: L", a switch ending in an ordinary clause gets the case L, and the same switch ending in `default` gets only its range |
| `Handlers.NlReturn` | src/main/kotlin/com/ypwang/plugin/GoLinterQuickFix.kt:121-134 | a fix exactly when the element at the start of the live line is whitespace: insert a new line before it, highlighting the element at `calcPos` if any; otherwise NonAvailable |
| `Handlers.ExplanationUrl` | src/main/kotlin/com/ypwang/plugin/GoLinterQuickFix.kt:139-159 | every URL but noctx's points into the plugin's explanation directory, noctx's does not, and each names a Markdown page |
| `Handlers.Explanation` | src/main/kotlin/com/ypwang/plugin/GoLinterQuickFix.kt:136-160 | exactly one explanation fix with the handler's fixed URL and no range, whatever the file, document, issue and line |
| `Handlers.Dupl` | src/main/kotlin/com/ypwang/plugin/GoLinterQuickFix.kt:162-171 | range-only, from the start to the end of the live line alone, whatever line range is reported |
| `Handlers.FirstFunctionIndex` | src/main/kotlin/com/ypwang/plugin/GoLinterQuickFix.kt:178 | no function or method declaration before the index; at the index, when it is inside the sequence, a declaration |
| `Handlers.EnclosingFunction` | src/main/kotlin/com/ypwang/plugin/GoLinterQuickFix.kt:177-179 | no node gives no function; a function found is a function or method declaration among the node and its ancestors |
| `Handlers.EnclosingFunctionIsFirst` | src/main/kotlin/com/ypwang/plugin/GoLinterQuickFix.kt:177-179 | the walk up the parents yields the first function or method declaration among the node and its ancestors, or nothing when there is none |
| `Handlers.FindEnclosingFunction` | src/main/kotlin/com/ypwang/plugin/GoLinterQuickFix.kt:177-179 | the `while` loop over the parent chain computes that walk |
| `Handlers.Unparam` | src/main/kotlin/com/ypwang/plugin/GoLinterQuickFix.kt:173-184 | NonAvailable exactly when no parameter was found; otherwise a nolint fix for `unparam` on the enclosing function exactly when there is one, range-only otherwise, and the parameter's own range either way |
| `Handlers.GoMnd` | src/main/kotlin/com/ypwang/plugin/GoLinterQuickFix.kt:186-191 | NonAvailable exactly when no literal was found; otherwise range-only with the literal's range |
| `Handlers.FuncNoLint` | src/main/kotlin/com/ypwang/plugin/GoLinterQuickFix.kt:193-199 | NonAvailable exactly when no function was found; otherwise one nolint fix for the given linter on it, with no range |
| `Registry.LiteralEntriesKeys` | src/main/kotlin/com/ypwang/plugin/GoLinterQuickFix.kt:203-225 | the literal map has no entry for `exhaustive` (commented out at line 220) and none for an unused-symbol linter, so the `putAll` at line 227 only adds keys |
| `Registry.FuncNoLintEntries` | src/main/kotlin/com/ypwang/plugin/GoLinterQuickFix.kt:228 | every function linter is a key, and each maps to the nolint handler for that same name |
| `Registry.PutAllNamedElement` | src/main/kotlin/com/ypwang/plugin/GoLinterQuickFix.kt:227 | after the loop the four unused-symbol linters map to the shared handler and every other key keeps its handler |
| `Registry.PutAllFuncNoLint` | src/main/kotlin/com/ypwang/plugin/GoLinterQuickFix.kt:228 | after the loop each function linter maps to its own nolint handler, replacing any earlier entry |
| `Registry.BuildQuickFixHandler` | src/main/kotlin/com/ypwang/plugin/GoLinterQuickFix.kt:202-229 | the mutable construction yields the registry: the literal entries, overwritten by the unused-symbol linters, overwritten by the function linters |
| `Registry.HandlerFor` | src/main/kotlin/com/ypwang/plugin/GoLinterQuickFix.kt:21-23 | the assumed lookup: a linter with an entry gets its handler, any other gets `DefaultHandler` |
| `Registry.QuickFixHandler` | src/main/kotlin/com/ypwang/plugin/GoLinterQuickFix.kt:202-229 | the keys are the literal, unused-symbol and function linters; every function linter maps to its own nolint handler; an unused-symbol linter that is not a function linter maps to the shared handler |
| `Registry.QuickFixHandlerEntries` | src/main/kotlin/com/ypwang/plugin/GoLinterQuickFix.kt:202-229 | the keys are the literal, unused-symbol and function linters; function linters win over both others, unused-symbol linters over literal entries |
| `Registry.ExhaustiveIsExcluded` | src/main/kotlin/com/ypwang/plugin/GoLinterQuickFix.kt:220 | `exhaustive` is not a key unless it is a function linter, so its issues get the default handler |
| `Registry.UnusedLintersShareHandler` | src/main/kotlin/com/ypwang/plugin/GoLinterQuickFix.kt:227-228 | structcheck, varcheck, deadcode and unused are served by one and the same handler when none of them is a function linter; line 228 replaces any that is |
| `Registry.FuncLinterHandlerNamesItself` | src/main/kotlin/com/ypwang/plugin/GoLinterQuickFix.kt:228 | a function linter's handler is the nolint handler for that same name |
| `Registry.UnknownLinterGetsDefault` | src/main/kotlin/com/ypwang/plugin/GoLinterQuickFix.kt:21-23 | a linter without an entry is given the default handler |

## Left out

- The tree search `chainFindAndHandle` and `calcPos` are not part of this model. Their results are inputs. The model assumes a failed search yields NonAvailable.
- GoCriticHandler, GolintHandler, MalignedHandler, StyleCheckHandler, StaticCheckHandler, GoSimpleHandler and NamedElementHandler are not part of this model. The registry only names them.
- The contents of `ProblemHandler.FuncLinters` are not part of this model. They are a parameter.
- What each quick-fix does to the document is left out. This covers renaming, introducing a constant, deleting elements, adding a case, inserting a new line or a comment, and opening an explanation URL. These are the editor's applier or browser I/O. Only the fix's description and the URL string are modelled.
- `TextRange` is a plain pair of offsets. Its own check that start is not after end is left out, as is the editor's API in general.
- PsiWhiteSpace and PsiWhiteSpaceImpl are one node kind, since the handlers only test for whitespace.
- The document's line accessors throw for a line outside the document. The handlers that read lines (Whitespace, NlReturn, Dupl) therefore require their lines to be valid.
- Handlers.TestPackage, Handlers.GoPrintfFuncName: the source dereferences the identifier with `!!`, so a nameless clause or function is excluded by precondition.
- Handlers.Exhaustive: two cases that throw in the source are excluded by precondition. One is a switch with no case clauses (`last()`). The other is a message whose `indexOf(':') + 2` lies past its end (`substring`).
- Handlers.GoConst: the cast `file as GoFile` is not modelled. The fix records only the literal's text.
- Handlers.Dupl, Handlers.Whitespace: the `assert` on the line range is a precondition, not a runtime check.
- Registry.HandlerFor: the lookup of an issue's handler in `quickFixHandler`, with `DefaultHandler` for a linter without an entry, happens in a caller outside `GoLinterQuickFix.kt`. That file is not part of this model, so the lookup is an assumption, and so are the lemmas stated through it.
- Messages.CaseLabel: Dafny strings are sequences of Unicode code points, while Kotlin's `indexOf` and `substring` count UTF-16 code units. Skipping two units after the colon is the same as skipping two characters only when the character after the colon lies inside the Basic Multilingual Plane. For example, for ":\U{1F600}ab" Kotlin's `indexOf(':') + 2` lands inside the surrogate pair and keeps a lone low surrogate before "ab", while the model gives "ab". The other parsers cut right after the character they search for, so their results do not depend on the encoding.
- Handlers.FuncNoLint: each registry entry creates its own handler object. The model identifies two handlers for the same linter, because they behave alike.
