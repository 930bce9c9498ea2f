# E++ block-balance linter, modelled in Dafny

The E++ extension for VS Code lints E++ documents in `updateDiagnostics`
(`out/extension.js`). For a document whose language is `epp`, it does the following:

1. It splits the text into lines on `\r?\n`.
2. It trims each line and lower-cases it.
3. It passes over blank lines, `//` comments and `note` lines.
4. It tests each remaining line against an opener pattern and a closer pattern.
5. It moves a counter `blocks` up on an opener match and down on a closer match.
6. It publishes the document's diagnostics, which are always an empty list. That list replaces whatever the collection held for the document's URI.

The counter is computed and never used, so the linter reports nothing.

The code keeps no stack of open blocks and reports no Error or Warning diagnostics. It also has:

- no `else` or `otherwise` exclusions;
- no stripping of a trailing `.`;
- no priority between the two patterns.

A line is tested against both patterns. A line that matches both moves the counter up and then down again.

Modules:

- `Text` (`text.dfy`): `trim` over the ECMAScript whitespace and line-terminator set, and ASCII `toLowerCase`.
- `Lines` (`lines.dfy`): `split(/\r?\n/)` and its partner `join("\n")`.
- `WordRegex` (`regex.dfy`): patterns of the shape `\b(a1|…|an)\b`.
  - Each alternative is either a literal or `head .* tail`.
  - `Matches` is the pattern's meaning. `Exec` is the leftmost-first search `String.prototype.match` performs.
  - `\b` and `\w` are ASCII, because the patterns have no flags.
  - `.` stops at line terminators.
- `Classify` (`classify.dfy`): the two patterns of the linter, the skip test, and each line's contribution `Delta` to the counter.
- `ClassifyExamples`, `ScanExamples` (`examples.dfy`): individual lines and a whole document, worked through the model.
- `BlockScan` (`scan.dfy`): the loop as the method `Scan`, and its specification `BlockCount` with the properties proved about it.
- `Diagnostics` (`diagnostics.dfy`): the diagnostic collection as a class whose `entries` map is updated in place, and `UpdateDiagnostics`.

What the model shows about the code:

- The counter equals the number of opener lines minus the number of closer lines.
- The counter ignores line order (`BlockScan.BlockCountPermutation`).
- Lines that normalise alike, position by position, give the same counter (`BlockScan.BlockCountByNormalForm`). This covers lines that differ only in padding or ASCII letter case (`Text.NormaliseIgnoresPadding`, `Text.NormaliseIgnoresCase`).
- `end while`, `end define`, `end function`, `end procedure` and `end try` contain an opener word after a word boundary. Each therefore matches both patterns and contributes 0. `endwhile` contributes −1.
  - As a result, the two-line document `while x.` / `end while.` leaves the counter at 1 (`ScanExamples.BalancedWhileLeavesOne`).
  - This would matter only if the counter were ever reported.

## Model

Which definition stands for which source expression:

- `Lines.SplitLines` is `text.split(/\r?\n/)` (`out/extension.js:98`). `Lines.IndexOf` and `Lines.LineBefore` are its helpers: they find the first `\n` and cut the line in front of it, without a `\r` that directly precedes it. `Lines.Join` is `lines.join("\n")`, the inverse the split round trip is stated against.
- `Text.Trim` is `trim()` and `Text.ToLower` is `toLowerCase()`. `Text.Normalise` is `lines[i].trim().toLowerCase()` (`out/extension.js:102`).
- `Classify.Skipped` is the test `!line || line.startsWith('//') || line.startsWith('note')` (`out/extension.js:103-104`).
- `Classify.OpenerAlts` and `Classify.CloserAlts` are the alternatives of the two regular expressions, in source order (`out/extension.js:106-107`).
- `WordRegex.Exec` is `line.match(re)`. `Classify.IsOpener` is the truthiness of `openMatch`, and `Classify.IsCloser` that of `closeMatch`.
- `Classify.Delta` is what one line's pass through the loop body adds to `blocks` (`out/extension.js:102-111`).
- `BlockScan.BlockCount` is the value of `blocks` after the loop has run over a list of lines (`out/extension.js:100-112`). `BlockScan.Scan` is the loop itself.
- `Diagnostics.Published` is the collection's content after `updateDiagnostics` (`out/extension.js:93-115`).

| member | source | states |
|---|---|---|
| Text.ToLowerChar | out/extension.js:102 | the result is never an ASCII capital; an ASCII capital becomes the letter whose code point is 32 higher (its lower-case form), every other character is kept |
| Text.ToLower | out/extension.js:102 | `toLowerCase` keeps the length and lower-cases each character independently |
| Text.TrimStartSpec | out/extension.js:102 | the leading trim leaves a suffix of the line, removes only whitespace, and leaves no leading whitespace |
| Text.TrimEndSpec | out/extension.js:102 | the trailing trim leaves a prefix of the line, removes only whitespace, and leaves no trailing whitespace |
| Text.TrimEndKeeps | out/extension.js:102 | the trailing trim keeps every character up to the last non-whitespace one |
| Text.TrimSpec | out/extension.js:102 | `trim()` is the slice of the line between a leading and a trailing whitespace run, and has whitespace at neither end |
| Text.NormaliseSpec | out/extension.js:102 | the normalised line is no longer than the raw line, holds no ASCII capital, and has whitespace at neither end |
| Text.TrimOfTrimmed | out/extension.js:102 | a string with no whitespace at either end is its own trim |
| Text.NormaliseFixed | out/extension.js:102 | a line already trimmed and lower-case is unchanged by normalisation |
| Text.NormaliseIdempotent | out/extension.js:102 | normalising twice equals normalising once |
| Text.TrimStartToLower | out/extension.js:102 | the leading trim commutes with lower-casing |
| Text.TrimEndToLower | out/extension.js:102 | the trailing trim commutes with lower-casing |
| Text.TrimToLower | out/extension.js:102 | `trim` commutes with `toLowerCase` |
| Text.NormaliseIgnoresCase | out/extension.js:102 | lines that agree up to ASCII letter case normalise to the same line |
| Text.TrimStartPadded | out/extension.js:102 | leading whitespace put in front of a line is removed by the leading trim |
| Text.TrimEndPadded | out/extension.js:102 | trailing whitespace put after a line is removed by the trailing trim |
| Text.TrimAppendPadded | out/extension.js:102 | trailing whitespace put after a line does not change its trim |
| Text.NormaliseIgnoresPadding | out/extension.js:102 | whitespace around a line does not change its normal form |
| Lines.IndexOf | out/extension.js:98 | the first `\n` of the text: the character is there and does not occur before it |
| Lines.SplitLines | out/extension.js:98 | `split(/\r?\n/)` gives at least one line, and no line holds a `\n`; where the lines end is stated by `Lines.SplitFirst` and `Lines.JoinSplit` |
| Lines.SplitFirst | out/extension.js:98 | a text with a `\n` is its first line, a `\n` or `\r\n` separator and the rest; the split of the rest is the tail of the split |
| Lines.LineCount | out/extension.js:98 | the number of lines is the number of `\n` characters plus one |
| Lines.Join | out/extension.js:98 | `join("\n")`, the inverse the split is proved against in `Lines.JoinSplit` and `Lines.SplitJoin`; its own contract only bounds the length (n lines give at least n − 1 characters) |
| Lines.CrLfToLf | out/extension.js:98 | the independent reference (every `\r\n` replaced by `\n`) that `Lines.JoinSplit` equates split-then-join with; its own contract only says it never lengthens the text |
| Lines.CrLfToLfPrefix | out/extension.js:98 | a line without `\n` and without a final `\r` is unchanged at the front of a CRLF conversion |
| Lines.CrLfToLfSeparator | out/extension.js:98 | either separator becomes a single `\n` |
| Lines.JoinSplit | out/extension.js:98 | joining the lines with `\n` rebuilds the text with every `\r\n` turned into `\n` |
| Lines.JoinCons | out/extension.js:98 | joining puts one `\n` between a line and the lines after it |
| Lines.CrLfToLfNoCr | out/extension.js:98 | a text without `\r` is unchanged by the CRLF conversion |
| Lines.NoCrJoinSplit | out/extension.js:98 | a text without `\r` is rebuilt exactly from its lines |
| Lines.SplitJoin | out/extension.js:98 | splitting undoes joining for lines without `\n` of which none but the last ends with `\r` |
| Lines.SplitCons | out/extension.js:98 | a line without `\n` and without a final `\r`, followed by `\n`, is the first line of the split |
| WordRegex.HasAtSlice | out/extension.js:106-107 | the character-by-character literal test agrees with slice equality |
| WordRegex.GapTailSpec | out/extension.js:106 | the greedy `.*` search returns the right-most tail end followed by `\b`, crossing no line terminator; none exists when it fails |
| WordRegex.AltEndSpec | out/extension.js:106-107 | trying one alternative at a position returns a match of it, the longest one; it fails only when it has none |
| WordRegex.GapEndSound | out/extension.js:106 | a `head .* tail` alternative that succeeds at a position has matched there, followed by `\b` |
| WordRegex.GapEndMaximal | out/extension.js:106 | every match of a `head .* tail` alternative at a position ends no later than the greedy one found there |
| WordRegex.FirstAltSpec | out/extension.js:106-107 | alternatives are tried in order: the end returned is that of the first alternative that matches, no earlier one matches, and failure means none matches |
| WordRegex.SearchFromSpec | out/extension.js:106-107 | the search returns a match at the left-most start position at or after its origin, and fails only when there is none |
| WordRegex.ExecSpec | out/extension.js:106-107 | `line.match(re)` is truthy exactly when the pattern occurs in the line, and then it is the left-most occurrence |
| WordRegex.WholeWordOnly | out/extension.js:106-107 | a line that is a single word matches exactly when it is one of the literal alternatives: words embedded in longer words do not match |
| WordRegex.FirstAltMiss | out/extension.js:106-107 | no alternative matches at a position whose character none of them starts with |
| WordRegex.FoundAt | out/extension.js:106-107 | any occurrence of an alternative between two word boundaries makes the match truthy |
| Classify.Delta | out/extension.js:103-111 | each line moves the counter by −1, 0 or 1: +1 exactly when it opens and does not close, −1 exactly when it closes and does not open, 0 when skipped |
| Classify.AltsAreWordShaped | out/extension.js:106-107 | every literal alternative of both patterns is non-empty, and both `.*` alternatives have a space in their head |
| Classify.CloserCannotStartAt | out/extension.js:107 | every closer word starts with `e` or `n`, so no closer match starts at another character |
| Classify.NotSkippedByFirst | out/extension.js:103-104 | a normalised line that starts with neither `/` nor `n` is never skipped |
| Classify.DeltaIgnoresCase | out/extension.js:102-111 | lines equal up to letter case contribute the same |
| Classify.DeltaIgnoresPadding | out/extension.js:102-111 | whitespace around a line does not change its contribution |
| Classify.BothPatternsCancel | out/extension.js:108-111 | a counted line that matches both patterns contributes 0 |
| Classify.MarkedLineSkipped | out/extension.js:103-104 | a line whose first non-blank characters are `//` or `note` is skipped and contributes 0, whatever follows |
| ClassifyExamples.IfThenOpens | out/extension.js:106 | `if x then.` opens |
| ClassifyExamples.IfWithoutThenDoesNotOpen | out/extension.js:106 | `if x` does not open |
| ClassifyExamples.EndIfOnlyCloses | out/extension.js:106-107 | `end if` closes and does not open |
| ClassifyExamples.SingleWordOpener | out/extension.js:106 | a one-word line opens exactly when it is `while`, `define`, `function`, `procedure` or `try` |
| ClassifyExamples.EntryDoesNotOpen | out/extension.js:106 | `entry` does not open, although it contains `try` |
| ClassifyExamples.UndefinedDoesNotOpen | out/extension.js:106 | `undefined` does not open, although it contains `define` |
| ClassifyExamples.MeanwhileDoesNotOpen | out/extension.js:106 | `meanwhile` does not open, although it contains `while` |
| ClassifyExamples.EndWhileIsNormal | out/extension.js:102-104 | `end while` is already normalised and is not skipped |
| ClassifyExamples.EndWhileMatchesBoth | out/extension.js:106-107 | `end while` matches both the opener and the closer pattern |
| ClassifyExamples.EndWhileContributesNothing | out/extension.js:102-111 | `end while` leaves the counter unchanged |
| ClassifyExamples.EndTryIsNormal | out/extension.js:102-104 | `end try` is already normalised and is not skipped |
| ClassifyExamples.EndTryMatchesBoth | out/extension.js:106-107 | `end try` matches both patterns |
| ClassifyExamples.EndTryContributesNothing | out/extension.js:102-111 | `end try` leaves the counter unchanged |
| ClassifyExamples.EndDefineIsNormal | out/extension.js:102-104 | `end define` is already normalised and is not skipped |
| ClassifyExamples.EndDefineMatchesBoth | out/extension.js:106-107 | `end define` holds `define` after a word boundary, so it matches both the opener and the closer pattern |
| ClassifyExamples.EndDefineContributesNothing | out/extension.js:102-111 | `end define` leaves the counter unchanged |
| ClassifyExamples.EndFunctionIsNormal | out/extension.js:102-104 | `end function` is already normalised and is not skipped |
| ClassifyExamples.EndFunctionMatchesBoth | out/extension.js:106-107 | `end function` holds `function` after a word boundary, so it matches both the opener and the closer pattern |
| ClassifyExamples.EndFunctionContributesNothing | out/extension.js:102-111 | `end function` leaves the counter unchanged |
| ClassifyExamples.EndProcedureIsNormal | out/extension.js:102-104 | `end procedure` is already normalised and is not skipped |
| ClassifyExamples.EndProcedureMatchesBoth | out/extension.js:106-107 | `end procedure` holds `procedure` after a word boundary, so it matches both the opener and the closer pattern |
| ClassifyExamples.EndProcedureContributesNothing | out/extension.js:102-111 | `end procedure` leaves the counter unchanged |
| ClassifyExamples.EndwhileIsNormal | out/extension.js:102-104 | `endwhile` is already normalised and is not skipped |
| ClassifyExamples.EndwhileOnlyCloses | out/extension.js:106-107 | `endwhile` closes and does not open |
| ClassifyExamples.EndwhileCloses | out/extension.js:102-111 | `endwhile` takes one off the counter |
| ClassifyExamples.ForEachOpens | out/extension.js:106 | `for each item in list` opens |
| ClassifyExamples.ForWithoutWordDoesNotOpen | out/extension.js:106 | `for  x` (two spaces) does not open: `for ` must be followed by a word character |
| ClassifyExamples.EndForOnlyCloses | out/extension.js:106-107 | `end for` closes and does not open |
| ClassifyExamples.PaddedEndWhileContributesNothing | out/extension.js:102-111 | `end while` in any letter case and with any whitespace padding leaves the counter unchanged |
| BlockScan.BlockCountIsOpenersMinusClosers | out/extension.js:100-112 | the counter ends at the number of opener lines minus the number of closer lines |
| BlockScan.BlockCountAppend | out/extension.js:100-112 | the count over two consecutive runs of lines is the sum of their counts |
| BlockScan.BlockCountPermutation | out/extension.js:100-112 | any reordering of the lines leaves the final counter unchanged |
| BlockScan.BlockCountByNormalForm | out/extension.js:100-112 | two lists of lines that normalise alike, position by position, end with the same counter |
| BlockScan.SkippedLineIsNeutral | out/extension.js:103-104 | inserting a blank, `//` or `note` line anywhere leaves the counter unchanged |
| BlockScan.BlockCountBound | out/extension.js:100-112 | the absolute value of the counter is at most the number of counted lines, which is at most the number of lines |
| BlockScan.Scan | out/extension.js:97-112 | the loop ends with `blocks` equal to the count over the split lines, which is openers minus closers and bounded by the line count |
| ScanExamples.WhileLineIsNormal | out/extension.js:102-104 | `while x.` is already normalised and is not skipped |
| ScanExamples.WhileLineOnlyOpens | out/extension.js:106-107 | `while x.` opens and does not close |
| ScanExamples.WhileLineOpens | out/extension.js:102-111 | `while x.` adds one to the counter |
| ScanExamples.EndWhileLineIsNormal | out/extension.js:102-104 | `end while.` is already normalised and is not skipped |
| ScanExamples.EndWhileLineMatchesBoth | out/extension.js:106-107 | `end while.` matches both patterns |
| ScanExamples.EndWhileLineCancels | out/extension.js:102-111 | `end while.` leaves the counter unchanged |
| ScanExamples.WhileDocumentLines | out/extension.js:98 | the document `while x.\nend while.` splits into its two lines |
| ScanExamples.TwoLineCount | out/extension.js:100-112 | the counter over two lines is the sum of their contributions |
| ScanExamples.BalancedWhileLeavesOne | out/extension.js:97-112 | a `while` block closed by `end while` leaves the counter at 1 |
| Diagnostics.DiagnosticCollection.constructor | out/extension.js:92 | a new collection has the given name and no entries |
| Diagnostics.DiagnosticCollection.Set | out/extension.js:115 | `set(uri, diagnostics)` replaces that URI's list wholesale and changes no other entry |
| Diagnostics.Published | out/extension.js:93-115 | a non-`epp` document leaves the entries unchanged; an `epp` document's URI gets the empty list; no other URI is touched |
| Diagnostics.PublishedIdempotent | out/extension.js:93-115 | running the linter twice on a document publishes the same as running it once |
| Diagnostics.PublishedIgnoresText | out/extension.js:93-115 | what is published depends on the document's URI and language, not on its text |
| Diagnostics.PublishedCommutes | out/extension.js:93-115 | linting any two documents in either order gives the same entries |
| Diagnostics.UpdateDiagnostics | out/extension.js:93-115 | the collection afterwards holds exactly `Published` of its former entries and the document |

## Left out

- The `epp.run` command (`out/extension.js:10`) is not modelled. It launches a terminal process.
- The hover provider (`out/extension.js:34`) and the completion provider (`out/extension.js:67`) are not modelled. They are keyword lookup tables served through VS Code APIs.
- `activate`, `deactivate` and the wiring of `updateDiagnostics` to the open and save events and to the active editor (`out/extension.js:117-121`) are not modelled. These are event registration and calls into VS Code.
- `Diagnostics.DiagnosticCollection` stands in for the VS Code diagnostic collection. It keeps only the map from URI to diagnostic list. The diagnostic type is a type parameter, because the linter never builds a diagnostic.
- `document.getText()` is the `text` field of `TextDocument`.
- `Text.ToLower`: lower-cases ASCII letters only. JavaScript's `toLowerCase` also maps non-ASCII capitals, for example the Kelvin sign to `k`. A non-ASCII line that lower-cases into an opener or closer word is therefore classified differently here.
- Characters are Unicode scalar values, while JavaScript strings are UTF-16 code units. Neither pattern nor the whitespace set involves surrogates, so this changes no classification.
- `WordRegex` is not a general regular-expression engine. It covers only the shape the two patterns of the linter have.
- `BlockScan.Scan` returns the final counter so that it can be specified. The source keeps the counter in a local variable and drops it.
