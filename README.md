# Quanta CSS build core, modelled in Dafny

This project models the two scripts that build the Quanta CSS framework.

- `assets/quanta-css/build.js` is the aggregator. It has three parts.
  - It splits each source stylesheet into blocks, line by line (`parseCSS`). A block is a comment, an `@import`, an at-rule or a rule.
  - It concatenates a list of files. Repeated files, repeated blocks and rules with an empty body are dropped (`buildAndDedupe`, `isEmptyRule`).
  - It writes three bundles (utilities, components, the full framework) and a regex-minified copy of the full framework (`minifyCSS`).
- `assets/quanta-css/tools/variants-generator.js` is the variant expander. It reads every one-line class rule `.cls { body }` of the utilities' base sheet.
  - It emits twelve base variants: plain, the four states, group-hover, each light and dark.
  - It emits six variants per rule and per breakpoint into light and dark buffers. Those become ten `@media (min-width: …)` blocks.
  - It records a style map from `cls` with `-` turned into `_` to the rule's declarations, with camel-cased property names.

The modules follow the scripts:

| module | file | models |
|---|---|---|
| `Wrappers` | wrappers.dfy | `Option` |
| `Text` | text.dfy | the JavaScript string operations the scripts use: `trim` (JavaScript's whitespace set, Unicode spaces included), `includes`, `startsWith`, `indexOf`, `lastIndexOf`, `slice` with negative and clamped bounds, `split`, `join`, `split(/\r?\n/)` |
| `Comments` | comments.dfy | the two comment-stripping regular expressions (lazy `/*…*/`, and `//` to the end of the line) |
| `EmptyRule` | emptyrule.dfy | `isEmptyRule` |
| `Scanner` | scanner.dfy | `parseCSS`: a specification function `Parse`, and the loop proved equal to it |
| `Dedupe` | dedupe.dfy | `buildAndDedupe` over a file system given as a map |
| `Minify` | minify.dfy | `minifyCSS` as a pipeline of string rewrites |
| `Bundles` | bundles.dfy | the file lists, the exclusion filter and the three builds plus minification |
| `StyleMap` | stylemap.dfy | the style-map entry of one rule: the key, the camel-casing, the property bag |
| `Variants` | variants.dfy | the generator: rule recognition, emission, media blocks, final CSS, style map |
| `VariantCases` | cases.dfy | the generator's output for the `.btn` and `.btn-primary` examples |

Each loop of the scripts is a method whose postcondition ties its result to a specification function of its inputs. The properties the scripts promise are then proved about those functions:

- the scanner loses no non-blank character;
- dedupe keeps the first occurrence of each key, and the count it reports is the number of blocks written;
- minified output has no newline, no whitespace run and no space around `{ } : ; ,`;
- the generator's output layout is as described above;
- a printed base rule is recognised again as the same rule.

Behaviour of the code worth knowing, each stated by a lemma:

- **One-line rules are not deduplicated.** The brace count closes a block only on a line that has `}` but no `{` (`Scanner.CloseBranch`). An `@import` line or an at-rule line also flushes the pending block (`Scanner.ImportBranch`, `Scanner.AtRuleBranch`), and so does the end of the input (`Scanner.Parse`). A one-line rule has both braces, so it leaves its block open, and consecutive one-line rules pile up in that block (`Scanner.OneLineRuleStaysOpen`). A file holding `.x { color: red; }` twice, with a blank line between, parses to a single block (`Scanner.RepeatedOneLineRule`) and is written out with both copies (`Dedupe.RepeatedRuleWrittenTwice`). Deduplication only ever compares whole blocks.
- **Closing braces are counted only on lines without `{`.** Among the lines the brace count looks at (those outside a comment that are not `@import` lines), a rule or at-rule line holding both braces is counted by its `{` alone (`Scanner.OpenBranch`, `Scanner.AtRuleBranch`). Lines inside a comment and `@import` lines count neither brace (`Scanner.CommentBranch`, `Scanner.ImportBranch`).
- **Minifying twice can change the text again.** Minifying `a{b:c;;}` gives `a{b:c;}`, and minifying that again gives `a{b:c}` (`Minify.MinifyTwiceDiffers`). Idempotence holds only under the conditions of `Minify.MinifyIdempotent`.
- **The `color-tokens.css` exclusion never applies.** The file lives under `src/tokens/`, and the filter tests for `/components/` (`Bundles.ColorTokensKept`). Path dedupe hides the consequence.
- **A declaration's value stops at the second `:`.** It is the text between the first and the second colon, so a value holding a colon of its own is cut (`StyleMap.ValueStopsAtSecondColon`).
- **A base-rule line needs only `{`.** A line with no `}` is still recognised, and its body loses its last character (`Variants.RecognizeBody`).
- **Style-map keys collide.** Class names that differ only in `-` versus `_` share a key, and the later rule replaces the earlier rule's whole bag (`Variants.JsKeyMerges`, `Variants.StylesLastWins`).
- **The empty-rule test looks at one body only.** `isEmptyRule` looks at a single body: it starts at the first `{` that has a character other than `{` directly before it and a `}` somewhere after it, and runs to the next `}` (`EmptyRule.BodyShape`). In `{a}{b}` the body found is `b`, not `a` (`EmptyRule.LeadingBraceSkipped`).

## Model

| member | source | states |
|---|---|---|
| `Text.Slice` | assets/quanta-css/tools/variants-generator.js:45 | the result is the clamped slice of JavaScript's `slice`: negative bounds count from the end, and an empty range gives `""` |
| `Text.IndexOf` | assets/quanta-css/tools/variants-generator.js:45 | -1 exactly when the character is absent, else the first position holding it |
| `Text.LastIndexOf` | assets/quanta-css/tools/variants-generator.js:45 | -1 exactly when the character is absent, else the last position holding it |
| `Text.Split` | assets/quanta-css/tools/variants-generator.js:50 | one piece per separator plus one, and no piece contains the separator |
| `Text.JoinSplit` | assets/quanta-css/tools/variants-generator.js:50 | joining the pieces of a split with the separator gives back the string |
| `Text.SplitLines` | assets/quanta-css/build.js:98 | one line per newline plus one, none containing a newline |
| `Text.TrimKeeps` | assets/quanta-css/build.js:102 | trimming keeps every non-blank character, adds none, and gives `""` exactly for blank strings |
| `Text.TrimOfTrimmed` | assets/quanta-css/build.js:160 | trimming an already trimmed string changes nothing |
| `Text.InkSplitLines` | assets/quanta-css/build.js:98 | splitting into lines loses no non-blank character |
| `Comments.StripBlockComments` | assets/quanta-css/build.js:91 | definition: each `/*` up to the first `*/` after it is deleted, and an unclosed `/*` is kept as text |
| `Comments.StripLineComments` | assets/quanta-css/build.js:91 | definition: each `//` up to its line terminator is deleted |
| `Comments.CommentEnd` | assets/quanta-css/build.js:91 | the lazy `*?` match: the end of the first `*/`, or -1 when there is none |
| `Comments.StripBlockRemoves` | assets/quanta-css/build.js:91 | text before the first `/*` is kept, and the comment up to the first `*/` is removed |
| `Comments.StripBlockAtStart` | assets/quanta-css/build.js:91 | a comment at the start is removed entirely |
| `Comments.StripBlockKeeps` | assets/quanta-css/build.js:91 | a character that does not open a comment is kept |
| `Comments.StripBlockNone` | assets/quanta-css/build.js:91 | text with no `/*` is unchanged |
| `Comments.StripBlockChars` | assets/quanta-css/build.js:91 | stripping comments invents no character |
| `Comments.LineLength` | assets/quanta-css/build.js:91 | `.*` stops at the first line terminator |
| `Comments.StripLineNone` | assets/quanta-css/build.js:91 | text with no `//` is unchanged |
| `Comments.StripLineHead` | assets/quanta-css/build.js:91 | a `//` at the start is replaced by the line break that ends it, and any other first character is kept |
| `Comments.StripLineLeavesNone` | assets/quanta-css/build.js:91 | no `//` survives the global replacement |
| `Comments.StripLineKeepsBreaks` | assets/quanta-css/build.js:91 | the `m` flag keeps every newline |
| `Comments.StripLineChars` | assets/quanta-css/build.js:91 | stripping `//` comments invents no character |
| `EmptyRule.IsEmptyRule` | assets/quanta-css/build.js:90-94 | definition: after both comment removals, the first `[^{]+{([^}]*)}` match exists and its body trims to `""` |
| `EmptyRule.Cleaned` | assets/quanta-css/build.js:91 | definition: block comments removed, then line comments |
| `EmptyRule.Body` | assets/quanta-css/build.js:92 | definition: the group of the leftmost match of `[^{]+{([^}]*)}` |
| `EmptyRule.FindFrom` | assets/quanta-css/build.js:92 | the first occurrence of a character at or after a position, or -1 |
| `EmptyRule.BodyShape` | assets/quanta-css/build.js:92 | a matched body holds no `}` and sits between a `{` and a `}` that follow at least one non-`{` character |
| `EmptyRule.BodyFound` | assets/quanta-css/build.js:92 | for `pre{body}post` with no `{` in `pre` and no `}` in `body`, the match is `body` |
| `EmptyRule.LeadingBraceSkipped` | assets/quanta-css/build.js:92 | a `{` at the start of the text cannot open the body: in `{a}{b}` the body found is `b` |
| `EmptyRule.NeedsBraces` | assets/quanta-css/build.js:90-94 | a rule can only be empty when it has both a `{` and a `}` |
| `EmptyRule.NoCommentsCleaned` | assets/quanta-css/build.js:91 | a rule with no `/` is unchanged by comment removal |
| `EmptyRule.EmptyIffBlankBody` | assets/quanta-css/build.js:90-94 | without comments, a rule is empty exactly when its body is blank |
| `EmptyRule.CommentedCleaned` | assets/quanta-css/build.js:91 | removing a block comment from a body keeps the whitespace around it |
| `EmptyRule.CommentedBodyIsEmpty` | assets/quanta-css/build.js:90-94 | a body holding only whitespace and a comment counts as empty |
| `Scanner.Step` | assets/quanta-css/build.js:101-135 | definition: one line's update of the four scanner variables, branch by branch in the source's order |
| `Scanner.Run` | assets/quanta-css/build.js:101-136 | definition: `Step` folded over the lines from the initial state |
| `Scanner.Parse` | assets/quanta-css/build.js:96-140 | definition: `Run` over `split(/\r?\n/)`, then the final flush |
| `Scanner.ParseCss` | assets/quanta-css/build.js:96-140 | the loop's blocks are `Parse(content)`, the line-by-line scan followed by the final flush |
| `Scanner.ScanLine` | assets/quanta-css/build.js:101-135 | one iteration updates `current`, `type`, `brace` and `inComment` and emits blocks as one `Step` of the scan does |
| `Scanner.CommentBranch` | assets/quanta-css/build.js:103-108 | comment lines (open comment or `//`) are appended to the current block, whose type becomes `comment` if it had none |
| `Scanner.ImportBranch` | assets/quanta-css/build.js:110-113 | an `@import` line flushes the pending block, then emits itself trimmed as an import |
| `Scanner.AtRuleBranch` | assets/quanta-css/build.js:114-118 | an `@media`/`@keyframes`/`@supports`/`@font-face` line flushes, starts an at-rule block and adds its `{` count |
| `Scanner.OpenBranch` | assets/quanta-css/build.js:119-122 | a line with `{` is appended and adds its `{` count |
| `Scanner.CloseBranch` | assets/quanta-css/build.js:123-129 | a line with `}` but no `{` subtracts its `}` count and, at depth 0 or below, emits the trimmed block and resets |
| `Scanner.TextBranch` | assets/quanta-css/build.js:130-135 | other lines continue a typed block, or start a rule when not blank |
| `Scanner.RunAppend` | assets/quanta-css/build.js:101-136 | loop-proof helper: scanning one more line adds exactly one step's blocks |
| `Scanner.StepKeepsAll` | assets/quanta-css/build.js:101-136 | every branch loses no non-blank character and keeps every emitted block trimmed |
| `Scanner.RunKeeps` | assets/quanta-css/build.js:101-136 | emitted blocks plus the pending text hold all non-blank characters of the lines read; the blocks are trimmed; the imports are the `@import` lines outside comments |
| `Scanner.FlushKeeps` | assets/quanta-css/build.js:138 | the final flush keeps the pending text's non-blank characters and emits no import |
| `Scanner.ClosedBlockKeeps` | assets/quanta-css/build.js:127 | a closed block is the trimmed pending text and keeps its non-blank characters |
| `Scanner.ParseKeepsInk` | assets/quanta-css/build.js:96-140 | the blocks together hold exactly the file's non-blank characters, in order |
| `Scanner.ParseBlocksTrimmed` | assets/quanta-css/build.js:111-138 | every block's content is trimmed and not blank |
| `Scanner.ParseImports` | assets/quanta-css/build.js:110-113 | the import blocks are exactly the trimmed `@import` lines outside comments, in order |
| `Scanner.ImportLinesShape` | assets/quanta-css/build.js:110-112 | each import block starts with `@import` and spans one line |
| `Scanner.CommentLineAppends` | assets/quanta-css/build.js:103-108 | inside an open comment a line without `*/` is appended and emits nothing |
| `Scanner.OneLineRuleStaysOpen` | assets/quanta-css/build.js:119-122 | a one-line rule `x { … }` does not close the block: it is appended and the depth grows |
| `Scanner.RepeatedOneLineRule` | assets/quanta-css/build.js:96-140 | a trimmed one-line rule written twice with a blank line between parses to one rule block holding both copies |
| `Scanner.RunTwice` | assets/quanta-css/build.js:119-135 | after those three lines the block is still open, holding both copies, with twice the rule's `{` count |
| `Dedupe.Unique` | assets/quanta-css/build.js:145 | definition: the first occurrence of each path, in order |
| `Dedupe.Contents` | assets/quanta-css/build.js:150-157 | definition: the contents of the readable paths, in order |
| `Dedupe.AllBlocks` | assets/quanta-css/build.js:159 | definition: the parsed blocks of the files, file after file |
| `Dedupe.EntryOf` | assets/quanta-css/build.js:160-175 | definition: a block's key, its import-or-not kind, and whether it takes part |
| `Dedupe.Kept` | assets/quanta-css/build.js:160-176 | definition: the keys of the blocks that are first in their set |
| `Dedupe.Output` | assets/quanta-css/build.js:184 | definition: the kept keys of all files joined by a blank line |
| `Dedupe.UniqueDistinct` | assets/quanta-css/build.js:145 | `[...new Set(files)]` has no repeats and the same members |
| `Dedupe.UniqueOfDistinct` | assets/quanta-css/build.js:145 | a list without repeats is unchanged |
| `Dedupe.UniqueRepeat` | assets/quanta-css/build.js:145 | appending already listed files changes nothing |
| `Dedupe.RepeatedFilesIgnored` | assets/quanta-css/build.js:145-150 | listing a file again leaves the output unchanged |
| `Dedupe.ContentsStep` | assets/quanta-css/build.js:150-157 | loop-proof helper: a missing or unreadable file contributes nothing, and a readable one its content |
| `Dedupe.AllBlocksStep` | assets/quanta-css/build.js:159 | loop-proof helper: each file contributes its parsed blocks after those of earlier files |
| `Dedupe.Entries` | assets/quanta-css/build.js:159-161 | one dedupe entry per block, keyed by the trimmed content |
| `Dedupe.ParsedKeys` | assets/quanta-css/build.js:160-161 | a parsed block's key is its content and is never blank, so the `!key` guard never fires on parsed blocks |
| `Dedupe.SeenStep` | assets/quanta-css/build.js:162-175 | a block adds its key to the import set or to the shared rule set exactly when it takes part |
| `Dedupe.FirstAtLast` | assets/quanta-css/build.js:162-175 | a block is written exactly when it takes part and its key is not yet in its set |
| `Dedupe.KeptStep` | assets/quanta-css/build.js:162-175 | one block extends the output by its key or by nothing, and updates the two sets accordingly |
| `Dedupe.KeptCount` | assets/quanta-css/build.js:185 | the reported count `seenRules.size + seenImports.size` equals the number of blocks written |
| `Dedupe.KeptIsSeen` | assets/quanta-css/build.js:162-176 | a key is written exactly when it is in one of the two sets |
| `Dedupe.KeptOnce` | assets/quanta-css/build.js:162-176 | two written blocks of the same import-or-not kind have different keys |
| `Dedupe.EmptyRuleIgnored` | assets/quanta-css/build.js:172-175 | a rule or at-rule with an empty body is neither written nor recorded |
| `Dedupe.RepeatedKeyDropped` | assets/quanta-css/build.js:167-175 | a comment, rule or at-rule whose key was seen is not written again |
| `Dedupe.AddBlock` | assets/quanta-css/build.js:160-175 | the block step keeps the two sets and the result equal to their specification after one more entry |
| `Dedupe.AddBlocks` | assets/quanta-css/build.js:159-176 | the block loop of one file keeps the same correspondence |
| `Dedupe.AddFile` | assets/quanta-css/build.js:156-177 | reading one file keeps the sets and the result equal to the specification of the contents read |
| `Dedupe.BuildAndDedupe` | assets/quanta-css/build.js:142-189 | the written text is `Output(fs, files)`, the first-occurrence blocks joined by blank lines; `total` is the number of readable distinct files; the reported count is the number of blocks written |
| `Dedupe.SingleRuleFile` | assets/quanta-css/build.js:142-189 | a file that parses to one non-empty rule holding all its text is written out unchanged |
| `Dedupe.RepeatedRuleWrittenTwice` | assets/quanta-css/build.js:142-189 | a file with `.x { color: red; }` twice, separated by a blank line, is written out with both copies |
| `Minify.MinifyCss` | assets/quanta-css/build.js:191-203 | definition: the nine replacements and the `trim`, in the source's order |
| `Minify.RemoveNewlines` | assets/quanta-css/build.js:194 | definition: each `\n` goes, with one `\r` right before it |
| `Minify.Tighten` | assets/quanta-css/build.js:195-199 | definition: the whitespace on both sides of each occurrence of the character is deleted |
| `Minify.DropSemicolons` | assets/quanta-css/build.js:200 | definition: each `;}` becomes `}`, scanning left to right without overlap |
| `Minify.CollapseWs` | assets/quanta-css/build.js:201 | definition: each whitespace run becomes one space |
| `Minify.MinifyIsMinified` | assets/quanta-css/build.js:191-203 | the output is trimmed, has no newline and no whitespace run, uses only spaces, and has no space next to `{ } : ; ,` |
| `Minify.RemoveNewlinesNone` | assets/quanta-css/build.js:194 | no `\n` is left |
| `Minify.TightenTight` | assets/quanta-css/build.js:195-199 | `\s*c\s*` → `c` leaves no whitespace next to `c` |
| `Minify.TightenKeeps` | assets/quanta-css/build.js:195-199 | tightening around one character keeps the tightness around another |
| `Minify.DropSemicolonsKeeps` | assets/quanta-css/build.js:200 | `;}` → `}` keeps the tightness around the other characters |
| `Minify.CollapseWsRuns` | assets/quanta-css/build.js:201 | `\s+` → one space leaves no whitespace run and only spaces |
| `Minify.CollapseWsKeeps` | assets/quanta-css/build.js:201 | collapsing whitespace keeps the tightness around each character |
| `Minify.TrimKeepsShape` | assets/quanta-css/build.js:202 | the final `trim` keeps the minified shape |
| `Minify.MinifyNoOp` | assets/quanta-css/build.js:191-203 | minified text with no `/*` and no `;}` is unchanged |
| `Minify.MinifyIdempotent` | assets/quanta-css/build.js:191-203 | minifying twice gives the same text when the first result has no `/*` and no `;}` |
| `Minify.MinifyWithoutWs` | assets/quanta-css/build.js:191-203 | on text without whitespace or comments, minifying only drops semicolons before `}` |
| `Minify.MinifyTwiceDiffers` | assets/quanta-css/build.js:200 | `a{b:c;;}` minifies to `a{b:c;}`, which minifies to `a{b:c}` |
| `Bundles.Excluded` | assets/quanta-css/build.js:75 | definition: the path contains `/components/` followed by one of the four excluded names |
| `Bundles.DropExcluded` | assets/quanta-css/build.js:74-76 | the filter keeps exactly the listed files whose path has no `/components/<excluded name>` |
| `Bundles.DropExcludedPrefix` | assets/quanta-css/build.js:74-76 | the filter keeps the order |
| `Bundles.ResetExcluded` | assets/quanta-css/build.js:73-77 | `src/components/reset.css` is in the components bundle but not in the full framework |
| `Bundles.ColorTokensKept` | assets/quanta-css/build.js:73-77 | the tokens file escapes the exclusion and is in both lists of the full framework |
| `Bundles.Build` | assets/quanta-css/build.js:205-230 | the three bundles are the dedupe outputs of their lists, and the minified file is the full framework minified |
| `StyleMap.Camel` | assets/quanta-css/tools/variants-generator.js:53 | definition: each `-` followed by a lower-case ASCII letter becomes that letter in upper case |
| `StyleMap.DeclOf` | assets/quanta-css/tools/variants-generator.js:51-52 | definition: the trimmed text before the first `:` and the trimmed text between the first and second `:`, when both are non-empty |
| `StyleMap.Bag` | assets/quanta-css/tools/variants-generator.js:49-56 | definition: the declarations of `body.split(';')` in order, a later one replacing an earlier one with the same property |
| `StyleMap.JsKey` | assets/quanta-css/tools/variants-generator.js:48 | the key has the class's length, no `-`, and `_` wherever the class has `-` |
| `StyleMap.CamelHyphen` | assets/quanta-css/tools/variants-generator.js:53 | the first `-x` with a lower-case `x` becomes `X` |
| `StyleMap.CamelLeavesNone` | assets/quanta-css/tools/variants-generator.js:53 | no `-` followed by a lower-case letter remains |
| `StyleMap.CamelWithoutHyphen` | assets/quanta-css/tools/variants-generator.js:53 | a name with no `-` is unchanged |
| `StyleMap.KebabCamel` | assets/quanta-css/tools/variants-generator.js:53 | for names without capitals, turning each capital back into `-` plus lower case restores the property name |
| `StyleMap.PropertyBag` | assets/quanta-css/tools/variants-generator.js:49-56 | the loop over `body.split(';')` builds `Bag(body)` |
| `StyleMap.BagKeys` | assets/quanta-css/tools/variants-generator.js:50-56 | a property is in the bag exactly when some piece declares it |
| `StyleMap.BagLastWins` | assets/quanta-css/tools/variants-generator.js:50-56 | a repeated property keeps its last value |
| `StyleMap.OneColon` | assets/quanta-css/tools/variants-generator.js:51-55 | `prop: value` gives the camel-cased trimmed property and the trimmed value |
| `StyleMap.ValueStopsAtSecondColon` | assets/quanta-css/tools/variants-generator.js:51 | text after a second `:` is dropped from the value |
| `StyleMap.NoColonNoDecl` | assets/quanta-css/tools/variants-generator.js:51-52 | a piece with no `:` declares nothing |
| `Text.SplitFirst` | assets/quanta-css/tools/variants-generator.js:51 | the first piece of a split ends at the first separator |
| `StyleMap.BackgroundColorDecl` | assets/quanta-css/tools/variants-generator.js:50-55 | `background-color: blue` declares `backgroundColor` as `blue` |
| `StyleMap.BtnPrimaryBag` | assets/quanta-css/tools/variants-generator.js:50-56 | the body `background-color: blue;` yields the single entry `backgroundColor: blue` |
| `StyleMap.BtnPrimaryKey` | assets/quanta-css/tools/variants-generator.js:48 | `btn-primary` is keyed `btn_primary` |
| `Variants.Recognize` | assets/quanta-css/tools/variants-generator.js:38-45 | definition: the class and body of a trimmed line starting with `.` that holds `{`, or nothing |
| `Variants.RulesOf` | assets/quanta-css/tools/variants-generator.js:37-45 | definition: the recognised rules of the lines, in order |
| `Variants.LightRule` | assets/quanta-css/tools/variants-generator.js:59-83 | definition: the light template `.<scope><variant>cls<pseudo> { body }` |
| `Variants.DarkRule` | assets/quanta-css/tools/variants-generator.js:59-83 | definition: the dark template under `html[data-theme="dark"]` with `.dark-` |
| `Variants.BaseEntries` | assets/quanta-css/tools/variants-generator.js:58-70 | definition: the twelve base variants of one rule |
| `Variants.LightFor` | assets/quanta-css/tools/variants-generator.js:73-84 | definition: a breakpoint's light buffer after the given rules |
| `Variants.DarkFor` | assets/quanta-css/tools/variants-generator.js:73-84 | definition: a breakpoint's dark buffer after the given rules |
| `Variants.MediaBlock` | assets/quanta-css/tools/variants-generator.js:89-90 | definition: the query, a brace, the entries one per line, and a closing brace |
| `Variants.RespBlocks` | assets/quanta-css/tools/variants-generator.js:88-91 | definition: the light then the dark media block of each breakpoint |
| `Variants.FinalCss` | assets/quanta-css/tools/variants-generator.js:94 | definition: the base rules then the media blocks, joined by line feeds |
| `Variants.StylesOf` | assets/quanta-css/tools/variants-generator.js:47-56 | definition: each rule's key mapped to its bag, a later rule replacing an earlier one with the same key |
| `Variants.Generate` | assets/quanta-css/tools/variants-generator.js:13-94 | the generated CSS is `FinalCss` of the rules recognised in the source lines, and the style map is `StylesOf` those rules |
| `Variants.ProcessLine` | assets/quanta-css/tools/variants-generator.js:37-85 | a line that is not a base rule changes nothing, and a base rule appends its emissions |
| `Variants.EmitRule` | assets/quanta-css/tools/variants-generator.js:47-84 | one recognised rule updates the style map, the base rules and every breakpoint buffer |
| `Variants.EmitBase` | assets/quanta-css/tools/variants-generator.js:58-70 | the base rules grow by the rule's twelve light and dark variants |
| `Variants.EmitBreakpoint` | assets/quanta-css/tools/variants-generator.js:74-83 | one breakpoint's light and dark buffers each grow by the rule's six scoped variants |
| `Variants.EmitResponsive` | assets/quanta-css/tools/variants-generator.js:72-84 | every breakpoint's buffers hold the scoped variants of all rules so far, in order |
| `Variants.EmptyBuffers` | assets/quanta-css/tools/variants-generator.js:29-35 | every breakpoint starts with empty light and dark buffers |
| `Variants.MediaBlocks` | assets/quanta-css/tools/variants-generator.js:87-91 | the media blocks are `RespBlocks`: per breakpoint, a light block then a dark block |
| `Variants.RulesOfStep` | assets/quanta-css/tools/variants-generator.js:37-45 | loop-proof helper: each line contributes its recognised rule or nothing |
| `Variants.RuleFromLine` | assets/quanta-css/tools/variants-generator.js:37-45 | every collected rule comes from some line |
| `Variants.LineGivesRule` | assets/quanta-css/tools/variants-generator.js:37-45 | every recognised line's rule is collected |
| `Variants.NameLengthSpec` | assets/quanta-css/tools/variants-generator.js:41 | `[^\s{]+` takes the longest run of characters that are neither whitespace nor `{` |
| `Variants.RecognizeIff` | assets/quanta-css/tools/variants-generator.js:37-42 | a line is a base rule exactly when its trimmed text starts with `.`, the next character is neither whitespace nor `{`, and it contains `{` |
| `Variants.RecognizeClass` | assets/quanta-css/tools/variants-generator.js:41-44 | the class is a non-empty name right after the `.`, ended by whitespace or `{` |
| `Variants.RecognizeBody` | assets/quanta-css/tools/variants-generator.js:45 | the body is the trimmed text between the first `{` and the last `}`; with no `}` the slice stops one before the end; with the last `}` before the `{` it is `""` |
| `Variants.RecognizedIsWellFormed` | assets/quanta-css/tools/variants-generator.js:41-45 | a recognised class is a class name and its body is trimmed |
| `Variants.RecognizePrinted` | assets/quanta-css/tools/variants-generator.js:41-45 | reading back `.cls { body }` gives the same class and body |
| `Variants.RecognizeEmitted` | assets/quanta-css/tools/variants-generator.js:59 | the plain light rule the generator prints is recognised as the rule it came from |
| `Variants.PlainRules` | assets/quanta-css/tools/variants-generator.js:59-60 | the plain variant prints `.cls { body }` and `html[data-theme="dark"] .dark-cls { body }` |
| `Variants.StateRules` | assets/quanta-css/tools/variants-generator.js:63-66 | a state variant prints `.state-cls:state` and its dark twin |
| `Variants.GroupHoverRules` | assets/quanta-css/tools/variants-generator.js:69-70 | the group-hover variant prints `.group-hover-cls` and its dark twin |
| `Variants.ScopedPlainRules` | assets/quanta-css/tools/variants-generator.js:74-75 | the breakpoint plain variant prints `.key-cls` and its dark twin |
| `Variants.ScopedStateRules` | assets/quanta-css/tools/variants-generator.js:77-80 | the breakpoint state variant prints `.key-state-cls:state` and its dark twin |
| `Variants.ScopedStep` | assets/quanta-css/tools/variants-generator.js:77-80 | each state iteration appends one light and one dark rule |
| `Variants.ScopedGroupHoverRules` | assets/quanta-css/tools/variants-generator.js:82-83 | the breakpoint group-hover variant prints `.key-group-hover-cls` and its dark twin |
| `Variants.FamilyOrder` | assets/quanta-css/tools/variants-generator.js:23 | the variants come in the order plain, hover, focus, active, disabled, group-hover |
| `Variants.BaseEntriesLayout` | assets/quanta-css/tools/variants-generator.js:58-70 | a rule's twelve base entries alternate light and dark, variant by variant |
| `Variants.DarkMirrorsLight` | assets/quanta-css/tools/variants-generator.js:59-83 | each dark rule is its light rule with the leading `.` replaced by the dark-theme selector and `.dark-` |
| `Variants.BaseRulesLayout` | assets/quanta-css/tools/variants-generator.js:37-70 | entry `12*i+k` of the base rules is entry `k` of rule `i` |
| `Variants.BufferLayout` | assets/quanta-css/tools/variants-generator.js:73-84 | entry `6*i+k` of a breakpoint buffer is variant `k` of rule `i`, scoped by the breakpoint key |
| `Variants.RespBlocksLayout` | assets/quanta-css/tools/variants-generator.js:88-91 | block `2*j` wraps breakpoint `j`'s light buffer and block `2*j+1` its dark buffer, under its query |
| `Variants.KeysDistinct` | assets/quanta-css/tools/variants-generator.js:15-21 | the breakpoint keys are distinct, so the buffers never share a key |
| `Variants.BreakpointsAscend` | assets/quanta-css/tools/variants-generator.js:15-21 | the queries are `min-width` queries of strictly ascending widths (mobile first) |
| `Variants.EntryShape` | assets/quanta-css/tools/variants-generator.js:58-70 | every base entry is a class selector or a dark-theme selector |
| `Variants.BaseSection` | assets/quanta-css/tools/variants-generator.js:94 | the final CSS joins the base rules and then the ten media blocks, and its first `12*n` parts are base rules |
| `Variants.MediaSection` | assets/quanta-css/tools/variants-generator.js:94 | the last ten parts of the final CSS are `@media (min-width: …)` blocks |
| `Variants.MdBlocks` | assets/quanta-css/tools/variants-generator.js:88-91 | the third and fourth blocks are the `md` light and dark buffers under `@media (min-width: 768px)` |
| `Variants.SingleRuleBuffers` | assets/quanta-css/tools/variants-generator.js:73-84 | with one rule, a breakpoint buffer is that rule's six scoped variants |
| `Variants.StylesKeyFromRule` | assets/quanta-css/tools/variants-generator.js:47-49 | every style-map key is the key of some rule |
| `Variants.StylesRuleHasKey` | assets/quanta-css/tools/variants-generator.js:47-49 | every rule's key is in the style map |
| `Variants.StylesLastWins` | assets/quanta-css/tools/variants-generator.js:47-56 | a key holds the bag of the last rule with that key |
| `Variants.JsKeyMerges` | assets/quanta-css/tools/variants-generator.js:48 | class names that differ only in `-` versus `_` get the same key |
| `Variants.StylesOfOne` | assets/quanta-css/tools/variants-generator.js:47-56 | one rule gives one entry, from its key to its bag |
| `VariantCases.BtnPlain` | assets/quanta-css/tools/variants-generator.js:59-60 | `.btn` gives `.btn { … }` and `html[data-theme="dark"] .dark-btn { … }` first |
| `VariantCases.BtnHover` | assets/quanta-css/tools/variants-generator.js:63-65 | then `.hover-btn:hover` and its dark twin |
| `VariantCases.BtnGroupHover` | assets/quanta-css/tools/variants-generator.js:69 | the eleventh entry is `.group-hover-btn` |
| `VariantCases.BtnMd` | assets/quanta-css/tools/variants-generator.js:74-78 | the `md` light buffer starts with `.md-btn`, then `.md-hover-btn:hover` |
| `VariantCases.BtnMdGroupHover` | assets/quanta-css/tools/variants-generator.js:82 | the sixth `md` light entry is `.md-group-hover-btn` |
| `VariantCases.BtnPrimaryRule` | assets/quanta-css/tools/variants-generator.js:37-45 | `.btn-primary { background-color: blue; }` is the rule `btn-primary` with body `background-color: blue;` |
| `VariantCases.BtnPrimaryStyles` | assets/quanta-css/tools/variants-generator.js:47-56 | its style map is `btn_primary → { backgroundColor: blue }` |

## Left out

- File-system access (`fs.accessSync`, `readFileSync`, `existsSync`, `mkdirSync`, `writeFileSync`, `statSync`): the file system is a map from path to `Some(content)`, to `None` for a file that exists but cannot be read, and has no entry for a missing file. Output files are returned instead of written.
- Console logging, and the `try`/`catch` error messages: these only print.
- `Bundles.Build`: assumes every output write succeeds. It minifies the full-framework text it just built instead of reading it back from disk, which is the same text once the write has succeeded.
- The `--postcss` command-line switch, the `npx postcss` call and its fallback: they are an external process. Only the built-in minifier is modelled.
- The size summary: it uses file sizes and floating-point division, and only prints.
- `path.resolve` and `__dirname`: the paths are plain strings.
- `Variants.Generate`: takes the base sheet's text as a parameter. The error thrown when the base sheet is missing, the `mkdirSync` of the output directory and `process.exit(1)` are file-system and process effects.
- `JSON.stringify` formatting and the key order of the style map: the style map is a `map`, with no order and no indentation.
- In-place updates of `respLight`, `respDark`, `jsonStyles`, `baseRules` and the seen-sets: the methods take the old values and return the new ones. No aliasing is involved, because every one of these objects is local to its script.
- UTF-8 decoding: file contents are sequences of characters. UTF-16 surrogate pairs are not modelled separately.
