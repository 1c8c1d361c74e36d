# Termcraft: a verified model of its readers, writers and protocols

This project models the parts of termcraft in which a small loop or a small state machine carries a large
promise, and proves those promises for every input, every environment and every interleaving.

| file | what it models |
|---|---|
| `Text.dfy` | JavaScript string operations: `\s`, `indexOf`, `trim`, `split`, `join` |
| `Coverage.dfy`, `Windows.dfy`, `LexerTrace.dfy`, `Lexer.dfy`, `LexerTurns.dfy`, `LexerCases.dfy` | the Gate's windowed, rewinding lexer: the coverage rule, JSX text ranges and windows, the loop with its three cursors, what each answer of the scanner leads to, and two sources treated unexpectedly |
| `Expr.dfy`, `ExprPrint.dfy` | the template expression evaluator, and a writer of expression trees that it reads back |
| `AttrCodec.dfy`, `Streams.dfy` | the attribute-name codec and the lazily expiring stream tracker of the template runtime |
| `Wrap.dfy`, `WrapLayout.dfy`, `Runs.dfy` | word wrapping of the terminal engine, the one layout it gives, and run segmentation |
| `Comments.dfy`, `TemplateLiteral.dfy` | the comment stripper and the template-literal escaper of the declaration generator |
| `Events.dfy`, `Export.dfy`, `ExportOutcome.dfy` | the replay-tolerant event wait, the headless export driver on top of it, and its outcomes by the kinds and order of events |
| `Shutdown.dfy` | the one-shot shutdown of the interactive application |
| `Fingerprint.dfy`, `DesignMemo.dfy` | the design tree's fingerprint and the memo keyed on it |

Loops and objects that the program updates in place are methods and classes here. Each is proved equal to a
function of its inputs or of its old state, and the promises are proved about that function: against a
reference that never rewinds, skips ahead, deletes or caches. Where such a function rests on a table, a class of
characters or a choice of kinds, a lemma beside it says what that is by literals, constructors and indices.

## What is established

**The lexer hides nothing.** The scanner is any function of the number of the call, the position and the window's
end, so it may be stateful; it only has to stay inside the window it was given. For every such scanner, when
`tokenize` succeeds there is a trace with exactly one turn for each call that was made, asked in order where the
turn before ended, window after window, from the first offset of the source to the last. A turn skips text the
coverage rule accepts and then gives a token, or passes one character, or ends the window. From the trace follows:

- an offset in no token and not passed is whitespace, or inside a comment or shebang that itself starts outside
  every token, and at no character rewound past unless the scanner stalled there;
- a token is never a literal left open, trivia or empty, and a literal left open is always rewound to one character
  past its start unless the source is refused there;
- a character is passed only where the coverage rule first rejects what the scanner skipped, or where the scanner's
  answer was an unterminated literal, trivia or zero wide;
- an answer that is a token is kept whole when the text skipped in front of it is accounted for;
- tokens are disjoint, each inside one window, at strictly increasing positions, and the scanner is called at most
  twice for each character and once more for each window;
- the trace is the only one: scanner, source and ranges determine the tokens, or that the source is refused and where.

Both defensive refusals (more tokens than characters, a gap left at the end) are unreachable. Each window terminates
by the measure `(window.end - reached, window.end - position)`. A refusal happens only when an answer would swallow
text behind text nothing accounts for; with a scanner that skips only accounted-for text and stalls only on rejected
characters there is none in a source of one window, nor in any source where no comment-shaped text runs across the
start of a window. Where one does, such a scanner can be refused, but only at the first question of that window,
`covered` having been left behind in a window before it: `LexerCases` has a source that is.

**Expressions are read back.** Writing any expression tree and calling `resolve` on the text gives the tree's value,
whatever the engine's property access, comparison and truth are, with any spacing around operators and any
parentheses more than are needed. A `!` binds tighter than a comparison, and a chain of comparisons is read from the
right. Strings may hold anything in which brackets match and every `==` or `!=` is inside brackets. Paths that break
off in anything else than an access are undefined.

**Wrapping is lossless and optimal.** Its lines are the only ones in which each starts at a word that did not fit on
the line before, and spaces are left out only in front, between lines and where a line has no room for them.

**Other text.** Comments are stripped as one run of a character automaton over the whole text, the template literal
cooks back to its text, names survive the attribute codec, the stream tracker cannot be told from a log that forgets
nothing, and runs are the one maximal partition of a row.

**Protocols.** In every interleaving a wait ends with the first match of everything ever delivered, or with its own
timer firing before any match; an export reports what that match says, and each other outcome exactly in its case.
The shutdown performs each effect at most once and in order, and with a running turn it subscribes, cancels and waits
before it closes the shell. A memo hit is what a run of the Gate on the bytes just read would report, assuming of the
hash only that no two inputs hashed in that very run collide.

## Where code and comments differ

- A quoted string is not always read as a string: `resolve` looks for an equality operator before it looks for
  quotes, so `'a==b'` is split. It reads a quoted string back exactly when no such operator stands in it outside
  brackets (`ExprPrint.QuotedReadsBackIff`, `ExprPrint.QuotedEqualityIsMisread`).
- `src/entrypoint/model/run-app.ts:287-291` says the wait for a confirmed cancel is bounded so that a quit cannot
  hang. The timer bounds the wait, not the `turn.cancel` dispatch awaited in front of it: the shutdown ends if and
  only if that dispatch is answered (`Shutdown.EndsIffDispatchAnswered`).
- `scripts/gen-runtime-dts.ts:720` calls the constant's value byte-exact. It is, if and only if the text holds no
  carriage return, which the language reads as a newline (`TemplateLiteral.LiteralIsByteExactIff`,
  `TemplateLiteral.CarriageReturnIsLost`).
- `design/termcraft-engine.js:1637-1640` says a blank row always means a real newline. It means a paragraph with
  nothing but spaces in it, which may be the only paragraph (`Wrap.BlankRowsAreBlankParagraphs`,
  `Wrap.SpaceGivesBlankRow`).
- `src/gate/model/lexer.ts:232-235` calls the character rewound past an opener. It is any character at which the
  skipped text is first rejected: a lone `#`, which the scanner stalls at, comes through this very branch at the
  next call (`LexerCases.HashIsRewoundPast`, `LexerTrace.PassedForAReason`).
- An `export.completed` delivered before `export.start` was dispatched is the one the driver reports, since the whole
  history is searched. The event reported is a new one exactly when no terminal event had been delivered before the
  dispatch (`Export.ReportedEventIsNewIff`, `Export.StaleCompletionIsReported`).

## Model

| member | source | states |
|---|---|---|
| Coverage.FirstUnaccountedOffset | src/gate/model/lexer.ts:398-425 | the cursor walk finds the offset at which the chain of whitespace, shebang and closed comments first breaks |
| Coverage.UnaccountedIsFirst | src/gate/model/lexer.ts:381-425 | the offset found is one at which none of those starts, whatever follows it, and everything before it is accounted for |
| Coverage.TakePiece | src/gate/model/lexer.ts:400-422 | one turn of the loop moves the cursor past the piece that starts there, or stops |
| Coverage.SpaceIsSkipped | src/gate/model/lexer.ts:402-405 | whitespace is skipped by one character |
| Coverage.LineIsSkipped | src/gate/model/lexer.ts:406-415 | a line comment or leading shebang is skipped past the first newline, or to the end without one |
| Coverage.BlockIsSkipped | src/gate/model/lexer.ts:416-421 | a block comment is skipped past the first delimiter that closes it, and rejected where none does |
| Text.SpacesAre | src/gate/model/lexer.ts:427-428 | the whitespace characters, one by one |
| Coverage.AccountedIsInert | src/gate/model/lexer.ts:79-84 | every character of an accepted stretch is whitespace or covered by a shebang, a line comment or a terminated block comment |
| Coverage.AccountingRestarts | src/gate/model/lexer.ts:398-425 | where no comment-shaped text crosses an offset, looking from before it and from it agree on what follows |
| Windows.NormalizeRanges | src/gate/model/jsx.ts:831-843 | the in-place fusing loop computes the fold of the sorted ranges |
| Windows.NormalizedKeeps | src/gate/model/jsx.ts:823-830 | normalized ranges are sorted with a gap between any two and hold exactly the offsets given, for any ranges in bounds |
| Windows.WindowsOf | src/gate/model/lexer.ts:158-172 | for any sorted disjoint ranges, touching or empty ones included, the windows partition the source end to end and the ones marked as text are exactly the ranges |
| Windows.ChainLinks | src/gate/model/lexer.ts:158-161 | each window starts where the one before ends, and no code window is empty |
| Windows.WindowsAreUnique | src/gate/model/lexer.ts:158-172 | there is only one way to cut a source at given ranges |
| Windows.TextWindowsHold | src/gate/model/lexer.ts:158-172 | an offset is in a text window exactly when a range holds it |
| Lexer.CutSource | src/gate/model/lexer.ts:109-117 | the windows of a source partition it for any ranges in bounds, one window at most without ranges |
| Lexer.FindSwallowing | src/gate/model/lexer.ts:227-230 | text would be swallowed from the unterminated literal's start, or from the first skipped offset the coverage rule rejects |
| Lexer.Judge | src/gate/model/lexer.ts:227-351 | each branch of one turn is a legal turn or a refusal of hidden text; the token cap is never exceeded |
| Lexer.MoveOn | src/gate/model/lexer.ts:236-369 | after each branch the cursors stand at the end of its turn, `reached` one behind after a stall |
| Lexer.TakeTurn | src/gate/model/lexer.ts:200-370 | one turn extends the trace by the one call made and moves `reached`, or else the position, forward |
| Lexer.RewindIsAccounted | src/gate/model/lexer.ts:231-239 | a careful scanner is never refused in a window no comment enters from before |
| Lexer.RefusedOnlyAtEntry | src/gate/model/lexer.ts:231-239 | a careful scanner is refused only at the first question of a window, with `covered` left behind in a window before it and comment-shaped text running across the window's start |
| Lexer.LexWindow | src/gate/model/lexer.ts:180-371 | one window ends with a trace over its whole span and its tail accounted for, terminates on every branch, and refuses only where the trace goes no further |
| Lexer.Tokenize | src/gate/model/lexer.ts:106-149 | on success a trace with one turn for each call covers the whole source and its tokens are exactly those returned; the final gap refusal is unreachable; a careful scanner over one window, or where no comment enters a window, is never refused |
| LexerTrace.EveryOffsetIsAccountedFor | src/gate/model/lexer.ts:79-84 | every offset of the source lies in one of the turns |
| LexerTrace.UnlexedTextIsInert | src/gate/model/lexer.ts:41-44 | an offset in no token and not passed is whitespace or inside a comment or shebang that starts outside every token and at no character rewound past, unless the scanner stalled there |
| LexerTrace.NoTokenIsDropped | src/gate/model/lexer.ts:56-67 | a token the scanner gives is kept whole when what it skipped is accounted for |
| LexerTrace.PassedForAReason | src/gate/model/lexer.ts:218-239 | a character is passed only where nothing skippable starts or where the scanner declined to give a token |
| LexerTrace.TurnsAreDisjoint | src/gate/model/lexer.ts:56-67 | turns overlap nowhere, tokens are non-empty and none crosses a window |
| LexerTrace.TokensIncrease | src/gate/model/lexer.ts:319-325 | positions strictly increase despite all rewinds, and tokens never outnumber characters |
| LexerTrace.CallsAreBounded | src/gate/model/lexer.ts:200-370 | the scanner is called at most twice for each character and once more for each window |
| LexerTrace.TraceIsUnique | src/gate/model/lexer.ts:180-371 | of two traces of one source one is a prefix of the other |
| LexerTrace.RefusalIsFinal | src/gate/model/lexer.ts:231-239 | a source is refused, at one offset, or lexed, never both |
| LexerTurns.OutcomeOfTurn | src/gate/model/lexer.ts:227-369 | each turn is the one its answer leads to, case by case, from the kinds of answers and the turns before, without the cursors |
| LexerTurns.TokensAreClosed | src/gate/model/lexer.ts:435-442 | no token is an unterminated literal of the six kinds, trivia, end-of-file or empty |
| LexerTurns.OpenLiteralsAreRewound | src/gate/model/lexer.ts:209-230 | an unterminated literal of the six kinds is always rewound to one character past its start |
| LexerTurns.GapsAreAccounted | src/gate/model/lexer.ts:327-351 | from the last token or passed character to the next token or the window's end, and from where the scanner was asked, the coverage rule accepts the whole stretch |
| LexerTurns.TokensAreAnswers | src/gate/model/lexer.ts:355-367 | the tokens are the answers kept, one each, with kind, start, and the value of four kinds only |
| LexerTurns.TakenOrRefused | src/gate/model/lexer.ts:200-370 | an answer inside its window is taken as the one turn it leads to, or has the source refused |
| LexerTurns.RefusedIff | src/gate/model/lexer.ts:231-239 | a source is refused exactly where text would be swallowed behind text that nothing accounts for |
| LexerCases.CommentIntoWindowIsRefused | src/gate/model/lexer.ts:231-239 | a concrete source, range and careful scanner are refused, at offset 5, because a comment runs into the second window |
| LexerCases.HashIsRewoundPast | src/gate/model/lexer.ts:232-245 | a lone `#` is rewound past as swallowed text though it opens nothing |
| Expr.ParensWrapWhole | design/support.js:237-247 | true exactly when no closing parenthesis before the last character brings the depth to zero |
| Expr.FindTopLevelEquality | design/support.js:248-262 | the loop with a hand-kept depth finds what a search by nesting depth finds |
| Expr.EqualityFromIsFirst | design/support.js:248-262 | that is the first operator outside all nesting with an operand in front, and none is there when none is found |
| Expr.ResolvePath | design/support.js:263-294 | the walk with one cursor gives the value the path's accesses lead to, or nothing when one is malformed |
| Expr.TakeAccess | design/support.js:269-292 | one dotted or bracketed access, the key of a bracket being resolved in turn |
| Expr.FindClosingBracket | design/support.js:275-286 | the bracket that closes the access, or none |
| ExprPrint.ResolveReadsBack | design/support.js:205-294 | resolving a written expression tree, redundant parentheses, bare `!` operands and right-nested chains included, gives the tree's value |
| ExprPrint.FourOperators | design/support.js:212-226 | `===`, `!==`, `==` and `!=` between two operand texts give sameness, its negation, loose equality and its negation |
| ExprPrint.PathReadsBack | design/support.js:263-294 | a written path, bracket keys included, leads to the value of its accesses |
| ExprPrint.ResolveEquality | design/support.js:212-226 | text of the form operand, operator, operand is split at that operator and at no other |
| ExprPrint.BlankIsUndefined | design/support.js:206-208 | blank text is undefined |
| ExprPrint.HeadlessIsUndefined | design/support.js:264-265 | a path without a leading identifier is undefined |
| ExprPrint.MalformedPathIsUndefined | design/support.js:268-293 | a path that breaks off in no access, a dot without a name or an open bracket is undefined |
| ExprPrint.CharacterClasses | design/support.js:203 | digits and identifier characters, one by one |
| ExprPrint.NumbersAre | design/support.js:204 | sign, digits, point and digits make a number |
| ExprPrint.NumbersAreOnly | design/support.js:204 | and every number has that form |
| ExprPrint.OperatorsAre | design/support.js:248-258 | an operator is `==` or `!=` outside brackets behind something to see that is no `=` or `!` |
| ExprPrint.OperatorsRead | design/support.js:258 | which of the four it is, by its characters |
| ExprPrint.QuotesAre | design/support.js:232-234 | quoted text stands between two quotes of one kind |
| ExprPrint.QuotedReadsBackIff | design/support.js:212-235 | a quoted string resolves to its content if and only if no equality operator stands in the content outside brackets |
| ExprPrint.QuotedEqualityIsMisread | design/support.js:212-235 | the concrete text `'a==b'` does not resolve to its content |
| AttrCodec.DecodeEncoded | design/support.js:366-390 | encoding then decoding drops one character for each dash in front of a lower-case letter and otherwise gives the name back |
| AttrCodec.RoundTripsIff | design/support.js:366-390 | the round trip holds if and only if no dash stands in front of a lower-case letter |
| AttrCodec.LettersPair | design/support.js:369-389 | each capital and its small letter |
| AttrCodec.ClassesAre | design/support.js:365-370 | the letters and digits, one by one |
| AttrCodec.EncodeReads | design/support.js:369 | encoding, character by character |
| AttrCodec.DecodeReads | design/support.js:388-390 | decoding, character by character |
| AttrCodec.ReadReads | design/support.js:421-423 | a name is decoded exactly behind the prefix |
| AttrCodec.CamelNamesAre | design/support.js:365 | the rewritten names: small letters, a capital, any letters and digits |
| AttrCodec.CamelNamesSurviveParsing | design/support.js:365-423 | every name the encoder rewrites is read back unchanged after the HTML parser's lower-casing |
| AttrCodec.EncodingIsInjective | design/support.js:365-371 | no two rewritten names share an encoding |
| Streams.AgreesLater | design/support.js:1649-1660 | the thinned map and the log go on agreeing while time passes between two calls |
| Streams.StreamTracker.Push | design/support.js:1661-1665 | a counted push becomes the name's latest entry of a log in which nothing is deleted, a model view's push changes nothing |
| Streams.StreamTracker.LiveOne | design/support.js:1651-1659 | live exactly when the latest counted push was streaming and is not stale; the lazy deletion leaves the log untouched |
| Streams.StreamTracker.LiveAny | design/support.js:1666-1670 | live exactly when some name is, the clock being read anew for each |
| Wrap.PackWords | design/termcraft-engine.js:355-357 | the loop over the words computes the greedy filling |
| Wrap.ChopLines | design/termcraft-engine.js:358 | the inner loop cuts each long line into rows of the width |
| Wrap.WrapLines | design/termcraft-engine.js:355-359 | the two halves together, with one empty row for no rows at all |
| Wrap.ExplicitLines | design/termcraft-engine.js:1642-1643 | each paragraph between newlines is wrapped by itself |
| Wrap.WrappingKeepsInk | design/termcraft-engine.js:355-359 | every character other than a space survives, in order |
| Wrap.WrappedRows | design/termcraft-engine.js:355-359 | each row fits the width and starts with something to see; the result is one empty row exactly for text with nothing to see |
| Wrap.GreedyIsOptimal | design/termcraft-engine.js:355-357 | greedy filling uses no more lines than any breaking of the same words into lines that fit |
| Wrap.GreedyBreaks | design/termcraft-engine.js:355-357 | the greedy lines are themselves such a breaking |
| Wrap.WrappingIsOptimal | design/termcraft-engine.js:355-359 | the rows of single-spaced text of short words are a breaking of its words with the fewest lines |
| Wrap.BlankRowsAreBlankParagraphs | design/termcraft-engine.js:1636-1643 | there are as many empty rows as paragraphs with nothing to see |
| WrapLayout.LayoutIsUnique | design/termcraft-engine.js:355-357 | a sequence of lines is the filling exactly if each line stands in the text as it is, starts at a word that did not fit before, and leaves out one space behind it or more only for want of room |
| WrapLayout.FittingTextStays | design/termcraft-engine.js:355-359 | a text that fits and starts with no space is one row, its spaces kept |
| WrapLayout.CutsAreFull | design/termcraft-engine.js:358 | a line is cut into full rows and a rest, losing nothing |
| WrapLayout.RowsOfLine | design/termcraft-engine.js:358 | the rows of a line stand together between those of its neighbours |
| Wrap.SpaceGivesBlankRow | design/termcraft-engine.js:1637-1643 | a single space, with no newline in it, gives a blank row |
| Wrap.ParagraphRows | design/termcraft-engine.js:1642-1643 | the rows of a paragraph stand together, between those of its neighbours |
| Runs.RunEnd | design/termcraft-engine.js:82-84 | a run goes on exactly as long as cells join its first one |
| Runs.CutRow | design/termcraft-engine.js:81-94 | the runs partition the row, are uniform and maximal |
| Runs.CutIsUnique | design/termcraft-engine.js:81-94 | there is only one such cut of a row |
| Runs.CutShowsTheRow | design/termcraft-engine.js:85 | the runs' texts put together are the row's characters |
| Runs.StyleKeyIsInjective | design/termcraft-engine.js:79 | for colours without a bar, equal style keys are equal foreground, background, weight and blinking, and conversely |
| Runs.RunIsUniformAndMaximal | design/termcraft-engine.js:82-84 | a run's cells are drawn alike, in style and stretched glyph, and the cell behind it otherwise |
| Comments.BlockRuns | scripts/gen-runtime-dts.ts:527-533 | jumping to the closing delimiter is what the character automaton does inside a block comment |
| Comments.CodeRuns | scripts/gen-runtime-dts.ts:534-547 | jumping to whichever comment opens first is what it does in code |
| Comments.StripLine | scripts/gen-runtime-dts.ts:524-549 | one line is stripped as the automaton does, starting and ending in its mode |
| Comments.StripComments | scripts/gen-runtime-dts.ts:521-553 | all lines are, the block state carried from each to the next |
| Comments.StrippingIsOneRun | scripts/gen-runtime-dts.ts:521-553 | stripping the lines and joining them is one run of the automaton over the whole text, one line out for each line in |
| Comments.CodeStays | scripts/gen-runtime-dts.ts:521-553 | text without a slash is kept |
| Comments.LoneSlashStays | scripts/gen-runtime-dts.ts:534-547 | a slash that opens nothing is kept |
| Comments.BlockCommentVanishes | scripts/gen-runtime-dts.ts:527-549 | a block comment leaves only its newlines, however many lines it spans |
| Comments.LineCommentVanishes | scripts/gen-runtime-dts.ts:536-540 | a line comment vanishes up to its newline |
| TemplateLiteral.PassesCompose | scripts/gen-runtime-dts.ts:721-723 | the three replacement passes are one escape per character |
| TemplateLiteral.CookEscaped | scripts/gen-runtime-dts.ts:721-723 | the escaped text neither ends the literal nor opens a substitution, and cooks to the text with its line ends normalized |
| TemplateLiteral.LiteralIsByteExactIff | scripts/gen-runtime-dts.ts:720-723 | the constant's value is the text if and only if it holds no carriage return |
| TemplateLiteral.NothingLeftUnescaped | scripts/gen-runtime-dts.ts:721-723 | the escaped text has no backtick and no opened substitution that is not escaped |
| TemplateLiteral.CarriageReturnIsLost | scripts/gen-runtime-dts.ts:720-723 | a single carriage return comes back as a newline |
| Events.FirstMatchGrows | src/entrypoint/model/run-export.ts:88-95 | later deliveries change no first match and only supply a missing one |
| Events.FirstMatchIs | src/entrypoint/model/run-export.ts:140 | the first match is the first envelope that matches |
| Events.CountsAreTheLatest | src/entrypoint/model/run-export.ts:105-119 | the revision is the last envelope's, the page count that of the last snapshot or change of descriptors |
| Events.EventTracker.Handle | src/entrypoint/model/run-export.ts:110-126 | a delivery is recorded and settles exactly the pending waits it matches; revision and page count stay those of the whole sequence |
| Events.EventTracker.WaitFor | src/entrypoint/model/run-export.ts:136-161 | a wait armed after its match is resolved with the first one, otherwise pending |
| Events.EventTracker.Expire | src/entrypoint/model/run-export.ts:151-158 | a timer settles only a wait still pending |
| Events.EventTracker.Close | src/entrypoint/model/run-export.ts:163 | counts one release of the subscription and changes nothing else |
| Events.EveryRunIsHonest | src/entrypoint/model/run-export.ts:104-164 | in every interleaving a resolved wait holds the first match of all deliveries, and a pending one has none yet |
| Events.TimedOutByItsTimer | src/entrypoint/model/run-export.ts:151-158 | a wait that timed out did so when its own timer fired, and of all delivered by that moment nothing matched |
| Events.SettledStays | src/entrypoint/model/run-export.ts:121-158 | a wait settles at most once |
| Export.Await | src/entrypoint/model/run-export.ts:252 | an awaited wait times out exactly when its timer fires before any match, earlier deliveries included |
| Export.TimerDecides | src/entrypoint/model/run-export.ts:136-161 | without a match a wait times out exactly if its timer fires at all |
| Export.AwaitOpened | src/entrypoint/model/run-export.ts:252-268 | the driver goes on exactly when the first settling event came in time and finished the opening, and else stops for the one reason that holds |
| Export.AwaitTerminal | src/entrypoint/model/run-export.ts:290-314 | the outcome is what the first terminal event of everything delivered says |
| Export.RunExport | src/entrypoint/model/run-export.ts:227-315 | a success names the generation of the first terminal event after a proper start; waiting, time-outs, refusals and each fault happen exactly in their case; the subscription is released exactly once on every path that ends |
| ExportOutcome.WaitsAre | src/entrypoint/model/run-export.ts:136-161 | each wait runs out, or never settles, by its timer and the kinds of events delivered |
| ExportOutcome.OpeningIs | src/entrypoint/model/run-export.ts:168-175 | the opening went well, or badly, exactly if the first event settling it in time says so |
| ExportOutcome.StartIs | src/entrypoint/model/run-export.ts:239-288 | when an export has started |
| ExportOutcome.ConclusionIs | src/entrypoint/model/run-export.ts:290-314 | a started export is timed out exactly if the timer fired before any completion or failure, and else ends as the first of them says |
| ExportOutcome.EndsIff | src/entrypoint/model/run-export.ts:177-179 | it ends as failed, exported or without a generation if and only if the first completion or failure is of that kind |
| ExportOutcome.RefusalsAre | src/entrypoint/model/run-export.ts:181-187 | the refusal of each rejection code |
| Export.ReportedEventIsNewIff | src/entrypoint/model/run-export.ts:270-314 | the generation a success names is that of a completion delivered after the dispatch if and only if no terminal event had been delivered before |
| Export.StaleCompletionIsReported | src/entrypoint/model/run-export.ts:136-141 | a concrete environment in which the generation of an earlier export is reported |
| Shutdown.ShutdownPath.Close | src/entrypoint/model/run-app.ts:221-240 | the first request logs exactly the disposal and then the shell's close, or the subscription and the turn's cancel; once the disposal is logged a request changes nothing |
| Shutdown.ShutdownPath.AnswerDispatch | src/entrypoint/model/run-app.ts:326-338 | the shell's close is logged exactly if the dispatch was awaited and the wait is already over |
| Shutdown.ShutdownPath.HandleTurnEvent | src/entrypoint/model/run-app.ts:415-426 | the subscription is released exactly if it was live and a terminal event names the very turn, and the shell's close follows exactly if the dispatch had answered |
| Shutdown.ShutdownPath.FireTimer | src/entrypoint/model/run-app.ts:434-444 | the timer leaves no wait live and releases the subscription of one that was |
| Shutdown.ShutdownPath.ReleaseShell | src/entrypoint/model/run-app.ts:229-252 | a failed release is reported; then exit and the closed mark, in that order |
| Shutdown.EveryRunIsInOrder | src/entrypoint/model/run-app.ts:210-243 | in every interleaving dispose, cancel, shell close and exit happen at most once and in that order, and a wait holds subscription and timer exactly until it is over |
| Shutdown.RunGoes | src/entrypoint/model/run-app.ts:221-339 | in every run, the exact log of effects at each phase, by what the first request to close found |
| Shutdown.TurnIsCancelledFirst | src/entrypoint/model/run-app.ts:224-229 | with a running turn, the shell is closed only after its cancel was dispatched and answered and the wait released |
| Shutdown.ClosingIsIdempotent | src/entrypoint/model/run-app.ts:217-238 | a further request at any moment of a run leaves the whole run unchanged |
| Shutdown.UnansweredDispatchHangs | src/entrypoint/model/run-app.ts:316-339 | while the dispatch is unanswered neither events nor timers bring the shell's close or the exit |
| Shutdown.EndsIffDispatchAnswered | src/entrypoint/model/run-app.ts:287-339 | with the timer fired and the shell released, the run has ended if and only if the dispatch was answered |
| Fingerprint.FramingIsInjective | src/entities/design-tree/model/closure.ts:71-109 | the length-prefixed framing is injective for arbitrary field contents |
| Fingerprint.U32IsBigEndian | src/entities/design-tree/model/closure.ts:89-94 | a length is written in four bytes, the most significant first |
| Fingerprint.FramedReads | src/entities/design-tree/model/closure.ts:105-108 | the framing field by field |
| Fingerprint.LessIsLexicographic | src/entities/design-tree/model/inventory.ts:29-31 | paths are ordered by the first byte in which they differ |
| Fingerprint.CreateDesignTreeInventory | src/entities/design-tree/model/inventory.ts:21-33 | refused exactly when a path is listed twice, otherwise sorted by path |
| Fingerprint.SortSorts | src/entities/design-tree/model/inventory.ts:29-32 | the inventory is strictly sorted and has exactly the given entries |
| Fingerprint.SortedIsCanonical | src/entities/design-tree/model/inventory.ts:15-20 | two sorted inventories of the same entries are equal |
| Fingerprint.FingerprintIdentifiesTree | src/entrypoint/model/design-checker.ts:173-182 | if no two inputs hashed for them collide, two walks have one fingerprint if and only if they read the same files with the same bytes, in whatever order |
| Fingerprint.SameTreeSameFingerprint | src/entities/design-tree/model/inventory.ts:15-20 | the order of a walk leaves no trace in the fingerprint, whatever the hash |
| Fingerprint.SomeHashHasNoCollisions | src/entities/design-tree/model/closure.ts:105-109 | what is assumed of the hash can hold: one hash meets it for any inputs of up to two gigabytes |
| DesignMemo.DesignChecker.Begin | src/entrypoint/model/design-checker.ts:246-253 | the key is the workspace, a space and the fingerprint, and a check answers from the memo exactly when the memo is about it |
| DesignMemo.DesignChecker.Finish | src/entrypoint/model/design-checker.ts:277-287 | the report has the slice's errors, then the tree's, and the warnings, and is kept under its key unless the compiler was unavailable |
| DesignMemo.KeyIsInjective | src/entrypoint/model/design-checker.ts:252 | a key determines workspace and fingerprint, spaces in the path included |
| DesignMemo.SameKeySameTree | src/entrypoint/model/design-checker.ts:232-234 | equal keys are keys of the same workspace and the same bytes |
| DesignMemo.EveryRunIsTrusted | src/entrypoint/model/design-checker.ts:212-290 | every interleaving of overlapping checks and edits keeps memo, running checks and answers trustworthy |
| DesignMemo.HitsAreFresh | src/entrypoint/model/design-checker.ts:221-241 | if no two inputs hashed in the run collide, a hit is what a run on the bytes just read returns while the compiler is up, never a report of a compiler that was down |
| DesignMemo.CheckStores | src/entrypoint/model/design-checker.ts:251-287 | a check that missed leaves its report in the memo and as its answer, when the compiler was up |
| DesignMemo.SecondCheckHits | src/entrypoint/model/design-checker.ts:214-234 | from any state, checking any tree again, however it is listed, hits and answers what the first check found, if the compiler was up, nothing was edited in the workspace and no check ended between |
| DesignMemo.EmptyTreeCheckedTwice | src/entrypoint/model/design-checker.ts:216-219 | one such run, of the empty tree in a fresh checker, in which no two inputs collide whatever the hash |

## Left out

- The TypeScript scanner and the JSX reader: the scanner is an arbitrary answer inside its window, the ranges are arbitrary ranges in bounds; brace stacks, the previous token and the regular-expression re-scan only choose the scanner's answer and are part of that arbitrariness.
- Lexer.Judge: `lexWindow`'s loop body is split into `FindSwallowing`, `Judge`, `JudgeKept`, `MoveOn` and `TakeTurn`, with the scanner's position passed as a value instead of being reset in the scanner; the wording of refusals is left out, as is the second gap question behind the one that finds nothing.
- Lexer.Tokenize: which sources with a comment running across the start of a window are refused is stated by the trace (`RefusalIsFinal`) and, for careful scanners, by a necessary condition (`RefusedOnlyAtEntry`), not by an exact condition on their text: it depends on what the scanner answers there.
- Characters are Unicode scalar values where JavaScript counts UTF-16 units; astral characters therefore count once, and lone surrogates do not occur.
- Expr: property access, comparison, truth, and number conversion are arbitrary functions of the engine; `String(src)` is the identity on text.
- ExprPrint.ResolveReadsBack: strings with unmatched brackets, or with an operator outside brackets, are not written inside larger expressions, where the evaluator would count depth or split past their quotes.
- AttrCodec: the regular expression that finds attribute names in HTML; the names it captures are described by `IsCamelName`.
- Streams.StreamTracker.LiveAny: names are asked about in no particular order, where the program uses insertion order.
- Wrap.WrapLines: widths are at least one, since the program's cutting loop does not end for width zero and long words.
- Runs: the elements and styles built from a run; screen drawing as a whole.
- Comments: string literals are not tracked, as in the program.
- TemplateLiteral: escapes the escaper never writes (digits, `x`, `u`, line continuations) are not given a value.
- Export: joining the destination path, message texts and logging, the shell around the driver, and the two branches for event kinds the predicates exclude.
- Shutdown: renderer mounting, the start-up dispatch, a throwing `dispose`, and the bodies of signal registration; a failed peek counts as no running turn.
- DesignMemo: reading the directory, the Gate's stages, the optional fields of a finding, and checks that fail with a thrown error; the Gate's answer is an arbitrary function of the bytes and of the number of the run.
- Fingerprint: UTF-8 encoding of paths and the file contents' decoding; paths are compared as byte strings where the program compares UTF-16 units, and are shorter than the four gigabytes a length field can carry.
- React, DOM, template compilation, helmet and fetch code, generator output and command-line plumbing.
