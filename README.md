# claude-gemini, modelled in Dafny

claude-gemini is a command-line bridge that sends a question about a code
base to the Gemini CLI and streams the answer back, and that prepares a
project's CLAUDE.md so Claude knows to use it. This project models the
decision logic at its core and proves what that logic promises.

- **ModelChain** builds the list of candidate models for `sync`: the
  requested or configured model, then four fixed models, with duplicates
  removed.
- **Executor** covers one run of the Gemini CLI. It builds the argument
  vector and classifies a failed exit (quota, bad request, other).
  - Its event handlers are a class, `Attempt`, with one method per event.
    The fields are output, error, the streaming flag, the two timers, the
    settle-once promise and the progress calls.
  - `RunAttempt` feeds a run's events to a fresh `Attempt`. It is proved
    against `Expected` and `ExpectedProgress`, functions of the event
    sequence alone. The link is `SpecSnoc`: one event more moves the
    specified state exactly as the handler does.
- **Fallback** is the retry loop of `sync`. Candidates are tried in order.
  A quota-looking error moves on to the next one, and anything else ends
  the loop. `RunFallback` is proved equal to the reference `Decide`.
- **Bundler** prepares the prompt from a code bundle
  (`processWithCode2Prompt`). It covers the choice of root and options,
  the second call over the token budget, truncation and prompt assembly.
  It also models the keyword gate `hasCodebaseContent`. The bundler and
  the path extractor are function parameters.
- **PathRewrite** holds the three `@path` rewrites of `convertPaths` and
  `formatForClaude`. The first rewrite passes its replacement as a string,
  so the `$` patterns ECMAScript expands in a replacement string (`$$`,
  `$&`, `` $` ``, `$'`) are modelled too, and they act when the working
  directory holds a '$'.
- **SyncCommand** is the `sync` command as a whole. The query is checked,
  the prompt prepared, and the chain run through the fallback loop.
- **Inject** (`cg inject`) and **Init** (`cg init`) put the instruction
  block into CLAUDE.md and write the configuration and .gitignore entries.
  Files are modelled as strings split into lines, and the file system as a
  map from path to content. The line scans are methods with loops, proved
  against the functions that specify them.
- **ConfigStore** and **ConfigCommand** cover the layered configuration
  (global, project, project-root file, over the defaults), `saveConfig`'s
  merge, and `cg config --list/--set`, which types the value.
- **Text** and **Wrappers** are shared helpers: JavaScript's white-space
  set and `trim`, `includes`, `split`/`join`, decimal digits, and `Option`
  and `Result`.

Everything the program gets from outside is an input to the model: process
events, file contents, whether binaries are found, the working directory,
and the bundler's and extractor's answers.

Two behaviours of the code are easy to misread, and the model follows
the code in both:
- A stderr chunk carrying the dotenv banner is appended to the error text
  before the handler returns early (src/commands/sync.ts:532-538). It is
  not filtered out first.
- The help text of `-m` says "empty = auto-select" (src/cli.ts:28). The
  first candidate, though, is `options.model || config.model ||
  'gemini-2.5-flash'` (src/commands/sync.ts:114). An empty model falls
  through to the configured model or the default, so the chain never holds
  an empty or "auto-select" entry.

## Definitions

The functions that define the behaviour carry no contract of their own.
The lemmas named with each state what it does.
- `PathRewrite.ConvertPaths` (src/utils/index.ts:36-51) is the three
  passes `DotSlashReplace`, `DirPass` and `FilePass` in turn. The lemmas
  are `ConvertWithoutAt`, `ConvertKeepsPlainPrefix`, `ConvertKeepsFirst`,
  `ConvertDotSlash`, `ConvertLeavesBareWord` and `ConvertPreservesAtCount`.
- `PathRewrite.DotSlashReplace` and `DotSlashFrom` (line 38) are specified
  by `DotSlashLeading`, `DotSlashRemovesAll`, `DotSlashFromNoMatch`,
  `DotSlashFromHead` and `DollarMatchExample`. `DotSlashLiteral` ties them
  to `DotSlashPass`, the same rewrite for a base without '$'.
  `Substitute` is specified by `SubstituteLiteral`.
- `PathRewrite.DirPass` (lines 41-43) is specified by `DirRewrite`,
  `DirSkipsAbsolute`, `DirPlain`, `DirHead` and `DirCount`.
- `PathRewrite.FilePass` (lines 46-48) is specified by `FileRewrite`,
  `FileSkipsAbsolute`, `FilePlain`, `FileHead` and `FileCount`.
- `ModelChain.Chain` (src/commands/sync.ts:113-119) is specified by
  `ChainShape`, `ChainProperties` and `ChainDefault`.
- `Bundler.Process` (src/commands/sync.ts:242-436) is specified by
  `NoPathsUsesCwd`, `PrimaryPathChoice`, `OptionsChoice`,
  `SecondCallOnlyOverBudget`, `TruncatesWhenStillOver` and
  `PromptRoundTrip`.
- `SyncCommand.PreparedQuery` (src/commands/sync.ts:55-84) is specified by
  `PreparedQueryCases` and `PreparedNonEmpty`.
- `Executor.Expected` and `ExpectedProgress` (src/commands/sync.ts:438-587)
  are specified by `SettlesOnce`, `ResolvesIffCleanClose`, `ProgressShape`,
  `ProgressStopsAfterStreaming` and `SpecFinal`. `RunAttempt` proves that
  the handlers compute them.
- `Inject.Injected` (src/commands/inject.ts:78-98) is specified by
  `InjectedAtSection`, `OnlyFirstSection`, `InjectedAtEnd`,
  `InjectedKeepsLines` and `InjectedHasMarker`. `InjectLines` computes it.
- `Init.Spliced` (src/commands/init.ts:111-139) is specified by
  `SplicedBeforeSection`, `SplicedAfterTitle`, `SplicedByDefault`,
  `SplicedKeepsLines` and `SplicedHasMarker`. `SpliceBlock` computes it.
- `Init.Initialize` (src/commands/init.ts:40-100) is specified by
  `InitializeFiles`, `InitializeTouchesNothingElse`,
  `InitializeInitializes` and `InitializeIdempotent`. `Init.Run` computes
  it.
- `ConfigStore.MergeLayers` and `ConfigStore.Loaded`
  (src/config/index.ts:22-46) are specified by `MergeLastWins`,
  `MergeAbsent`, `LoadConfig`, `LoadedLastWins`, `LayersLastWins` and
  `LoadedWithoutFiles`.
- `Text.Trim` (`String.prototype.trim`) is specified by `TrimBlank`,
  `TrimBothEnds` and `TrimEnds`.
- `ConfigCommand.Run` (src/commands/config.ts:10-53) is specified by
  `ListWritesNothing`, `InvalidSetWritesNothing` and `SetSavesOneKey`.

## Model

| member | source | states |
|---|---|---|
| ModelChain.FirstCandidate | src/commands/sync.ts:114 | the option model if non-empty, else the configured one if non-empty, else `gemini-2.5-flash`; never empty |
| ModelChain.IndexOf | src/commands/sync.ts:119 | `indexOf`: -1 exactly when absent, otherwise the position of the first occurrence |
| ModelChain.KeepFirst | src/commands/sync.ts:119 | the filter over a prefix keeps exactly the prefix's elements, each once |
| ModelChain.Dedup | src/commands/sync.ts:119 | the `indexOf(m) === i` filter has the same elements as its input and no duplicates |
| ModelChain.Without | src/commands/sync.ts:119 | removing a value keeps exactly the other elements |
| ModelChain.WithoutOfDistinct | src/commands/sync.ts:119 | removing a value from a duplicate-free list keeps it duplicate-free and shortens it by one exactly when the value was present |
| ModelChain.DedupCons | src/commands/sync.ts:113-119 | de-duplicating `x` followed by a duplicate-free list keeps `x` first and drops only the later copy of `x` |
| ModelChain.KeepFirstCons | src/commands/sync.ts:119 | the first-occurrence filter over a prefix of `x` followed by a duplicate-free list is `x` then the list without `x` |
| ModelChain.ChainShape | src/commands/sync.ts:113-119 | the chain is the first candidate followed by the fixed models other than it, in order |
| ModelChain.ChainProperties | src/commands/sync.ts:113-119 | the chain has no duplicates, starts with the non-empty first candidate, holds all four fixed models, and has length 4 when the first candidate is a fixed model and 5 otherwise |
| ModelChain.ChainDefault | src/commands/sync.ts:113-119 | with neither model given the chain is exactly the four fixed models |
| ModelChain.WithoutHead | src/commands/sync.ts:119 | removing the head of a duplicate-free list leaves its tail |
| Executor.ArgsRoundTrip | src/commands/sync.ts:447-455 | args start with `-y` and end with `-p query`; `-m model` is present exactly when the model is not blank after trimming; the length is 3 or 5 and reading the vector back gives the model and query |
| Executor.ModelNamed | src/commands/sync.ts:451 | the model is passed exactly when it is not blank |
| Executor.ArgsForRoundTrip | src/commands/sync.ts:447-455 | a vector with or without the model pair starts with `-y`, has length 5 or 3, and reads back as the model (when present) and the query |
| Executor.DotEnd | src/commands/sync.ts:569 | finds the nearest '.' reachable without crossing a line terminator, or says none exists |
| Executor.QuotaMatchFrom | src/commands/sync.ts:569 | the leftmost `Quota exceeded.*?\.` match at or after a position, or the proof that there is none |
| Executor.QuotaMatch | src/commands/sync.ts:569 | the leftmost lazy match of `/Quota exceeded.*?\./`; None exactly when there is no match |
| Executor.QuotaMatchText | src/commands/sync.ts:569-571 | a match starts with "Quota exceeded", ends with '.', and lies inside stderr |
| Executor.CloseResolvesIffZero | src/commands/sync.ts:565-566 | a close resolves exactly for exit code 0, and then with the captured stdout |
| Executor.QuotaBeforeBadRequest | src/commands/sync.ts:569-571 | with a quota match the rejection is "429: " plus the match, whatever else stderr holds, and it contains "429" and "Quota exceeded" |
| Executor.BadRequestMessage | src/commands/sync.ts:572-575 | without a quota match, stderr containing 400, "Bad Request" or "invalid argument" gives the "Invalid request:" message around stderr |
| Executor.OtherFailureMessage | src/commands/sync.ts:576-578 | any other failure is "Gemini exited with code N: " followed by stderr |
| Executor.Attempt.constructor | src/commands/sync.ts:474-486 | a run starts with empty output and error, not streaming, unsettled, both timers armed and no progress calls |
| Executor.Attempt.StartStreaming | src/commands/sync.ts:516-520 | the first start of streaming stops the interval and records one `-1` progress call; later ones change nothing |
| Executor.Attempt.Settle | src/commands/sync.ts:446 | the promise settles once: a settled outcome is never replaced |
| Executor.Attempt.OnStdout | src/commands/sync.ts:511-528 | the chunk is appended to output and streaming starts |
| Executor.Attempt.OnStderr | src/commands/sync.ts:530-559 | every chunk, dotenv banner included, is appended to error; a slow-response or model-switch notice starts streaming when output is formatted |
| Executor.Attempt.OnClose | src/commands/sync.ts:561-580 | both timers are cleared and a pending promise settles with the close classification of the output and error so far |
| Executor.Attempt.OnTimer | src/commands/sync.ts:488-509 | a pending promise rejects with the timeout message; the interval is cleared when the timer was still armed |
| Executor.Attempt.OnError | src/commands/sync.ts:582-586 | both timers are cleared and a pending promise rejects with the spawn error |
| Executor.Attempt.OnTick | src/commands/sync.ts:481-486 | an interval tick records the elapsed time only while the interval runs and streaming has not started |
| Executor.FirstWhereSnoc | src/commands/sync.ts:474-586 | the first event with a property is unchanged by a later event, unless there was none before |
| Executor.TextSnoc | src/commands/sync.ts:511-532 | output and error text are the in-order concatenation of the stdout and stderr chunks |
| Executor.ProgressSnoc | src/commands/sync.ts:481-520 | one event more adds a tick only before streaming and settling, adds `-1` at the start of streaming, and otherwise changes nothing |
| Executor.SettlesOnce | src/commands/sync.ts:446-586 | events after the first settling event do not change the outcome |
| Executor.ResolvesIffCleanClose | src/commands/sync.ts:561-586 | a run resolves exactly when its first settling event is a close with code 0, with the stdout seen before it; a run that never settles times out |
| Executor.ProgressShape | src/commands/sync.ts:481-520 | progress calls are elapsed times, with at most one `-1`, at the end, present exactly when streaming started |
| Executor.ProgressStopsAfterStreaming | src/commands/sync.ts:516-520 | once streaming has started no further progress call is made |
| Executor.SpecSnoc | src/commands/sync.ts:474-586 | the state specified from the event sequence moves, on one more event, exactly as the handlers move it |
| Executor.SettledBySnoc | src/commands/sync.ts:561-586 | the first settling event fixes the outcome: close classification, timeout or spawn error |
| Executor.Deliver | src/commands/sync.ts:511-586 | delivering an event to an attempt changes its state exactly as the handler semantics say |
| Executor.Feed | src/commands/sync.ts:511-586 | an attempt that matches the specification of a prefix matches it for the prefix plus one event |
| Executor.SpecFinal | src/commands/sync.ts:446-587 | the specified final state agrees with `Expected`, and with the timeout outcome when nothing settled |
| Executor.RunAttempt | src/commands/sync.ts:438-587 | a run's outcome and progress calls are `Expected` and `ExpectedProgress` of its events |
| Fallback.ErrorText | src/commands/sync.ts:169 | `error.toString()` is "Error: " followed by the message |
| Fallback.Outcomes | src/commands/sync.ts:123-152 | one outcome per candidate, each that of running it with the same query and timeout |
| Fallback.Decide | src/commands/sync.ts:123-177 | between 1 and all candidates are tried; every one before the last tried failed with a quota-looking error; the verdict is the last one's output if it resolved, otherwise its error, on a non-quota error or on the final candidate |
| Fallback.RunFallback | src/commands/sync.ts:121-177 | the loop tries a prefix of the chain in order and ends as `Decide` says |
| Fallback.QuotaQuotaSuccess | src/commands/sync.ts:165-172 | two quota failures and then a success: three tries, and the third output is returned |
| Fallback.OtherFailureStops | src/commands/sync.ts:174-175 | a non-quota failure on the first candidate ends the loop after one try |
| Fallback.AllQuotaTriesAll | src/commands/sync.ts:169-171 | quota errors on every candidate try them all and give up |
| Fallback.QuotaCloseIsRetryable | src/commands/sync.ts:169 | a failed close whose stderr matches the quota pattern is always retried |
| Fallback.OtherExitIsFinal | src/commands/sync.ts:169 | a failed close with no quota, 400 or 429 text, and with no digit 4 in the exit code, is not retried |
| Fallback.ExitPrefix | src/commands/sync.ts:577 | the text before stderr in an exit error has no 'Q' and no '4' unless the exit code has one |
| Fallback.Timeout429IsRetried | src/commands/sync.ts:169 | a 429-second timeout is retried like a quota error, because its message contains "429" |
| Bundler.Filter | src/commands/sync.ts:353-356 | `filter` keeps exactly the elements satisfying the predicate |
| Bundler.Map | src/commands/sync.ts:355 | `map` applies the function to each element, in order |
| Bundler.TakeUnits | src/commands/sync.ts:405 | `substring(0, n)` counts UTF-16 code units: the result is a prefix that fits in n units, and the next character would not fit |
| Bundler.TakeUnitsAll | src/commands/sync.ts:405 | a text that fits in n code units is kept whole |
| Bundler.TakeUnitsBmp | src/commands/sync.ts:405 | on text inside the Basic Multilingual Plane the first n characters are kept |
| Bundler.NoPathsUsesCwd | src/commands/sync.ts:249-261 | no paths means the target `.`, and so the working directory as root |
| Bundler.PrimaryPathChoice | src/commands/sync.ts:254-261 | the root is the first target ending in '/' or without '.', else the directory of the first target unless it is '.', else the working directory |
| Bundler.OptionsChoice | src/commands/sync.ts:342-360 | the caller's exclude list whenever one is given, even an empty one, else the defaults; includes are the caller's then the file basenames |
| Bundler.FileIncludesAre | src/commands/sync.ts:353-356 | the file includes are exactly the non-empty basenames of the file-like targets |
| Bundler.SecondCallOnlyOverBudget | src/commands/sync.ts:363-401 | the second bundler call happens exactly when the first succeeds with more than 15000 tokens, with the same root and the aggressive exclusions appended |
| Bundler.TruncatesWhenStillOver | src/commands/sync.ts:403-417 | when the second bundle is also over budget, the prompt holds its first 60000 UTF-16 code units under "(Truncated)" plus the note, with count 15000 |
| Bundler.PromptRoundTrip | src/commands/sync.ts:406-435 | every prompt starts with the cleaned query and the context heading, with no temp file; outside truncation, removing that prefix gives back the bundler output |
| Bundler.PromptShape | src/commands/sync.ts:419-428 | an untruncated prompt is the prefix followed by the bundle verbatim |
| Bundler.TruncatedShape | src/commands/sync.ts:406 | a truncated prompt starts with the cleaned query and the heading |
| Bundler.HasCodebaseContent | src/commands/sync.ts:213-240 | bundling is tried exactly when code2prompt is found and the query names a path or mentions an analysis keyword |
| PathRewrite.NameRun | src/utils/index.ts:41 | the longest run of characters other than '/', '@' and space |
| PathRewrite.LastDot | src/utils/index.ts:46 | the last dot in a name before a position |
| PathRewrite.AlnumRun | src/utils/index.ts:46 | the longest run of ASCII letters and digits |
| PathRewrite.FileMatch | src/utils/index.ts:46 | a file token is a name, a dot and at least one alphanumeric, inside the name run |
| PathRewrite.SubstituteLiteral | src/utils/index.ts:38 | a replacement string without '$' is inserted as it is |
| PathRewrite.DotSlashLiteral | src/utils/index.ts:38 | for a base without '$' the first rewrite turns every `@./` into `@<base>/` as written |
| PathRewrite.DotSlashFromNoMatch | src/utils/index.ts:38 | where no `@./` starts, the first rewrite copies the text |
| PathRewrite.DollarMatchExample | src/utils/index.ts:38 | `$&` in the base copies the match: with the base `/x$&`, `@./a` becomes `@/x@.//a` |
| PathRewrite.ConvertWithoutAt | src/utils/index.ts:36-51 | a query without '@' comes back unchanged, whatever the base |
| PathRewrite.ConvertKeepsPlainPrefix | src/utils/index.ts:36-51 | for a base without '$', text before the first '@' is left unchanged |
| PathRewrite.DotSlashFromHead | src/utils/index.ts:38 | the first rewrite keeps the character at the position it starts from |
| PathRewrite.DirHead | src/utils/index.ts:41-43 | the directory rewrite keeps the first character |
| PathRewrite.FileHead | src/utils/index.ts:46-48 | the file rewrite keeps the first character |
| PathRewrite.ConvertKeepsFirst | src/utils/index.ts:36-51 | a non-empty query keeps its first character, whatever the base |
| PathRewrite.DotSlashRemovesAll | src/utils/index.ts:38 | for a base without '@' or '$' that does not start with '.', no `@./` remains after the first rewrite |
| PathRewrite.LiteralRemovesAll | src/utils/index.ts:38 | the first rewrite with `@<base>/` inserted as written leaves no `@./` for such a base |
| PathRewrite.DotSlashLeading | src/utils/index.ts:38 | a leading `@./` becomes the expansion of `@<base>/` with empty text before the match; for a base without '$' that is `@<base>/` |
| PathRewrite.ConvertDotSlash | src/utils/index.ts:36-51 | for an absolute base without '@' or '$', `@./rest` becomes `@<base>/rest` (`@./foo.ts do X` with `/repo` gives `@/repo/foo.ts do X`) |
| PathRewrite.DirRewrite | src/utils/index.ts:41-43 | `@name/` becomes `@<base>/name/` |
| PathRewrite.DirSkipsAbsolute | src/utils/index.ts:41-43 | `@/` is not a directory token |
| PathRewrite.FileRewrite | src/utils/index.ts:46-48 | `@name.ext` becomes `@<base>/name.ext`, and the rest is left to the same pass |
| PathRewrite.FileSkipsAbsolute | src/utils/index.ts:46-48 | `@/` is not a file token |
| PathRewrite.AbsoluteUnchanged | src/utils/index.ts:41-48 | a token already starting `@/` passes the directory and file rewrites unchanged |
| PathRewrite.ConvertLeavesBareWord | src/utils/index.ts:36-51 | `@word` without '/' or '.' is left as it is |
| PathRewrite.DotSlashCount | src/utils/index.ts:38 | the first rewrite with `@<base>/` inserted as written keeps the number of '@' |
| PathRewrite.DirCount | src/utils/index.ts:41-43 | the directory rewrite keeps the number of '@' |
| PathRewrite.FileCount | src/utils/index.ts:46-48 | the file rewrite keeps the number of '@' |
| PathRewrite.ConvertPreservesAtCount | src/utils/index.ts:36-51 | with a base without '@' or '$', the number of '@' characters is preserved |
| PathRewrite.FormatForClaude | src/utils/index.ts:53-62 | the fixed header, the output verbatim, then `</system-message>` |
| SyncCommand.TimeoutSeconds | src/commands/sync.ts:110 | without a timeout option the configured value is used |
| SyncCommand.TimeoutOptionWins | src/commands/sync.ts:110 | a timeout option wins over the configured one |
| SyncCommand.PreparedQueryCases | src/commands/sync.ts:55-78 | a skipped or failing bundler falls back to the path-rewritten query; a bundled prompt starts with the cleaned query and the heading |
| SyncCommand.PreparedNonEmpty | src/commands/sync.ts:78-84 | the prepared query of a non-empty query is never empty, whatever the working directory |
| SyncCommand.Sync | src/commands/sync.ts:28-177 | an empty query and a missing Gemini binary stop first; otherwise the prepared prompt runs through the fallback loop over the chain, with the option or configured timeout |
| Inject.InstructionsHaveMarker | src/commands/inject.ts:10-54 | the instruction block carries the marker |
| Inject.HashCount | src/commands/inject.ts:83-86 | a heading is one or two '#' followed by white space; the count is 0 exactly when the line starts with neither `#` nor `##` followed by white space |
| Inject.FindFirst | src/commands/inject.ts:82-93 | the first line from a position satisfying a test, or none |
| Inject.SectionEnd | src/commands/inject.ts:85-88 | the end of a section lies after its heading, at most at the end |
| Inject.InsertAt | src/commands/inject.ts:89 | `splice(j, 0, x)`: x at j, everything else kept in order |
| Inject.FindBlockEnd | src/commands/inject.ts:85-88 | the while loop stops at the section end |
| Inject.InjectLines | src/commands/inject.ts:78-98 | the scan and splice give `Injected` |
| Inject.InjectedAtSection | src/commands/inject.ts:82-92 | at the first matching heading, exactly one element is inserted at the first later blank line or heading, or at the end |
| Inject.OnlyFirstSection | src/commands/inject.ts:82-93 | only the first matching heading is used: lines after its section do not matter |
| Inject.InjectedAtEnd | src/commands/inject.ts:95-98 | with no matching heading, the result is the lines then `''` and the block |
| Inject.InsertionIndex | src/commands/inject.ts:82-98 | the index where the block lands |
| Inject.InjectedKeepsLines | src/commands/inject.ts:78-100 | all original lines survive in order around the block |
| Inject.InjectedHasMarker | src/commands/inject.ts:78-100 | the written text carries the marker |
| Inject.Run | src/commands/inject.ts:56-107 | a missing file writes nothing; a marked file without --force writes nothing; otherwise the injected text is written |
| Inject.InjectIdempotent | src/commands/inject.ts:66-100 | after an injection the marker is present, so a second run without --force writes nothing |
| Init.TemplateHasMarker | src/commands/init.ts:12-38 | the CLAUDE.md template carries the marker |
| Init.Splice | src/commands/init.ts:138 | `splice(k, 0, ...items)` with k clamped to the length: items at the clamped index, everything else kept |
| Init.SpliceBlock | src/commands/init.ts:111-138 | the two scans and the splice give `Spliced` |
| Init.SplicedBeforeSection | src/commands/init.ts:115-138 | the block goes before the first `# Tools/Analysis/Commands/Development` line |
| Init.SplicedAfterTitle | src/commands/init.ts:123-138 | otherwise after the first `# ` line at an index above 0 |
| Init.SplicedByDefault | src/commands/init.ts:132-138 | failing both, at index 2, clamped to the line count |
| Init.SplicedKeepsLines | src/commands/init.ts:138-139 | exactly three elements are inserted and every other line is kept in order |
| Init.SpliceKeeps | src/commands/init.ts:138 | removing the spliced items gives back the lines |
| Init.InjectIntoClaudeMd | src/commands/init.ts:102-140 | a marked file is not written; otherwise the spliced text is |
| Init.UpdateIdempotent | src/commands/init.ts:106-108 | an updated CLAUDE.md carries the marker, so a second update writes nothing |
| Init.SplicedHasMarker | src/commands/init.ts:138-139 | the spliced text carries the marker of the block |
| Init.EntryHasConfigDir | src/commands/init.ts:82-83 | after appending the entry the .gitignore names `.claude-gemini/` |
| Init.ConfigStep | src/commands/init.ts:52-61 | the default configuration is written only when the file is missing; no other file changes |
| Init.ClaudeMdStep | src/commands/init.ts:63-76 | a missing CLAUDE.md is created from the template, an existing one updated; no other file changes |
| Init.GitignoreStep | src/commands/init.ts:78-86 | an existing .gitignore gains the entry only when it lacks `.claude-gemini/`; a missing one is not created |
| Init.WriteConfig | src/commands/init.ts:52-61 | the method does what `ConfigStep` says |
| Init.WriteClaudeMd | src/commands/init.ts:63-76 | the method does what `ClaudeMdStep` says |
| Init.WriteGitignore | src/commands/init.ts:78-86 | the method does what `GitignoreStep` says |
| Init.Run | src/commands/init.ts:40-100 | the three steps in order give `Initialize` |
| Init.InitializeFiles | src/commands/init.ts:52-86 | the contents of the config file, CLAUDE.md and .gitignore after `init` |
| Init.InitializeTouchesNothingElse | src/commands/init.ts:40-100 | no other file is created or changed |
| Init.InitializeInitializes | src/commands/init.ts:52-86 | after `init` the config exists, CLAUDE.md carries the marker when it is handled, and .gitignore names the directory |
| Init.InitializeIdempotent | src/commands/init.ts:52-108 | re-running `init` changes nothing |
| Init.UnchangedWhenInitialized | src/commands/init.ts:53-108 | an initialized project is left as it is |
| ConfigStore.Spread | src/config/index.ts:44-45 | `{...base, ...over}`: every key of either, the value from `over` where both have one |
| ConfigStore.MergeLastWins | src/config/index.ts:44 | a key takes the value of the last layer defining it |
| ConfigStore.MergeAbsent | src/config/index.ts:44 | a key in no layer is absent from the merge |
| ConfigStore.CollectLayers | src/config/index.ts:23-41 | the present files in the order global, project, root |
| ConfigStore.LoadConfig | src/config/index.ts:22-46 | the loaded configuration is the defaults overlaid by the merged layers |
| ConfigStore.LayersLastWins | src/config/index.ts:25-44 | per key, the root file beats the project file, which beats the global file |
| ConfigStore.LoadedLastWins | src/config/index.ts:25-45 | per key, the last layer defining it wins, and a key in no layer keeps its default |
| ConfigStore.LoadedWithoutFiles | src/config/index.ts:22-46 | with no files the configuration is the defaults |
| ConfigStore.SaveConfig | src/config/index.ts:55-59 | keys not in the update are kept and keys in it replaced |
| ConfigStore.Save | src/config/index.ts:48-60 | only the chosen file changes: global with `global`, project otherwise (the three files taken as distinct) |
| ConfigStore.SavedIsLoaded | src/config/index.ts:26-51 | a saved value is what loading returns, unless a later layer sets the key |
| ConfigCommand.ParseSet | src/commands/config.ts:19-23 | a key=value split accepts only a non-empty key with a second part |
| ConfigCommand.ParseSetParts | src/commands/config.ts:19 | the value runs from the first '=' to the second: `a=b=c` gives `b` |
| ConfigCommand.ParseSetRejects | src/commands/config.ts:19-23 | no '=' or an empty key is rejected |
| ConfigCommand.NumberValue | src/commands/config.ts:29 | decimal digit strings are read as their number |
| ConfigCommand.ParseValue | src/commands/config.ts:26-29 | exactly `true`/`false` are booleans, numeric strings numbers, anything else the string itself |
| ConfigCommand.ParseValueNumbers | src/commands/config.ts:29 | a number's decimal text becomes that number, and `''` becomes 0 |
| ConfigCommand.ListWritesNothing | src/commands/config.ts:11-16 | `--list` reports the loaded configuration and writes nothing, even with `--set` |
| ConfigCommand.InvalidSetWritesNothing | src/commands/config.ts:19-23 | a malformed `--set` writes nothing |
| ConfigCommand.SetSavesOneKey | src/commands/config.ts:26-31 | exactly one typed key is saved, to the global file iff `--global`, and is then loaded unless a later layer sets it |
| Text.TrimBlank | src/commands/sync.ts:451 | `trim()` is empty exactly for blank text |
| Text.TrimBothEnds | src/commands/sync.ts:451 | `trim()` is the start-trimmed text trimmed at its end: a middle slice with only white space removed on either side |
| Text.TrimEnds | src/commands/sync.ts:451 | neither end character of a trimmed text is white space |
| Text.TrimStart | src/commands/inject.ts:86 | strips exactly the leading white space |
| Text.TrimEnd | src/commands/inject.ts:86 | strips exactly the trailing white space |
| Text.Lower | src/commands/sync.ts:231 | `toLowerCase` on ASCII letters, character by character |
| Text.Split | src/commands/inject.ts:78 | `split` gives at least one part and no part holds the separator |
| Text.JoinSplit | src/commands/inject.ts:78-100 | joining the split lines gives back the text |
| Text.NatToString | src/commands/sync.ts:508 | a number's decimal text: digits, no leading zero, read back as the number |

## Left out

- Process spawning, real timers, SIGTERM/SIGKILL and the process-group kill are not modelled. A run is the sequence of events it produces, handed to `RunAttempt` by `Fallback.Backend`. An event list that ends unsettled counts as a timer firing.
- Console output: the spinner, colours, streamed stdout and its ANSI stripping, debug logs, and the guidance messages after a failure.
- The progress percentage (float arithmetic). Progress is recorded as the raw `onProgress` arguments.
- SyncCommand.TimeoutSeconds: requires the timeout option to be a decimal digit string, with no `parseInt` of other text, and counts whole seconds, with no multiplication into milliseconds.
- SyncCommand.Sync: requires the timeout option to be a decimal digit string, for the same reason.
- ConfigCommand.NumberValue: reads only blank text, decimal digits and a sign followed by digits as numbers. Other `Number` syntax (decimals, exponents, hexadecimal, `Infinity`) stays a string.
- `path.resolve`, `path.dirname` and `path.basename` are abstract functions. `path.join(base, name)` is `base + "/" + name`, with no normalisation of `.` or `..`.
- The config file paths that `init` uses are inputs, assumed distinct where a lemma says so.
- `findGeminiPath`, `findCode2PromptPath`, `runCode2Prompt` and `extractPathsFromQuery` are inputs. Their code is not part of this model. Found binaries are booleans, and the bundler and extractor are functions.
- `validatePaths` is left out: it only prints warnings.
- The bundled prompt's token count is carried in `Processed` but only displayed, so nothing more is modelled about it.
- Reading, writing and checking files is modelled as file contents in and out. An I/O error leading to `process.exit(1)` is not modelled.
- JSON values are limited to booleans, integers, strings and string lists. The JSON text of the default configuration `init` writes is a constant.
- Case-insensitive heading tests and `toLowerCase` fold ASCII letters only.
- Unicode white space follows JavaScript's `trim` set. No normalisation is done.
- Bundler.TakeUnits: when a cut falls between the two halves of a surrogate pair, JavaScript keeps the lone first half. A Dafny `char` cannot be a lone surrogate, so the model stops one code unit earlier.
- ConfigStore.Save: the global, project and root configuration files are three distinct files. When the working directory is the home directory, the global and project paths name the same file. That aliasing is not modelled: a global save then also changes the project layer.
- `watch` mode, the `cli.ts` option parsing, `setup.ts` and the Homebrew formula are outside the core.
