# Verified models of tldr's timing, recovery, output and discovery code

This project models the parts of the repository whose correctness rests on state, order or arithmetic, and proves what
they promise for every input, every run and every interleaving. `dafny verify dfyconfig.toml` checks all of it.

**Timing statistics** (`BuildTiming`, `BuildSummary`, `TimingCollector`). An accumulator keeps a count, a saturating
total, extremes, 64 logarithmic buckets and ten slow units. Its class is proved against the unbounded history it has
forgotten. Percentiles are right to the bucket exactly when the saturating product does not cap the rank. A collector of
accumulators conserves every statistic between a kind and its groups, under saturation.

**The embedding worker** (`JobLedger`, `EmbedWorker`, `WorkerSafety`, `WorkerBudget`, `WorkerOutcome`, `WorkerEnding`,
`WorkerMain`). One run is a machine of single ledger writes, emissions and build actions, cut anywhere by a kill. The
environment decides each step. The imperative `Worker` class is proved to do what the machine does. The events of every
run are proved to tell its story, and every outcome of the build is followed to its end. What a crash can leave behind,
and what any sequence of runs does to the retry budget, is proved about the machine.

**The compact output** (`Splitting`, `CompactTsv`, `Decimal`, `Paths`, `PathTexts`, `Roses`, `DisplayedFiles`,
`ImpactOutput`, `ImpactRoundTrip`, `ImpactDetermined`, `ImpactTrees`). A parser of the impact report is written here
and proved to undo the printer exactly unless a relative common prefix of several files is itself one of them and the
cells do not tell so, or the prefix below itself is one as well. Apart from the parser, a text is proved to determine
what its report is about exactly unless some cell shows that prefix and need not; whenever it does, the parser reads
it.

**The result cache** (`McpCache`, `JsonKeys`, `CacheKeys`, `KeyScanner`). The bounded map is proved against the log of
all operations. The canonical JSON form, its text and the key built from it identify a call up to member order, for
every tool name.

**Project discovery and small algorithms.** `Walker`, `WalkerRules`: the pruned walk against the classification of
single paths, rule by rule. `LanguageRank`, `LanguageAnswer`, `LanguageTells`, `ManifestRank`, `ProjectLanguage`: the
language of a project, and when the order of directory listings decides it. `CargoWorkspace`, `CargoLists`,
`CargoComments`, `GoWorkspace` (over `Trimming`): the hand-written manifest readers undo the writing of member lists,
comments included, exactly for the names and comments stated. `Utf8`: truncation without cutting characters.
`Cancellation`: threads sharing a counter that rations cancellation checks.

Where the code and its documentation or evident purpose disagree, the code is modelled and the disagreement is a lemma:

- `docs/SEMANTIC_BUILD_RECOVERY.md:35` calls retry exhaustion finite and durable across invocations. Killing the worker
  between the removal of the old record and the commit of the new one forgets the spent attempts; this breaks the budget
  exactly for limits of two or more (`WorkerBudget.BudgetBreakableIff`).
- `crates/tldr-core/src/walker.rs:316-320` says that `no_default_ignore` disables the default exclusions. While ignore
  files are respected it changes no walk (`Walker.NoDefaultIgnoreChangesNothing`). So the second walk of
  `crates/tldr-core/src/types.rs:430-463` never finds anything (`LanguageRank.RetryNeverHelps`).
- `crates/tldr-core/src/types.rs:939-941` calls the choice among manifests of equal precedence cosmetic. Two
  `package.json` files of one depth can disagree about TypeScript, and then the order of a directory listing decides
  the opinion (`ManifestRank.OrderIrrelevantIff`); the answer itself depends on it exactly when the call is
  close as well and files let the disagreement show (`ProjectLanguage.OrderMattersIff`).
- `crates/tldr-core/src/types.rs:350-354` also promises the manifest tiebreaker for a dominant language with a handful
  of files. The code asks the manifest only in a close call (`LanguageRank.ManifestDecidesIff`); two files of Rust
  against one of Go in a Go module are answered as Rust (`LanguageRank.HandfulIsNoCloseCall`).
- The answered language can be one without files: exactly when C or C++ leads, the language selected by the extension
  counts has none, and no manifest decides a close call (`LanguageRank.AnswerHasFilesIff`). A `.c++` project is one
  (`LanguageRank.PlusPlusIsCalledC`).
- The Cargo reader drops patterns that start like a comment, but a comment takes the next member with it, whether it
  stands behind a comma, on a line of its own or behind the opening bracket, and it spoils a last member that has no
  comma (`CargoComments.CommentsSwallowMembers` says what is left). A list of one commented member is not seen as a
  workspace (`CargoComments.CommentHidesTheWorkspace`). Commas and brackets in comments are read as those of the list
  (`CargoComments.CommentedListRoundTripIff`, `CargoComments.CommentAddsPattern`). A key of the section that only begins
  with `members` hides a list behind it (`CargoWorkspace.LongerKeyHidesTheWorkspace`).
- `crates/tldr-core/src/walker.rs:461-463` says that hiding names in `classify_path` mirrors the walk, and
  `crates/tldr-core/src/walker.rs:453-454` calls its verdicts authoritative. The traversal library is left to honour
  `.ignore` files even when ignore files are not respected (`crates/tldr-core/src/walker.rs:594-611`,
  `Walker.HonouredIgnoreFileDisagrees`), and it keeps a dot file that an ignore rule readmits
  (`Walker.ReadmittedDotFileDisagrees`). `Walker.AgreesIff` says, for any library, exactly when walk and classification
  agree.
- The result cache evicts by instant of insertion. When instants may stand still, it can lose a key before
  `max_entries` later insertions, exactly for two entries or more (`McpCache.RetentionBreakableIff`).

Parameters standing for code or facts outside the model: the environment's decisions (worker), instants and elapsed
time, the ignore matchers and the directory traversal library's own skip decision (walker), the manifests present in
each directory, and the order in which hash maps and directories list their entries.

## Model

| member | source | states |
|---|---|---|
| BuildTiming.UnitAccumulator.Record | crates/tldr-core/src/build_timing.rs:221-240 | after a unit, the bounded state is again what the whole history determines: saturated count and total, extremes, buckets, ten slowest |
| BuildTiming.UnitAccumulator.Percentile | crates/tldr-core/src/build_timing.rs:242-259 | the loop over buckets finds the floor of the first bucket at which the history's running count reaches the rank |
| BuildTiming.UnitAccumulator.Summary | crates/tldr-core/src/build_timing.rs:261-273 | the summary is the one an unbounded log of the same units gives, which `BuildSummary.SummaryTells` describes field by field |
| BuildSummary.SummaryTells | crates/tldr-core/src/build_timing.rs:261-273 | number and total as far as a word holds them; minimum and maximum bound every duration and are attained; p50 <= p95 <= max; before a word overflows p50 and p95 bracket the durations of ranks n/2 and 19n/20, rounded up; at most ten units, longest first, and no other unit is longer |
| BuildSummary.StatisticHasRank | crates/tldr-core/src/build_timing.rs:242-259 | the reference statistic is a duration that fewer units than the rank fall below, and at least as many do not exceed |
| BuildTiming.TopTenIsMaintained | crates/tldr-core/src/build_timing.rs:233-239 | pushing, sorting and truncating at every step keeps exactly the first ten of the stable descending sort of all units |
| StableSort.SortIsStable | crates/tldr-core/src/build_timing.rs:237-238 | the reference order is descending and keeps the arrival order of ties |
| StableSort.StableOrderIsUnique | crates/tldr-core/src/build_timing.rs:237-238 | there is only one such order, so every stable sort yields it |
| BuildTiming.PercentileNeverFallsBack | crates/tldr-core/src/build_timing.rs:252-258 | for a proper fraction some bucket always reaches the rank, even when every counter is saturated |
| BuildTiming.PercentileBracketsTheStatistic | crates/tldr-core/src/build_timing.rs:226-259 | without saturation the percentile is 0 exactly when the nearest-rank statistic is, else a power of two at most that, less than a factor of two below (four in the top bucket) |
| BuildTiming.PercentileExactIff | crates/tldr-core/src/build_timing.rs:246-250 | the percentile is right for all histories of n units exactly when n times the numerator does not exceed what the capped product still ranks |
| BuildTiming.PercentilesAreOrdered | crates/tldr-core/src/build_timing.rs:268-270 | a larger percentile is never reported smaller and none exceeds the maximum, saturated or not |
| TimingCollector.UnitTimingCollector.Record | crates/tldr-core/src/build_timing.rs:108-119 | one entry under the given kind and group is added to what the collector remembers |
| TimingCollector.UnitTimingCollector.RecordGrouped | crates/tldr-core/src/build_timing.rs:123-136 | the unit is added under the kind alone and under the kind with its group |
| TimingCollector.UnitTimingCollector.RecordAggregate | crates/tldr-core/src/build_timing.rs:164-175 | only the accumulator of that key changes, and it holds that key's history |
| TimingCollector.UnitTimingCollector.Summaries | crates/tldr-core/src/build_timing.rs:178-183 | one summary per key ever recorded, in strictly ascending key order, each describing all of that key's units |
| TimingCollector.WholesComeBeforeGroups | crates/tldr-core/src/build_timing.rs:177-183 | in that order kinds stand together, ascending by their first different character, the whole of a kind before its groups, and these ascend as well |
| TimingCollector.GroupsMergeIntoTheWhole | crates/tldr-core/src/build_timing.rs:123-136 | if a kind is only recorded with groups, its whole accumulator is the merge of the groups' saturated ones: count, total, buckets, extremes and slowest list |
| TimingCollector.SlowestConserved | crates/tldr-core/src/build_timing.rs:233-239 | among the slowest of the whole, those of one group open that group's own list, in order |
| WorkerMain.Worker.CommitJob | crates/tldr-core/src/semantic/redb_store.rs:536-598 | a commit the environment allows is taken exactly when the record is well formed, of the same protocol and recipe, neither a step back nor a gap; then the ledger holds it, and otherwise what it held |
| WorkerSafety.StepHolds | crates/tldr-cli/src/bin/tldr_embed_worker.rs:13-168 | the invariant on ledger, store, events and program counter survives every step and every decision of the environment |
| WorkerBudget.EveryCrashPointIsSafe | crates/tldr-core/src/semantic/worker_protocol.rs:134-170 | wherever a run is cut, every event already emitted is true of the durable state; batches increase strictly; attempts lie between one and the limit |
| WorkerBudget.SpentIsExactIff | crates/tldr-cli/src/bin/tldr_embed_worker.rs:51-81 | a run charges exactly one attempt if it recorded one, unless it stopped between removing the old record and committing the new one |
| WorkerBudget.LedgerStaysOk | crates/tldr-cli/src/bin/tldr_embed_worker.rs:136-164 | over any runs with one limit: failed means exhausted, pending means some but not all attempts spent, running and completed mean attempts left |
| WorkerBudget.RetriesAreBounded | docs/SEMANTIC_BUILD_RECOVERY.md:33-35 | over runs of one job none of which stopped in the window, started attempts never exceed the limit by more than the completions |
| WorkerBudget.CyclesAreUnbounded | crates/tldr-cli/src/bin/tldr_embed_worker.rs:63-80 | two well-timed kills per attempt let a job with a limit of two or more start any number of attempts |
| WorkerBudget.LimitOneLosesNothing | crates/tldr-cli/src/bin/tldr_embed_worker.rs:51-67 | with a limit of one no attempt is ever forgotten |
| WorkerBudget.BudgetBreakableIff | docs/SEMANTIC_BUILD_RECOVERY.md:33-35 | some runs of one job start more attempts than the limit without completing, exactly when the limit is at least two |
| WorkerBudget.ExhaustionIsAbsorbing | crates/tldr-cli/src/bin/tldr_embed_worker.rs:56-62 | later runs of an exhausted job at most announce the failure and change nothing, for ever |
| WorkerBudget.CompletionIsStable | crates/tldr-cli/src/bin/tldr_embed_worker.rs:39-50 | a completed job asked for again without metrics is answered from the store and changes nothing |
| WorkerBudget.CompletionIsRecordedIff | crates/tldr-cli/src/bin/tldr_embed_worker.rs:133-147 | the ledger takes the completion exactly when the last progress report was the highest |
| WorkerBudget.FailureIsRecordedIff | crates/tldr-cli/src/bin/tldr_embed_worker.rs:149-165 | the ledger takes the failure exactly when the unrecorded report was at most one batch ahead |
| WorkerBudget.SteadyBuildsAreRecorded | crates/tldr-cli/src/bin/tldr_embed_worker.rs:97-112 | when reports rise by at most one window, the ledger refuses no progress, completion or failure |
| WorkerOutcome.EventsTellTheRun | crates/tldr-cli/src/bin/tldr_embed_worker.rs:22-168 | wherever a run is cut, its events are the start of one story - a discarded record, the attempt's number, per report its batch if raised and its progress - and at most one outcome; it exits well exactly when its last event is a completion |
| WorkerEnding.RunBegins | crates/tldr-cli/src/bin/tldr_embed_worker.rs:24-95 | undisturbed, a run answers a completed job from its store, or announces a used-up budget, or records the attempt over whatever record it found and starts the build |
| WorkerEnding.ReportGoesThrough | crates/tldr-cli/src/bin/tldr_embed_worker.rs:97-112 | a report raises the record to the highest one and the build goes on; one that skips a batch ends the run with nothing recorded |
| WorkerEnding.DeliveredBuildEnds | crates/tldr-cli/src/bin/tldr_embed_worker.rs:115-147 | a build that delivers exits well with the job completed at its highest report and the store's vectors announced, unless its last report was not the highest, when nothing is recorded |
| WorkerEnding.FailedBuildEnds | crates/tldr-cli/src/bin/tldr_embed_worker.rs:149-166 | a build that fails exits badly with the attempt charged, failed or pending by the limit, and announced |
| WorkerEnding.FaultEnds | crates/tldr-cli/src/bin/tldr_embed_worker.rs:97-168 | a write or emission that fails in the callback fails the build, and anywhere else ends the run as it stands |
| WorkerEnding.UndisturbedRunCompletes | crates/tldr-cli/src/bin/tldr_embed_worker.rs:13-147 | with steady reports and nothing failing, the whole run: exit, record, store and every event |
| WorkerEnding.UndisturbedRunFails | crates/tldr-cli/src/bin/tldr_embed_worker.rs:13-166 | the same when only the build fails |
| WorkerMain.Worker.OnProgress | crates/tldr-cli/src/bin/tldr_embed_worker.rs:97-112 | the callback follows the machine: the running record is raised, committed, acknowledged and reported, in that order |
| WorkerMain.Worker.Complete | crates/tldr-cli/src/bin/tldr_embed_worker.rs:133-147 | the success tail follows the machine to its end |
| WorkerMain.Worker.Fail | crates/tldr-cli/src/bin/tldr_embed_worker.rs:149-166 | the failure tail follows the machine to its end |
| WorkerMain.Worker.Work | crates/tldr-cli/src/bin/tldr_embed_worker.rs:13-168 | whatever the environment decides, ledger, store, events and exit are those of the step machine, and the exit is a success exactly when the last event is a completion |
| CompactTsv.CompactCellIsOnePass | crates/tldr-cli/src/output.rs:252-259 | the four chained replacements are one left-to-right escape |
| CompactTsv.CellHasNoFraming | crates/tldr-cli/src/output.rs:252-259 | an escaped cell holds no tab, carriage return or newline |
| CompactTsv.UnescapeInvertsCompactCell | docs/COMPACT_OUTPUT.md:28-29 | the reader accepts exactly the cells the program writes and returns what was written |
| CompactTsv.DocumentRoundTrip | docs/COMPACT_OUTPUT.md:21-29 | splitting a document at newlines and tabs gives back the original cells of every list of rows |
| CompactTsv.OnlyPrintedDocumentsParse | docs/COMPACT_OUTPUT.md:21-29 | and nothing but printed documents can be read |
| Paths.FindCommonPathPrefix | crates/tldr-cli/src/output.rs:23-54 | the loops find the longest component prefix shared by two or more paths, or the parent of one |
| Paths.CommonPrefixIsLongest | crates/tldr-cli/src/output.rs:20-22 | a path is shared by all exactly when it is a prefix of the result |
| Paths.CommonPrefixIgnoresOrder | crates/tldr-cli/src/output.rs:20-54 | the prefix depends only on which paths there are |
| Paths.StripIsInjective | crates/tldr-cli/src/output.rs:58-66 | among paths none of which lies below another, the displayed path names the path |
| Paths.RenderIsReadable | crates/tldr-cli/src/output.rs:328-332 | the text of a normalised path reads back as that path |
| PathTexts.NormalizedIs | crates/tldr-cli/src/output.rs:328-332 | a normalised path is rooted if its text is, and steps in order through the pieces of the text that are neither empty nor a dot |
| PathTexts.DotsCountAtTheStart | crates/tldr-cli/src/output.rs:328-332 | a dot is a component only as the first piece of a relative path |
| PathTexts.ComponentsReadBack | crates/tldr-cli/src/output.rs:48-53 | collecting the components of any path gives a path with the same components |
| Roses.TreeFromDepths | crates/tldr-cli/src/output.rs:322-346 | the depth column alone determines shape, order and labels of a caller tree |
| DisplayedFiles.FilesDecodeIff | crates/tldr-cli/src/output.rs:58-66 | the reader recovers all files from cells and prefix exactly unless a relative prefix of several files is one of them and the cells do not all begin alike, or the prefix below itself is a file too |
| DisplayedFiles.AntichainsDecode | crates/tldr-cli/src/output.rs:58-66 | in particular when no file lies below another |
| DisplayedFiles.DeterminedIff | crates/tldr-cli/src/output.rs:58-66 | cells and prefix have one reading as files exactly unless some file is shown as the relative prefix and the cells do not all begin alike or another file is shown so too |
| ImpactOutput.FormatCallerRows | crates/tldr-cli/src/output.rs:322-346 | appends the rows of one tree, pre-order, and nothing else |
| ImpactOutput.FormatImpact | crates/tldr-cli/src/output.rs:349-384 | the text is the specified one for any listing order of the target map |
| ImpactRoundTrip.ImpactTextIgnoresOrder | docs/COMPACT_OUTPUT.md:30 | the text does not depend on the order in which the hash map lists its targets |
| ImpactRoundTrip.ImpactRoundTripIff | crates/tldr-cli/src/output.rs:349-384 | the parser recovers the total, the sorted targets and every caller tree exactly when it recovers the files, under the condition of `FilesDecodeIff` |
| ImpactDetermined.TextDeterminesIff | crates/tldr-cli/src/output.rs:349-384 | all reports with this text are about the same exactly unless some file is shown as the relative prefix and need not be it |
| ImpactDetermined.DeterminedTextsAreRead | crates/tldr-cli/src/output.rs:349-384 | the parser reads every text that determines what its report is about, so no reader succeeds on more such texts |
| ImpactTrees.CallersAreReadBack | crates/tldr-cli/src/output.rs:322-384 | the parsed trees have, node by node, the callers' own file, function, count, truncation, note and receiver, an absent one being empty |
| ImpactTrees.AlikeTextsIff | crates/tldr-cli/src/output.rs:322-384 | a report whose text determines it prints like another exactly when their totals, targets and all printed fields of all callers agree |
| ImpactTrees.RowsLookLike | crates/tldr-cli/src/output.rs:333-381 | header, column, target and caller rows, spelled out cell by cell |
| McpCache.L1Cache.Get | crates/tldr-mcp/src/cache.rs:48-56 | a hit is the latest value inserted since invalidation or clearing, and asked for before its instant plus the time to live; a miss has one of three reasons |
| McpCache.L1Cache.Insert | crates/tldr-mcp/src/cache.rs:62-81 | without room exactly one oldest entry goes, else none; size stays within max(1, max_entries) and, under increasing instants, nothing goes before max_entries later insertions |
| McpCache.L1Cache.Invalidate | crates/tldr-mcp/src/cache.rs:94-96 | only that key goes |
| McpCache.L1Cache.Clear | crates/tldr-mcp/src/cache.rs:99-101 | everything goes, and the log knows it |
| McpCache.EvictionKeeps | crates/tldr-mcp/src/cache.rs:63-73 | the oldest of enough entries has been overtaken by enough insertions to be due |
| McpCache.OneMoreLosesTheNewest | crates/tldr-mcp/src/cache.rs:65-69 | with equal instants, the map once full may lose its newest entry to the very next insertion, for every bound of two or more |
| McpCache.RetentionBreakableIff | crates/tldr-mcp/src/cache.rs:62-101 | with instants that may stand still, some run of the operations loses a key before max(1, max_entries) later insertions exactly when max_entries is at least two |
| JsonKeys.SortedAlikeIff | crates/tldr-mcp/src/cache.rs:116-131 | two values have one canonical form exactly when they differ in member order only, at any depth |
| JsonKeys.SortedIsEquivalent | crates/tldr-mcp/src/cache.rs:116-131 | the canonical form is equivalent to the value it came from and has no duplicate members |
| JsonKeys.SortIsIdempotent | crates/tldr-mcp/src/cache.rs:116-131 | sorting twice is sorting once |
| JsonKeys.NamesAscend | crates/tldr-mcp/src/cache.rs:119-127 | in the canonical form the names of the members of an object ascend by their first different character |
| CacheKeys.TextIs | crates/tldr-mcp/src/cache.rs:108-111 | the text spells words, bracketed lists and braced members as JSON does, separated by commas alone |
| CacheKeys.EscapedIff | crates/tldr-mcp/src/cache.rs:108-111 | a character stands for itself exactly unless it is a quote, a backslash or a control character |
| CacheKeys.ValuesDecode | crates/tldr-mcp/src/cache.rs:108-111 | the compact text of a value ends where the value ends and names it |
| KeyScanner.NothingBeforeAColon | crates/tldr-mcp/src/cache.rs:108-111 | no JSON text is some text, a colon and a JSON text |
| KeyScanner.SameKeyIff | crates/tldr-mcp/src/cache.rs:103-111 | two calls share a key exactly when tool and arguments agree up to member order, for every tool name |
| Walker.WalkIsWhatIsAccepted | crates/tldr-core/src/walker.rs:364-439 | within the depth limit an entry is yielded exactly when classify_path, its rule for hidden names aside, accepts it and every directory above it (links pass whatever their extension) and the library drops none of them |
| Walker.AgreesIff | crates/tldr-core/src/walker.rs:364-504 | whatever the library does, walk and classification agree on a tree exactly when it drops nothing of its own accord that the classification accepts, and keeps no name to be hidden against which nothing else speaks |
| Walker.WalkAgreesWithClassification | crates/tldr-core/src/walker.rs:364-504 | they agree on every tree for a library that drops every name to be hidden and otherwise only what one of the ignore matchers excludes |
| Walker.HonouredIgnoreFileDisagrees | crates/tldr-core/src/walker.rs:594-611 | without ignore matchers a file that an honoured ignore file excludes is accepted and not yielded |
| Walker.ReadmittedDotFileDisagrees | crates/tldr-core/src/walker.rs:459-469 | a dot file that the library keeps and no matcher excludes is yielded and classified as hidden |
| Walker.WalkIff | crates/tldr-core/src/walker.rs:402-439 | the recursive walk yields an entry exactly when no step on its path is skipped and the allow-list keeps it |
| Walker.WalkOnce | crates/tldr-core/src/walker.rs:364-439 | no entry is yielded twice |
| Walker.GitDenyIsFinal | crates/tldr-core/src/walker.rs:54-76 | what Git excludes is never yielded, nor anything below it, whatever the other ignore rules and the library say |
| WalkerRules.TldrDenyIsFinal | crates/tldr-core/src/walker.rs:54-76 | what the project's own ignore rules exclude is never yielded, nor anything below it, whatever Git says |
| WalkerRules.VerdictIs | crates/tldr-core/src/walker.rs:458-502 | each verdict of classify_path, exactly: a dot name to be hidden, Git's or the project's exclusion, output directories by name or generator file, an extension not listed |
| WalkerRules.YieldedIff | crates/tldr-core/src/walker.rs:364-439 | the same rules say exactly what the walk yields |
| Walker.HintOnlyAdds | crates/tldr-core/src/walker.rs:559-565 | the JavaScript or TypeScript hint adds exactly the entries in or below directories with preserved names |
| Walker.NoDefaultIgnoreChangesNothing | crates/tldr-core/src/walker.rs:397-418 | while ignore files are respected, walks with and without the default exclusions are the same |
| Walker.NoDefaultIgnoreWorksIff | crates/tldr-core/src/walker.rs:402-416 | the option reaches an excluded directory exactly when ignore files are not respected |
| Walker.RootIsJsTsDominated | crates/tldr-core/src/walker.rs:622-674 | the loop decides by strict majority among the first 256 files that count |
| LanguageRank.Tally | crates/tldr-core/src/types.rs:408-428 | the counts are those of the files outside documentation, with no empty entries |
| LanguageRank.CVersusCpp | crates/tldr-core/src/types.rs:863-900 | Swift or Rust only when it outnumbers C and C++ together, C++ only when it outnumbers C |
| LanguageTells.ExtensionTellsIff | crates/tldr-core/src/types.rs:179-218 | an extension is recognised as a language exactly when the language lists it, in lower case |
| LanguageTells.LowerIs | crates/tldr-core/src/types.rs:179-185 | lower case turns the capital letters of ASCII into the small ones of their places, and the Kelvin sign into k |
| LanguageTells.TellsIff | crates/tldr-core/src/types.rs:406-428 | a file counts for a language exactly when no component of its path names documentation and its name ends in an extension the language lists |
| LanguageTells.CountsAsJsTsIff | crates/tldr-core/src/walker.rs:655-663 | the extensions counted for the hint are those listed for TypeScript and JavaScript |
| LanguageTells.CountsAsOtherIff | crates/tldr-core/src/walker.rs:664-669 | the extensions counted against it are those listed for all other languages, except some spellings of C++ and Kotlin |
| LanguageRank.FromDirectory | crates/tldr-core/src/types.rs:437-538 | the answer is the one defined by the counts alone: top language, family merge, four-fifths rule, manifest with files |
| LanguageAnswer.AnswerIs | crates/tldr-core/src/types.rs:465-538 | on raw counts: nothing without files that tell, else the leader, or what the extension counts select where C or C++ leads, unless a rival has 80 in 100 of its files and the manifests name a language with files |
| LanguageAnswer.LeadsIff | crates/tldr-core/src/types.rs:465-475 | the leader has most files, and the least name among those with as many |
| LanguageAnswer.FilesAreCounted | crates/tldr-core/src/types.rs:409-413 | of the walked entries exactly the files and the links to files are counted, as often as they were walked |
| LanguageRank.AnswerIgnoresOrder | crates/tldr-core/src/types.rs:465-475 | the answer does not depend on the order of walks or hash maps |
| LanguageRank.MergedSecond | crates/tldr-core/src/types.rs:497-521 | after merging C and C++ the first place holds the family's count, and second place tells whether any rival has four fifths of it |
| LanguageRank.ManifestDecidesIff | crates/tldr-core/src/types.rs:518-538 | a manifest changes the answer exactly when a rival has four fifths of the dominant count and the manifest's language has files |
| LanguageRank.HandfulIsNoCloseCall | crates/tldr-core/src/types.rs:350-354 | few files alone do not let the manifest decide: Rust wins two files to one in a Go module |
| LanguageRank.AnswerHasFilesIff | crates/tldr-core/src/types.rs:497-538 | the answered language has files exactly unless C or C++ leads, the language selected by the extension counts has none, and no manifest decides a close call |
| LanguageRank.PlainAnswerHasFiles | crates/tldr-core/src/types.rs:876-898 | in particular with plain file names |
| LanguageRank.PlusPlusIsCalledC | crates/tldr-core/src/types.rs:201-203 | a project with only a .c++ file is answered as C, of which it has none |
| LanguageRank.RetryNeverHelps | crates/tldr-core/src/types.rs:430-463 | while ignore files are respected, the second walk never finds what the first did not |
| ManifestRank.ListDirectories | crates/tldr-core/src/types.rs:942-956 | the directories are listed root first, then its children, then theirs, grouped by parent |
| ManifestRank.DetectFromManifests | crates/tldr-core/src/types.rs:942-984 | the nested loops find the manifest of highest precedence, then least depth, then first in the listing |
| LanguageTells.OpinionIs | crates/tldr-core/src/types.rs:942-984 | there is an opinion unless no manifest is present, and it is the language of the one that stands first in precedence, then depth, then the listing |
| LanguageTells.ManifestSpeaksIff | crates/tldr-core/src/types.rs:999-1048 | every kind of manifest speaks for the one language that lists it, save package.json and those whose files decide |
| LanguageTells.EveryManifestHasItsPlace | crates/tldr-core/src/types.rs:623-664 | the precedence list names every kind of manifest exactly once |
| ManifestRank.OrderIrrelevantIff | crates/tldr-core/src/types.rs:932-956 | however each directory lists its children, the opinion is the same exactly unless deciding package.json files of one depth disagree about TypeScript |
| ProjectLanguage.OrderMattersIff | crates/tldr-core/src/types.rs:433-538 | the answer depends on listing order exactly when the call is close, deciding package.json files disagree, and both TypeScript and JavaScript have files or one of them has and is not the answer anyway |
| CargoWorkspace.ProbeCargoWorkspace | crates/tldr-core/src/types.rs:1927-1995 | the loop over the lines of a text computes the reader's result |
| CargoWorkspace.MembersArePatterns | crates/tldr-core/src/types.rs:1978-1992 | from any text, a result is a non-empty list of trimmed patterns without separators that do not start like a comment |
| CargoWorkspace.LaterSectionIsNotRead | crates/tldr-core/src/types.rs:1939-1950 | a header ends the workspace section: what later sections list is not read |
| CargoWorkspace.NoSectionNothingRead | crates/tldr-core/src/types.rs:1942-1952 | a file without a workspace section has no members, whatever else it lists |
| CargoWorkspace.LongerKeyHidesTheWorkspace | crates/tldr-core/src/types.rs:1954-1957 | a key of the section that goes on after members, with no equals sign next, leaves no workspace |
| CargoWorkspace.OtherValueIsPassedOver | crates/tldr-core/src/types.rs:1956-1968 | a value that is no list is passed over, and reading goes on behind it |
| CargoWorkspace.SpacesAre | crates/tldr-core/src/types.rs:1943 | what is trimmed is the white space of the Unicode standard, point by point |
| CargoWorkspace.OneLineRoundTripIff | crates/tldr-core/src/types.rs:1936-1990 | members written on one line, after any other sections, are read back exactly when every name is plain |
| CargoComments.ManyLinesRoundTripIff | crates/tldr-core/src/types.rs:1936-1990 | members written over many lines, with a comma behind the last one or without, with blank lines and with comments free of commas and closing brackets anywhere, are read back exactly when every name is plain and no comment stands before a member or behind one without a comma |
| CargoComments.CommentedListRoundTripIff | crates/tldr-core/src/types.rs:1936-1990 | with comments of any text whose pieces between commas are dropped, exactly when every name is plain, no bracket in a comment closes the list before a member, and only space stands between a member and the comma before it and, failing a comma, behind it |
| CargoComments.CommentsSwallowMembers | crates/tldr-core/src/types.rs:1978-1992 | of plain members exactly those are read that have no comment since the comma before them; a last one without a comma takes the comments behind it into its pattern |
| CargoComments.CommentSwallowsNextMember | crates/tldr-core/src/types.rs:1978-1988 | a comment behind a member's comma makes the next member vanish |
| CargoComments.CommentHidesTheWorkspace | crates/tldr-core/src/types.rs:1978-1992 | a comment on a line of its own before the only member leaves no workspace |
| CargoComments.CommentSpoilsLastMember | crates/tldr-core/src/types.rs:1978-1990 | a comment behind a last member without a comma is read as part of its pattern |
| CargoComments.CommentAddsPattern | crates/tldr-core/src/types.rs:1978-1990 | what stands behind a comma in a comment behind the last member is read as a member |
| CargoComments.CommentMayStandIn | crates/tldr-core/src/types.rs:1978-1990 | by chance a comment supplies the very member it takes, so that the list is read back although disturbed |
| GoWorkspace.ProbeGoWork | crates/tldr-core/src/types.rs:1998-2043 | the loop over the lines of a text computes the reader's result |
| GoWorkspace.DirectivesRoundTripIff | crates/tldr-core/src/types.rs:2024-2035 | members written one directive each are read back when every name is plain, and only then unless a name reads as the parenthesis of a block and lines follow |
| GoWorkspace.DirectivesBeforeLinesIff | crates/tldr-core/src/types.rs:2011-2035 | for names without quotes, or written in quotes: exactly when every name is plain, or the last one is the parenthesis of a block, the others are plain and the lines that follow, read inside a block, give just that parenthesis |
| GoWorkspace.OpeningNameMayBeReadBack | crates/tldr-core/src/types.rs:2011-2035 | that exception occurs: such a name, not plain, is restored by the line that follows |
| GoWorkspace.BlockRoundTripIff | crates/tldr-core/src/types.rs:2011-2029 | members written in a block are read back exactly when every name is plain; other lines do not matter |
| Utf8.TruncateAtCharBoundary | crates/tldr-core/src/util.rs:31-40 | returns the longest prefix of whole characters within the bound, at most three bytes short of it |
| Utf8.TruncateAtCharBoundaryFromEnd | crates/tldr-core/src/util.rs:60-69 | returns the longest suffix of whole characters within the bound, at most three bytes short of it |
| Utf8.BoundaryIffCharacterStart | crates/tldr-core/src/util.rs:36 | positions that are no continuation byte are exactly the starts of characters and the end |
| Utf8.DecodesOnce | crates/tldr-core/src/util.rs:31-69 | bytes are the text of at most one sequence of characters |
| Utf8.HeadAndTailMeetIff | crates/tldr-core/src/util.rs:31-69 | a head and a tail sharing out all bytes meet exactly at a boundary and otherwise lose one character |
| Cancellation.ChecksAreRationed | crates/tldr-core/src/limits.rs:294-302 | over any interleaving the real checks made and under way are one per interval, rounded up, until the counter wraps, and exactly what the wrapping counter rations after that |
| Cancellation.RationExactIff | crates/tldr-core/src/limits.rs:294-302 | one check per interval stays true for ever exactly when the interval divides the number of counter values |
| Cancellation.StepsDecide | crates/tldr-core/src/limits.rs:273-307 | over any steps the flag is set exactly by a cancellation, for good; a thread sees it exactly if it cancelled or looked afterwards; the clock is the time passed |
| Cancellation.CancelAndSeeIsOver | crates/tldr-core/src/limits.rs:305-307 | a cancellation and the sight of it by all other threads, whatever else happens, is the end |
| Cancellation.OwnCheckReports | crates/tldr-core/src/limits.rs:273-302 | the next due check of a thread that sees the cancellation reports it, and after the deadline every thread's does, whatever others do meanwhile |
| Cancellation.EveryWindowReports | crates/tldr-core/src/limits.rs:273-307 | once the steps include a cancellation seen by all threads, or the deadline, every k calls in counter order include an error, even across a wrap |
| Cancellation.ZeroInterval | crates/tldr-core/src/limits.rs:294-302 | an interval of zero checks the first call of each turn of the counter and no other |
| Cancellation.NothingReportedEarly | crates/tldr-core/src/limits.rs:273-302 | without cancellation and before the deadline no call reports an error |

## Left out

- The JSONL detail writer of the timing collector, its deferred error and `finish`: input and output only.
- The worker's metrics file, messages, job identifiers and timestamps; the request's other validity checks; and a second
  worker on the same ledger, which the ledger file's exclusive lock keeps out.
- WorkerMain.Worker.CommitJob: a write or emission that reports an error is taken as not having happened; a transaction
  that became durable although its commit failed, or a line written although the flush failed, is not among the
  environment's choices.
- The embedding build itself: it reports windows, publishes and ends as the environment decides. The store is known by
  its vector count only, so an answer from another generation of the same size is not told apart.
- Confidence in caller trees, which the compact format does not print; an absent note or receiver and an empty one print
  alike and are not told apart.
- Paths on other systems than Unix, and names that are not Unicode.
- McpCache.L1Cache.Insert: retention is promised under strictly increasing instants only;
  `McpCache.RetentionBreakableIff` says when it fails without.
- CacheKeys.ValuesDecode: numbers are taken as their printed text; how the JSON library prints them is not modelled.
- Walker.WalkIsWhatIsAccepted: what the traversal library drops is a parameter, since the library is not part of this
  model. Traversal errors are left out.
- LanguageTells.LowerIs: lower case is modelled as far as it makes letters of ASCII. Other letters stay as they are; no
  spelling of an extension holds one.
- LanguageRank.FromDirectory: the lines that read file contents, and the count of Kotlin against Java, are parameters of
  `ManifestRank`.
- ManifestRank.DetectFromManifests: how a directory's manifests are matched by name is a parameter.
- CargoWorkspace.ProbeCargoWorkspace: starts from the file's text and ends with the patterns; expanding them against the
  file system, the pnpm and package.json readers and the cap on members are left out, as they would add easy members.
- CargoComments.CommentedListRoundTripIff: lists with one member a line. Comments with a piece that reads as a pattern
  are not covered, since by chance they may stand in for a member (`CargoComments.CommentMayStandIn`).
- GoWorkspace.ProbeGoWork: starts from the file's text and ends with the patterns, as for Cargo.
- GoWorkspace.DirectivesRoundTripIff: for unquoted names that themselves hold quotes the exact condition is stated only
  while no name opens a block or no lines follow.
- Cancellation.EveryWindowReports: memory order is modelled by when each thread sees the cancellation; the number of
  threads is finite and the interval is the same within a window.
- The other compact formats, the text, DOT and SARIF output, the daemon, configuration and command tables.
