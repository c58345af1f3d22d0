# Verified models of axolotl's core algorithms

This project models seven components of axolotl in which a loop, an incremental parser or a concurrent protocol has to
agree with a simpler statement of what it is for, and proves that it does, for every input and every run. Run
`dafny verify dfyconfig.toml` to check it.

## What is modelled

**Role masks** (`src/axolotl/processing_strategies.py`). `RoleMask` says what the mask of a token row is: the spans a
greedy scan finds, and the positions a mode keeps of them. `DirectScan` and `IndexedScan` are the two scanners as they
are written, loops and in-place writes into a mask array included; both are proved to compute that mask, and so return
the same matrix. `SharedMarkers` proves that scanning inverts the `[INST]` template, whose `[/INST]` ends one span and
starts the next.

**Image token grid** (same file). `NemotronGrid` has the scaling arithmetic over exact fractions, `Placeholders` the
marker strings and `PlaceholderExpansion` the loop that fills placeholders.

**Streaming chat** (`src/axolotl/cli/chat.py`). `EosTrimmer` and `ThinkRenderer` are the two incremental parsers as
classes, proved to follow a small state machine on the whole text so far, from which the result for every chunking is
derived. `TurnCache` has the generator's cache and recorded tokens through whole sessions. The cache is the sequence of
tokens it encodes.

**Checkpoint publisher** (`src/axolotl/core/checkpoint_publisher.py`). `Publisher` is a state machine whose actions are
the single steps of the producer and of the worker thread, in any interleaving. The pool's shutdown is modelled as finely
as the standard library has it: it pops a pending call from the queue, cancels it, and runs its callback.

**Test selector** (`cicd/select_e2e_tests.py`). `SelectorHelpers` attributes facts to tests through helpers,
`SelectorBuild` derives importers and the keys that carry a signal, `SelectorEdges` says which tests a source module
carries itself, `SelectorImpact` has the selector with its three memo tables and climbs the import graph, `Selection`
builds the tree and takes the decision, the project file included, and `SelectionExample` is a tree that surprises.

**Mixed media and text** (`src/axolotl/datasets.py`). `MixedTokenize` with `StableSort`: split, map, concatenate, restore.

**Layout and splits**. `Delinearize` (`src/axolotl/cli/delinearize_llama4.py`) re-lays expert weights, `ExpertKeys`
proves that its substring tests read the names of expert weights as they were made; `ImageMix`
(`scripts/diffusion_lm/build_public_image_decision_mix.py`) builds train, dev and test.

`Options`, `Sequences` and `Search` are shared: an option type, the elements of a sequence, and first occurrences of a
sequence in another. Raised exceptions are
`Option` or `Result` values, or a flag.

## Where a property does not hold as one might state it

- **Chunking of EOS text.** The trimmed text is independent of chunking exactly when every nesting among the EOS strings
  is harmless: whenever one lies inside another at a positive offset and ends before it, some EOS string is a prefix of
  the outer one and completes no later. This is weaker than forbidding such nestings, and for any other list of EOS
  strings there are chunks that show something else (`EosTrimmer.ChunkingIndependence`, `EosTrimmer.ChunksMatter`; with
  `abcd` and `bc`, `EosTrimmer.NestedExample`).
- **Leading newlines of a reply.** Only those newlines after the close marker are dropped that arrived in the same chunk
  as the end of the marker, or before (lines 743-745). All of them are dropped exactly when they all had arrived
  (`ThinkRenderer.AllNewlinesDropped`; one text that prints in two ways, `ThinkRenderer.NewlineCanRemain`).
- **Cache in step with the recorded tokens.** Lines 954-958 reset after an interrupt that escapes the turn; lines 966-972
  catch every other exception without a reset. Generator errors are covered, since lines 577-579 reset themselves, and so
  are exceptions from rendering the prompt (line 521) and after the tokens have been recorded (from line 583 on). An
  exception in between, as out of the text callback, is not: if the cache has grown, it stays ahead of the recorded
  tokens, and the next turn reuses it. `TurnCache.StepSync` is the exact condition for a turn, `TurnCache.SessionSync`
  for a session, and `TurnCache.StaleExample` a session of two turns. Lines 465-466 promise a strict prefix of the
  prompt, which holds in all sessions without such an exception.
- **At least 1x1.** The grid has a row and a column exactly when the image fits the maximum, or its shorter side times the
  maximum is more than half its longer side. Otherwise a side rounds to nothing and the resized image is rejected
  (`NemotronGrid.GridBounds`, `NemotronGrid.ResizeStable`; 1 by 2800 pixels, `NemotronGrid.ThinImage`).
- **The worker never waits.** It waits for its predecessor exactly while a cancelling shutdown stands between popping that
  predecessor and cancelling it, and that step is then possible (`Publisher.WorkerBlocksOnlyOnDrain`). There is such a
  run (`Publisher.WorkerCanBlock`).
- **Drop count.** When every row is dropped the code returns early (lines 149-150), and no count is reported
  (`MixedTokenize.ProcessMixed`, `MixedTokenize.AllDropped`).
- **Group isolation.** Images and states are isolated by construction, so the image check cannot fail. The check of groups
  fails exactly when the materialized splits share a group (`ImageMix.Build`). An A-OKVQA question id that occurs in
  both of its splits is enough (`ImageMix.GroupsCanMeet`), since its group is the bare question id (line 143), while
  the groups of ScienceQA and CV-Bench name the split (lines 167 and 197). It cannot fail when no group occurs among the
  candidate rows of two splits (`ImageMix.ApartWhenRowsAre`).
- **Selector documentation.** Lines 21-23 of its docstring say that any other change under `tests/` runs everything, and
  line 13 that a module without edges runs the whole scope. The code skips test files outside the scope (863-864), runs
  only a known helper's tests (865-868), and climbs importers before it gives up (676-698). A deleted file under
  `src/axolotl` that is not a module selects nothing (852-855). `Selection.Tree.TestSupportRunsAll` is the exact
  condition under `tests/`, and `SelectionExample.LessThanDocumented` a tree on which all four differ. Lines 9-10 say that a
  module that reads a ubiquitous key runs the whole scope; it does exactly when its registry does not answer first
  (`SelectorEdges.Model.CoreRunsAll`, `SelectorEdges.RegistryAnswersFirst`). The model follows the code.
- **Other expert keys.** Keys under `.feed_forward.experts.` that are none of the three projections are not yielded
  (lines 23-67, `ExpertKeys.OthersAreLost`, `ExpertKeys.OtherKeysAreLost`); `Delinearize.Lossless` says what is.

## Model

| member | source | states |
|---|---|---|
| RoleMask.WinnerUnique | src/axolotl/processing_strategies.py:424-430 | at a position one boundary at most is the longest match, first listed among equals; the chosen one is that |
| RoleMask.WinnerIsLongest | src/axolotl/processing_strategies.py:424-433 | the chosen start marker stands at the position, none that does is longer, none as long is listed first, and an empty one never stands |
| RoleMask.SpansOrdered | src/axolotl/processing_strategies.py:419-474 | matched spans, which depend on neither roles nor mode, are ordered, what they consume is disjoint, and each advances the scan even when it rewinds |
| RoleMask.NothingSkipped | src/axolotl/processing_strategies.py:421-474 | every position where a start marker stands lies inside a matched span |
| RoleMask.SpansAreGreedy | src/axolotl/processing_strategies.py:419-474 | the next span starts at the first position with a start marker, looked for at an end marker that is not included and else behind the span, and with the winner there; behind the last one there is none |
| RoleMask.EndDecides | src/axolotl/processing_strategies.py:449-478 | whether a position in an end marker is kept is decided by that marker's own span, role and mode, never by an overlapping one |
| RoleMask.KeptWithin | src/axolotl/processing_strategies.py:440-478 | in every mode a start marker is kept exactly when its role is trained and its boundary includes it, a body exactly when its role is trained, an included end marker as the mode says |
| RoleMask.KeptOutside | src/axolotl/processing_strategies.py:440-478 | nothing else is kept |
| RoleMask.MasksNested | src/axolotl/processing_strategies.py:440-478 | the masks are nested none, last, turn, all; last adds to none exactly the final trainable end marker, all adds to turn exactly the untrained ones |
| RoleMask.ScanAdvances | src/axolotl/processing_strategies.py:440-474 | writing one span and remembering its end marker takes a correct scan state to the next one, further right |
| RoleMask.ScanEnds | src/axolotl/processing_strategies.py:476-478 | at the end of the row the marks with the remembered end marker are the role mask |
| RoleMask.KeepMaskUnique | src/axolotl/processing_strategies.py:504-510 | a matrix has one role mask |
| DirectScan.FindEnd | src/axolotl/processing_strategies.py:406-417 | the first end marker from a position on, or the end of the row when there is none |
| DirectScan.BestMatch | src/axolotl/processing_strategies.py:424-433 | the loop with the strict length comparison picks the unique winner |
| DirectScan.MarkSpan | src/axolotl/processing_strategies.py:442-464 | the in-place writes for one span add exactly what the span keeps in this mode |
| DirectScan.ScanRow | src/axolotl/processing_strategies.py:419-478 | the scan of one row leaves the role mask in the array |
| DirectScan.ComputeRoleKeepMask | src/axolotl/processing_strategies.py:387-480 | the direct scanner returns the role mask of every row |
| IndexedScan.SortLongestFirst | src/axolotl/processing_strategies.py:520-522 | the boundaries, each once, longest start marker first and list order among equals |
| IndexedScan.ClaimRow | src/axolotl/processing_strategies.py:535-560 | a boundary claims exactly the positions where it matches and none so far is as long |
| IndexedScan.AllClaimed | src/axolotl/processing_strategies.py:524-560 | once all have claimed, the table holds the winner at every position |
| IndexedScan.EndPositions | src/axolotl/processing_strategies.py:562-586 | the increasing list of exactly the positions where an end marker matches |
| IndexedScan.BisectLeft | src/axolotl/processing_strategies.py:622-625 | the insertion point: smaller entries before it, none after |
| IndexedScan.IndexRow | src/axolotl/processing_strategies.py:529-586 | the winner table and the end-position tables of a row are right |
| IndexedScan.LookUpSpan | src/axolotl/processing_strategies.py:611-630 | bisection finds the same span as a linear search, a missing end included |
| IndexedScan.WriteSpan | src/axolotl/processing_strategies.py:632-646 | the byte writes for one span add exactly what it keeps in this mode, and the remembered end marker is the one to add for "last" |
| IndexedScan.ScanIndexedRow | src/axolotl/processing_strategies.py:597-660 | the scan over the tables leaves the role mask in the byte array |
| IndexedScan.ComputeRoleKeepMaskVectorized | src/axolotl/processing_strategies.py:504-662 | the indexed scanner returns the role mask of every row, also for an empty matrix or no boundaries |
| IndexedScan.ScannersAgree | src/axolotl/processing_strategies.py:504-510 | both scanners return the same matrix for every matrix, boundary list, roles and mode |
| IndexedScan.MaskNonAssistantKeep | src/axolotl/processing_strategies.py:332-367 | whichever scanner the thread count selects, the keep mask is the same; it keeps everything when inputs are trained on or there are no boundaries |
| SharedMarkers.BlockSpan | src/axolotl/processing_strategies.py:419-438 | where a marker, a body free of its end marker and that end marker stand, the scan opens exactly that span |
| SharedMarkers.OneTurn | src/axolotl/processing_strategies.py:1302-1308 | a rendered turn gives two spans that share `[/INST]` |
| SharedMarkers.ScanInvertsRendering | src/axolotl/processing_strategies.py:1300-1309 | for any system block and any turns the default mask keeps exactly every assistant body with its EOS; only the three start markers need to differ |
| NemotronGrid.RoundHalfEven | src/axolotl/processing_strategies.py:1513-1516 | the result is a nearest integer, and even at a tie |
| NemotronGrid.RoundingUnique | src/axolotl/processing_strategies.py:1513-1516 | that determines the result |
| NemotronGrid.GridExactly | src/axolotl/processing_strategies.py:1509-1518 | an image that fits keeps its sides, of any other both become the nearest integer to their part of the maximum; rows cover the height, columns the width, with no more than needed |
| NemotronGrid.GridBounds | src/axolotl/processing_strategies.py:1509-1518 | the grid is within the maximum on both sides, the longer side of a scaled image fills it, and it is at least 1x1 exactly when both sides survive rounding |
| NemotronGrid.ResizeStable | src/axolotl/processing_strategies.py:1520-1543 | the resized image has the same grid and size again exactly when the grid is at least 1x1; otherwise it is rejected |
| NemotronGrid.ThinImage | src/axolotl/processing_strategies.py:1509-1523 | a size whose grid has no row, whose resized image is rejected, and the next height, which has one |
| Placeholders.MarkerEdge | src/axolotl/processing_strategies.py:1461-1464 | no marker is formed across a seam at which a marker starts or ends |
| Placeholders.TokenStringCounts | src/axolotl/processing_strategies.py:1545-1557 | how often each marker occurs in a token string, as `str.count` counts it in the text |
| Placeholders.GridMarkerAt | src/axolotl/processing_strategies.py:1545-1557 | in a grid the marker in row r and place c is a pad, and behind the last place of every row but the last a break |
| Placeholders.TokenStringLayout | src/axolotl/processing_strategies.py:1545-1557 | a token string is START, those markers in that order, and END |
| Placeholders.TokenCountIsMarkers | src/axolotl/processing_strategies.py:1525-1557 | the token count of an image is the number of markers in the token string of its resized size, and the pads are its merged patches |
| PlaceholderExpansion.SplitRejoins | src/axolotl/processing_strategies.py:1568 | splitting at the placeholder loses nothing |
| PlaceholderExpansion.SplitClean | src/axolotl/processing_strategies.py:1568 | no piece contains a placeholder |
| PlaceholderExpansion.CountInterleave | src/axolotl/processing_strategies.py:1563-1573 | a marker's count in the joined text is the sum over pieces and grids |
| PlaceholderExpansion.InterleavedInTurn | src/axolotl/processing_strategies.py:1563-1573 | the joined text is the pieces and the grids in turn |
| PlaceholderExpansion.CollapseInterleave | src/axolotl/processing_strategies.py:1568-1573 | collapsing every grid to its START gives back the pieces with plain placeholders between them |
| PlaceholderExpansion.ExpandImagePlaceholders | src/axolotl/processing_strategies.py:1559-1573 | succeeds exactly when the counts match and every grid exists; the k-th grid stands at the k-th placeholder, collapsing gives the prompt back, the START count is the number of images, the pads grow by the merged patches |
| StreamText.PartialSuffixLen | src/axolotl/cli/chat.py:164-170 | the longest suffix that is a proper prefix of the marker |
| StreamText.HoldBack | src/axolotl/cli/chat.py:432-438 | a marker completed by later text starts inside what is held back |
| EosTrimmer.EosTextTrimmer.Feed | src/axolotl/cli/chat.py:419-438 | the fields follow the cut of everything fed so far; emitted text is never taken back, and nothing is held back but the start of an EOS string |
| EosTrimmer.EosTextTrimmer.Finish | src/axolotl/cli/chat.py:440-443 | afterwards exactly the cut is on display and nothing is pending |
| EosTrimmer.TrimAll | src/axolotl/cli/chat.py:560-574 | for every chunking the display is a prefix of the text and contains no EOS string |
| EosTrimmer.StreamedIsClean | src/axolotl/cli/chat.py:406-411 | the same, of the specification |
| EosTrimmer.StreamedAtFirst | src/axolotl/cli/chat.py:419-438 | the display stops at the earliest EOS string of what has arrived with the first chunk that completes one; without any it is the whole text |
| EosTrimmer.ChunkingIndependence | src/axolotl/cli/chat.py:419-438 | the display is the text cut at its earliest EOS occurrence for every chunking, exactly when every nesting is harmless |
| EosTrimmer.ChunksMatter | src/axolotl/cli/chat.py:419-438 | otherwise gives chunks for which it is not |
| EosTrimmer.NestedExample | src/axolotl/cli/chat.py:419-438 | two EOS strings and two chunkings of one text that show different things |
| EosTrimmer.SingleIsHarmless | src/axolotl/cli/chat.py:406-411 | a single EOS string is always harmless |
| ThinkRenderer.LedFind | src/axolotl/cli/chat.py:721-724 | in a text led by the open marker, the first open marker found is the leading one |
| ThinkRenderer.ThinkStreamRenderer.Feed | src/axolotl/cli/chat.py:699-704 | mode, pending, thinking and printed text follow the view of the whole text; without collapsing everything is printed |
| ThinkRenderer.ThinkStreamRenderer.Process | src/axolotl/cli/chat.py:718-760 | the stage loop brings the fields to the view the pending text leads to, and leaves nothing pending in thinking mode but the start of a close marker |
| ThinkRenderer.ThinkStreamRenderer.Finish | src/axolotl/cli/chat.py:706-716 | flushes the pending text to where the mode says |
| ThinkRenderer.EveryChunking | src/axolotl/cli/chat.py:718-760 | for every chunking: unled text verbatim; else thinking text from the leading open marker to the first close marker or the end, and what follows printed, less exactly the leading newlines that had arrived |
| ThinkRenderer.WaitingTurn | src/axolotl/cli/chat.py:718-735 | at every point of a turn nothing is printed yet exactly when what has arrived is not led, but is white space or could still be led |
| ThinkRenderer.ArrivedWith | src/axolotl/cli/chat.py:699-704 | what has arrived when the close marker is complete is all that came up to and with the first chunk that completes it |
| ThinkRenderer.RenderAll | src/axolotl/cli/chat.py:699-760 | the class does that over a whole turn |
| ThinkRenderer.DroppedNewlines | src/axolotl/cli/chat.py:743-745 | the dropped newlines are all of them exactly when all had arrived with the close marker |
| ThinkRenderer.AllNewlinesDropped | src/axolotl/cli/chat.py:718-760 | a whole turn prints its reply without the newlines after the close marker exactly when all had arrived with the chunk that completed the marker |
| ThinkRenderer.NewlineCanRemain | src/axolotl/cli/chat.py:743-745 | one text, two chunkings, two printed replies |
| TurnCache.LongestCommonPrefixLen | src/axolotl/cli/chat.py:146-151 | the length of the longest common prefix |
| TurnCache.CausalTurnGenerator.PrepareCache | src/axolotl/cli/chat.py:464-492 | cache and recorded tokens become the prepared state, and the count returned is the number of recorded tokens |
| TurnCache.CausalTurnGenerator.GenerateTurn | src/axolotl/cli/chat.py:514-600 | the whole state after a turn for each way it can end |
| TurnCache.CausalTurnGenerator.ResetCache | src/axolotl/cli/chat.py:457-459 | back to the empty state |
| TurnCache.ChatRepl.GenerateTurn | src/axolotl/cli/chat.py:941-972 | a turn takes the session to its next state, with a reset only after an escaped interrupt |
| TurnCache.ChatRepl.CmdNew | src/axolotl/cli/chat.py:1023-1028 | so does clearing the conversation |
| TurnCache.Session | src/axolotl/cli/chat.py:941-972 | any sequence of turns and clears ends in the state of the step-by-step run, in step unless an exception was displayed |
| TurnCache.PreparedIsPrefix | src/axolotl/cli/chat.py:464-492 | from a cache in step, preparing leaves one that encodes a strict prefix of a non-empty prompt, as long as can be kept |
| TurnCache.ReusedLength | src/axolotl/cli/chat.py:464-492 | what is reused is the longest prefix shared with the recorded tokens that leaves one token of the prompt, or nothing when that needs a crop that fails |
| TurnCache.NothingReused | src/axolotl/cli/chat.py:577-582 | after clearing, an error of the model or an escaped interrupt the next prompt reuses nothing, whatever the state was |
| TurnCache.Recorded | src/axolotl/cli/chat.py:577-600 | a turn that gets to its reply records exactly the tokens in the cache; one that is left before has them in the cache but only the reused ones recorded; one that never gets to the cache changes nothing |
| TurnCache.StepSync | src/axolotl/cli/chat.py:577-582 | a turn or clear keeps the cache in step exactly unless, between preparing the cache and recording the tokens, an exception other than an interrupt or a generator error leaves it after the cache grew |
| TurnCache.RunKeepsSync | src/axolotl/cli/chat.py:954-958 | hence over every run without such an exception |
| TurnCache.SessionSync | src/axolotl/cli/chat.py:954-972 | a session is in step at every point exactly when none of its turns does that |
| TurnCache.EveryTurnReusesAPrefix | src/axolotl/cli/chat.py:464-492 | in every such run each turn starts from a strict prefix of its prompt, of the reported length |
| TurnCache.StaleReuse | src/axolotl/cli/chat.py:966-972 | after such an exception a prompt that goes on from the recorded tokens is given the unrecorded ones too |
| TurnCache.StaleExample | src/axolotl/cli/chat.py:966-972 | a session of a finished turn and one that ends in such an exception, after which the reused cache is no prefix of the prompt |
| Publisher.StepInv | src/axolotl/core/checkpoint_publisher.py:95-130 | every step of either thread keeps the invariant on queue, futures, chain, calls, directories and closing |
| Publisher.AskKeepsCalls | src/axolotl/core/checkpoint_publisher.py:119-122 | `publish` is called only when every earlier submission has been published |
| Publisher.PublishedIsPrefix | src/axolotl/core/checkpoint_publisher.py:118-124 | in every run the published checkpoints are a prefix of the submissions in submission order, and at most the next one was tried |
| Publisher.NoCallAfterFailure | src/axolotl/core/checkpoint_publisher.py:118-124 | once a publish has failed no run calls `publish` again, for nothing submitted before or after |
| Publisher.FailureHasCause | src/axolotl/core/checkpoint_publisher.py:118-124 | in every run a failed job is one whose own `publish` failed or whose predecessor failed or was cancelled |
| Publisher.QuietRunPublishesAll | src/axolotl/core/checkpoint_publisher.py:95-130 | in every run without a failing `publish` and a cancelling close no job fails or is cancelled, and after the close every submission has been published in order |
| Publisher.DirectoriesRemovedOnce | src/axolotl/core/checkpoint_publisher.py:106-124 | each retained directory is removed at most once, by the callback exactly when cancelled, and never while it is being published |
| Publisher.NothingLeftAfterClose | src/axolotl/core/checkpoint_publisher.py:126-130 | once a close has waited, in either mode, every job is done and every directory has been removed exactly once |
| Publisher.WorkerBlocksOnlyOnDrain | src/axolotl/core/checkpoint_publisher.py:118-128 | the worker waits for its predecessor exactly while a cancelling shutdown has popped but not yet cancelled it, and then both can go on |
| Publisher.WorkerCanBlock | src/axolotl/core/checkpoint_publisher.py:118-128 | a run in which the worker does wait |
| Publisher.CloseProgresses | src/axolotl/core/checkpoint_publisher.py:126-130 | every step during a close lowers a measure |
| Publisher.CloseNeverStuck | src/axolotl/core/checkpoint_publisher.py:126-130 | some step is always possible during a close |
| Publisher.CloseEnds | src/axolotl/core/checkpoint_publisher.py:126-130 | no run stays within a close for more steps than that measure, whatever the threads do |
| Publisher.FailureIsSticky | src/axolotl/core/checkpoint_publisher.py:95-100 | a failed future stays at the head and every later check raises |
| Publisher.CheckSteps | src/axolotl/core/checkpoint_publisher.py:95-100 | a check takes a published future off the head, raises at one that failed and keeps it, and ends at one that is not done |
| Publisher.ClosedCalls | src/axolotl/core/checkpoint_publisher.py:102-130 | submitting after a close raises; a cancelling close ends without a check, any other with one |
| Publisher.CleanCloseMeansPublished | src/axolotl/core/checkpoint_publisher.py:126-130 | a close that raises nothing and leaves no future has published every submission in order |
| SelectorHelpers.CollectHelpers | cicd/select_e2e_tests.py:393-404 | the frontier loop, popping in any order, reaches the least closed set of helpers and adds exactly their facts |
| SelectorHelpers.Helpers.ClosureUnique | cicd/select_e2e_tests.py:393-404 | there is one such set |
| SelectorHelpers.Helpers.ClosureByChains | cicd/select_e2e_tests.py:393-404 | a helper is in it exactly when a chain of references leads to it |
| SelectorHelpers.ConftestsContribute | cicd/select_e2e_tests.py:388-392 | a conftest on the path contributes keys and strings, not imports |
| SelectorHelpers.BuildTests | cicd/select_e2e_tests.py:379-409 | every test has its own facts, its conftests' and those of exactly the helpers it reaches, and `helper_tests` is exactly the inverse relation, without empty entries |
| SelectorHelpers.BuiltUnique | cicd/select_e2e_tests.py:393-409 | no search order can change what a test is attributed |
| SelectorHelpers.FactsOfTest | cicd/select_e2e_tests.py:379-407 | a key, string or import is among a test's facts exactly when it is in its own file, in a conftest above it (not for imports) or in a helper it reaches |
| SelectorHelpers.HelpersOfTest | cicd/select_e2e_tests.py:393-409 | the helpers a test reaches are those at the end of a chain of references, from its own imports and its own and its conftests' strings |
| SelectorHelpers.AddTest | cicd/select_e2e_tests.py:408-409 | adding one test keeps the inverse relation |
| SelectorBuild.ImportersOf | cicd/select_e2e_tests.py:417-439 | the loop over files and imports, in any order, records exactly who imports whom |
| SelectorEdges.Sources.TargetOfName | cicd/select_e2e_tests.py:433-437 | `package.name` refers to that module if there is one, else to the package |
| SelectorBuild.CountKeys | cicd/select_e2e_tests.py:443-446 | the counting loops give for every key that occurs in how many of the sets it does |
| SelectorBuild.UniverseOf | cicd/select_e2e_tests.py:441-451 | the universe is exactly the config fields that some test sets and less than a fifth of the parsed files read |
| SelectorBuild.UbiquitousOf | cicd/select_e2e_tests.py:454-463 | the ubiquitous keys are exactly those at least half of the configured tests set |
| SelectorEdges.Model.SignalKeys | cicd/select_e2e_tests.py:441-451 | a key is in the universe exactly when it is a config field, some test sets it, and less than a fifth of the parsed files read it |
| SelectorEdges.Model.CoreKeys | cicd/select_e2e_tests.py:454-463 | and ubiquitous exactly when at least half of the tests with a key of the universe set it |
| SelectorBuild.BuildModel | cicd/select_e2e_tests.py:411-482 | importers, universe and ubiquitous keys are all as defined |
| SelectorEdges.Model.EdgesAreTests | cicd/select_e2e_tests.py:618-665 | a module carries only tests of the tree |
| SelectorEdges.Model.DirectTestsKept | cicd/select_e2e_tests.py:639-664 | a test that imports a module, names it or sets a discriminating key it reads is reached by it in every branch, unless the module declares its keys |
| SelectorEdges.Model.OnlyDirectTests | cicd/select_e2e_tests.py:633-664 | nothing else is reached but the tests that name the package of a registry member that no test names |
| SelectorEdges.Model.PackageTestsReached | cicd/select_e2e_tests.py:643-653 | and those are reached |
| SelectorEdges.Model.DeclaredKeysDecide | cicd/select_e2e_tests.py:621-630 | a module that declares its keys reaches exactly the tests that set one of them, or everything when it declares none or one that is no config field |
| SelectorEdges.Model.ScriptsRunAll | cicd/select_e2e_tests.py:619-637 | a console script and a module that does not parse run everything |
| SelectorEdges.Model.ImportersDecide | cicd/select_e2e_tests.py:639-665 | a module has no edges exactly when it reads no key of the universe, no test is connected to it, and no registry answers |
| SelectorEdges.Model.CoreRunsAll | cicd/select_e2e_tests.py:642-661 | a module that parses and declares no keys has the whole scope exactly when it reads a ubiquitous key and no registry answers first |
| SelectorEdges.RegistryAnswersFirst | cicd/select_e2e_tests.py:642-661 | on a tree as `build` makes it, a package initializer that reads a ubiquitous key and reaches no test |
| SelectorEdges.Model.OneMoreFile | cicd/select_e2e_tests.py:571-578 | a file adds its entry to those of the directory, and to the named ones when a config value names it |
| SelectorEdges.Model.RegistryByEntries | cicd/select_e2e_tests.py:564-589 | a directory is a registry exactly when at least three and a third of its entries hold a file that a test names, or three are entry points |
| SelectorEdges.Model.RegistryEntryOf | cicd/select_e2e_tests.py:591-598 | a file of a registry is its own entry, one below it belongs to its package's |
| SelectorEdges.Model.LeafMeans | cicd/select_e2e_tests.py:600-608 | an entry is a leaf exactly when no file outside it imports one of its files |
| SelectorImpact.Selector.ValueEdges | cicd/select_e2e_tests.py:488-494 | the table of value edges returns what recomputation would |
| SelectorImpact.Selector.NamedByEntry | cicd/select_e2e_tests.py:570-579 | the loop over the files in any order finds exactly the entries, and exactly the named ones |
| SelectorImpact.Selector.IsRegistryDir | cicd/select_e2e_tests.py:564-589 | the registry table returns what recomputation would |
| SelectorImpact.Selector.RegistryEntry | cicd/select_e2e_tests.py:591-598 | the file itself, its package, or nothing, by the registry directories |
| SelectorImpact.Selector.ComputeOwnEdges | cicd/select_e2e_tests.py:618-665 | with the memo tables it computes what the definition without them says, in every branch |
| SelectorImpact.Selector.OwnEdges | cicd/select_e2e_tests.py:610-616 | the edge memo table returns what recomputation would |
| SelectorImpact.Selector.VisitParents | cicd/select_e2e_tests.py:682-695 | visiting one module's importers in any order keeps the walk right, or finds one that has the whole scope |
| SelectorImpact.Selector.ImpactOfSource | cicd/select_e2e_tests.py:667-698 | ends on cyclic graphs, with the union over modules with edges reached through importers without, or the whole scope exactly when one has that or none is reached |
| SelectorImpact.WalkEnds | cicd/select_e2e_tests.py:676-698 | a finished walk has found exactly the impact |
| SelectorImpact.Graph.ImpactUnique | cicd/select_e2e_tests.py:676-698 | the impact does not depend on the traversal order |
| SelectorImpact.Graph.ImpactByEdges | cicd/select_e2e_tests.py:673-675 | a module with edges has just those |
| SelectorImpact.Graph.ImpactByImporters | cicd/select_e2e_tests.py:676-698 | a module without edges has the tests its importers carry or reach, and everything exactly when one of them runs everything or none leads to a module with edges |
| Selection.Tree.SelectionDistributes | cicd/select_e2e_tests.py:831-899 | a union of two diffs runs exactly what either runs, with "all" as every in-scope test |
| Selection.Tree.SelectionMonotone | cicd/select_e2e_tests.py:831-899 | more changed or deleted files never drop a test |
| Selection.Tree.SelectionByFile | cicd/select_e2e_tests.py:831-899 | a diff runs exactly what its files run one by one |
| Selection.Tree.ChangedTestRuns | cicd/select_e2e_tests.py:859-861 | a changed in-scope test runs |
| Selection.Tree.ChangedTestAlone | cicd/select_e2e_tests.py:859-886 | and alone it runs nothing else but the tests without visible config |
| Selection.Tree.TestSupportRunsAll | cicd/select_e2e_tests.py:862-870 | a file under the tests runs everything exactly when it is no test and no known helper |
| Selection.Tree.DirectTestRuns | cicd/select_e2e_tests.py:871-878 | a test that imports a changed module, names it or sets a discriminating key it reads runs, unless the module declares its keys |
| Selection.Tree.DeletedFileRunsAll | cicd/select_e2e_tests.py:842-855 | a deleted module, deleted test support, a deleted file outside both directories that is not inert, the project file, and a run-all pattern each run everything, whatever else the diff holds |
| Selection.Tree.DeletedFileAlone | cicd/select_e2e_tests.py:842-855 | and a deletion alone runs a test only for one of these reasons |
| Selection.Tree.UnmodeledFile | cicd/select_e2e_tests.py:879-881 | a changed file that is no test, no module and not under the tests runs everything exactly when it is not inert |
| Selection.Tree.PatternRunsAll | cicd/select_e2e_tests.py:831-833 | a changed file that matches a run-all pattern runs everything |
| Selection.Tree.HelperAlone | cicd/select_e2e_tests.py:865-868 | a changed helper alone runs its tests, and with them those without visible config |
| Selection.Tree.ModuleAlone | cicd/select_e2e_tests.py:871-878 | a changed module alone runs its impact, and with it the tests without visible config |
| Selection.Tree.ProjectFileRuns | cicd/select_e2e_tests.py:762-808 | a change of the project file runs everything when it cannot be followed, a distribution has no roots or a root is imported nowhere, and else what the tests and modules that import a root lead to |
| Selection.Tree.ProjectFileAlone | cicd/select_e2e_tests.py:762-808 | and alone it runs a test only for one of these reasons or since it has no visible config |
| SelectionExample.LessThanDocumented | cicd/select_e2e_tests.py:847-881 | on every tree of a given shape, which is one that `build` makes, four changes select less than the docstring says |
| SelectionExample.SuchFiles | cicd/select_e2e_tests.py:847-881 | paths that have the shape |
| Selection.BuildTree | cicd/select_e2e_tests.py:335-482 | the built tree has the attributed facts, the inverse helper relation, the derived importers and keys, and the tests that set no key of the universe; everything it can select is in scope, and the memo tables are valid |
| Selection.BuiltInScope | cicd/select_e2e_tests.py:465-482 | edges, helpers and roots of a built tree reach tests in scope only |
| Selection.Tree.ImpactOfIsImpact | cicd/select_e2e_tests.py:871-878 | the decision's view of a module's impact is the impact, within the scope |
| Selection.FileImpact | cicd/select_e2e_tests.py:859-881 | the branches for one changed file give its effect, nothing standing for "run all" |
| Selection.AnyDeletion | cicd/select_e2e_tests.py:847-855 | true exactly when some deleted file is a module, test support or outside the model |
| Selection.ImpactOfRoot | cicd/select_e2e_tests.py:793-806 | a root hits what its importers reach and the tests that import it, and runs everything exactly when nothing imports it or an importer does |
| Selection.ImpactOfDistribution | cicd/select_e2e_tests.py:789-807 | the union over its roots; everything when it has none or one of them runs everything |
| Selection.ImpactOfPyproject | cicd/select_e2e_tests.py:762-808 | the union over the roots of all changed distributions, or the whole scope exactly when the change cannot be followed or a root or distribution runs everything |
| Selection.SelectChanged | cicd/select_e2e_tests.py:857-881 | the loop collects exactly the union of the files' effects |
| Selection.Select | cicd/select_e2e_tests.py:816-899 | the selected tests are exactly those the diff runs, with the mode each result has; everything without a diff or when forced |
| StableSort.ArgSort | src/axolotl/datasets.py:160 | the stable argsort |
| StableSort.ArgSortUnique | src/axolotl/datasets.py:160 | there is only one |
| MixedTokenize.PositionsPartition | src/axolotl/datasets.py:201-205 | the two index lists together have as many entries as there are rows |
| MixedTokenize.SplitsWhenMixed | src/axolotl/datasets.py:201-205 | there are two lists exactly when there are rows of both kinds, and they hold exactly those rows |
| MixedTokenize.TokenizeRowTracked | src/axolotl/datasets.py:95-125 | a batch's survivors, each with its index in the part |
| MixedTokenize.ToColumns | src/axolotl/datasets.py:118-125 | a column for every key of some row, with a null exactly where a row lacks it |
| MixedTokenize.ColumnsKeepRows | src/axolotl/datasets.py:118-125 | every row can be read back from the columns |
| MixedTokenize.TokenizePart | src/axolotl/datasets.py:127-139 | the same for a part in batches of any size |
| MixedTokenize.AddPart | src/axolotl/datasets.py:141-148 | a part's survivors are appended with their data-set indices |
| MixedTokenize.RestoreIsInOrder | src/axolotl/datasets.py:152-164 | selecting by the argsort of the sources gives the in-order pass |
| MixedTokenize.InOrderSnoc | src/axolotl/datasets.py:95-125 | the in-order pass adds the result of every row that has one, and nothing for any other |
| MixedTokenize.ProcessMixed | src/axolotl/datasets.py:84-164 | the result is exactly the surviving rows of one in-order pass; inputs less survivors are reported exactly when some row survives and some row does not |
| MixedTokenize.AllDropped | src/axolotl/datasets.py:149-150 | a mixed data set whose rows are all dropped, so that nothing is reported |
| Delinearize.IterConvert | src/axolotl/cli/delinearize_llama4.py:15-68 | the generator, deleting as it goes, yields what each key yields from the entries left at its turn, and raises exactly when a lookup or stack fails, having yielded and deleted exactly what came before |
| Delinearize.LeftEntries | src/axolotl/cli/delinearize_llama4.py:48-67 | of the entries handled so far exactly the up and down weights of the experts other than 0 are gone |
| Delinearize.StacksExactly | src/axolotl/cli/delinearize_llama4.py:29-44 | a projection can be stacked exactly when all experts have it, at least one, in one shape |
| Delinearize.FusesExactly | src/axolotl/cli/delinearize_llama4.py:45 | and gate and up can be joined exactly when their transposed weights have as many rows |
| Delinearize.ConvertsIffZeroFirst | src/axolotl/cli/delinearize_llama4.py:23-68 | with all experts' weights there, it succeeds exactly when expert 0 comes first in key order |
| Delinearize.StackUnaffected | src/axolotl/cli/delinearize_llama4.py:29-65 | then no lookup hits a deleted key |
| Delinearize.TransposeTwice | src/axolotl/cli/delinearize_llama4.py:33 | transposing loses nothing |
| Delinearize.BesideColumns | src/axolotl/cli/delinearize_llama4.py:45 | either side of a concatenation can be cut out again |
| Delinearize.GateUpRecovered | src/axolotl/cli/delinearize_llama4.py:29-47 | every expert's gate and up weight is cut out of the fused tensor |
| Delinearize.GateUpPlaced | src/axolotl/cli/delinearize_llama4.py:29-45 | element by element, the transposed gate weight is on the left of the fused matrix and the transposed up weight on its right |
| Delinearize.DownRecovered | src/axolotl/cli/delinearize_llama4.py:51-65 | and every down weight |
| Delinearize.DownPlaced | src/axolotl/cli/delinearize_llama4.py:57-64 | element by element, the stack holds the transposed down weight |
| Delinearize.Lossless | src/axolotl/cli/delinearize_llama4.py:15-68 | other keys pass unchanged, each layer's fused tensors are there and give the weights back, no key is yielded twice and none has another source |
| Delinearize.InKeyOrder | src/axolotl/cli/delinearize_llama4.py:15-68 | and they come in the order of the keys they are yielded at |
| ExpertKeys.NamesAreRead | src/axolotl/cli/delinearize_llama4.py:23-65 | the substring tests and splits read every weight name of a layer as it was made - projection, prefix, and expert 0 as against 10 - exactly when the layer has none of four markers |
| ExpertKeys.NamesDiffer | src/axolotl/cli/delinearize_llama4.py:29-62 | different weights have different names, so a lookup finds the one it means |
| ExpertKeys.WeightNames | src/axolotl/cli/delinearize_llama4.py:29-62 | the name of each weight |
| ExpertKeys.PassedOn | src/axolotl/cli/delinearize_llama4.py:18-19 | a key is yielded as it is exactly when it is not under the experts |
| ExpertKeys.OthersAreLost | src/axolotl/cli/delinearize_llama4.py:18-67 | a key under the experts falls through every branch exactly when it has none of the three projections |
| ExpertKeys.OtherKeysAreLost | src/axolotl/cli/delinearize_llama4.py:23-65 | a key under the experts that no branch yields |
| ImageMix.ImageStore.PutPayload | scripts/diffusion_lm/build_public_image_decision_mix.py:318-331 | an image is recorded once with its first size, its file holds it whatever was there, no other file is touched, and its path is returned |
| ImageMix.CollectCandidates | scripts/diffusion_lm/build_public_image_decision_mix.py:390-404 | the candidates in row order, rows without image and rows that do not normalize counted each, and an error exactly for a duplicate id |
| ImageMix.RankOrderUnique | scripts/diffusion_lm/build_public_image_decision_mix.py:359-369 | the candidates have one rank order |
| ImageMix.RankedSorts | scripts/diffusion_lm/build_public_image_decision_mix.py:359-369 | it is a permutation of the candidates, sorted by the rank of their ids, in row order among equals |
| ImageMix.ScanRanking | scripts/diffusion_lm/build_public_image_decision_mix.py:407-422 | keeps exactly the first `limit` usable rows, looks at no more rows than needed, counts state and image overlaps each, and raises exactly when it comes to an unreadable image before the limit |
| ImageMix.Materialize | scripts/diffusion_lm/build_public_image_decision_mix.py:380-428 | one source's records are exactly the first `limit` non-excluded candidates in rank order, all four drop counters and the scanned rows are exact, and each error occurs exactly when it should |
| ImageMix.MaterializedExactly | scripts/diffusion_lm/build_public_image_decision_mix.py:380-428 | the records are in order of rank, of different ids, each from a row that may be taken; a row that may be taken and was not ranks behind all of them, and then the limit is reached |
| ImageMix.ErrorsInTurn | scripts/diffusion_lm/build_public_image_decision_mix.py:359-428 | an id that comes twice raises first, then too few candidates; when every row is wanted only an unreadable image is left to raise |
| ImageMix.MaterializedAvoids | scripts/diffusion_lm/build_public_image_decision_mix.py:412-419 | nothing materialized overlaps the excluded images or states |
| ImageMix.MaterializeAll | scripts/diffusion_lm/build_public_image_decision_mix.py:517-529 | a split is its sources' records one after the other, all avoiding the same exclusions, and fails exactly with the error of the first source that does |
| ImageMix.SplitParts | scripts/diffusion_lm/build_public_image_decision_mix.py:502-529 | each split takes its own rows, ranked under its own name |
| ImageMix.SplitFails | scripts/diffusion_lm/build_public_image_decision_mix.py:517-529 | the outcome of a split is an error exactly when it is that of the first failing source |
| ImageMix.Isolated | scripts/diffusion_lm/build_public_image_decision_mix.py:435-460 | the origin map accepts exactly pairwise disjoint splits |
| ImageMix.Build | scripts/diffusion_lm/build_public_image_decision_mix.py:489-532 | succeeds exactly when the three splits materialize, each with the exclusions of those before it, and share no group; raises for groups exactly when they do; the image check never fails; images, states and groups are pairwise disjoint and every image, and no other, is stored |
| ImageMix.ApartWhenRowsAre | scripts/diffusion_lm/build_public_image_decision_mix.py:435-446 | when no group occurs among the candidate rows of two splits, the materialized splits share none |
| ImageMix.GroupsCanMeet | scripts/diffusion_lm/build_public_image_decision_mix.py:435-446 | two train sources and a test source that materialize, one with a group in train and dev, so that the group check fails |

## Left out

- Publisher.StepInv: the publisher is a state machine on values and not a class, because its properties are about all interleavings of two threads; updates in place within one step are not captured.
- Publisher.StepInv: `PoolFails` is a refusal before the call is queued. The standard pool queues the call before it starts its thread, so when that start fails, the call stays queued while submit removes the directory; this is not modelled.
- Publisher.PublishedIsPrefix: a failing removal of a directory, an interrupt of the producer inside a call, and calls from more than one producer thread are not modelled; retaining yields a fresh directory or fails.
- ImageMix.Build: which two splits share a group, and what had been stored before an error, are not stated.
- ImageMix.ImageStore.PutPayload: the temporary file that is renamed into place is one write.
- Delinearize.IterConvert: keys are structured values and tensors are matrices; that the substring tests read the names of weights as such keys is `ExpertKeys.NamesAreRead`. Expert keys other than `.weight` are not modelled.
- Selection.Select: reasons are left out, and tests are a set rather than a sorted list; glob patterns are given predicates.
- Selection.ImpactOfPyproject: reading and comparing the project file is given as its result, the roots of every changed distribution or a change that cannot be followed.
- SelectorHelpers.CollectHelpers: which helper a file names is a given relation; keys, strings and imports are given per file.
- SelectorEdges.Model.DirectTestsKept: which facts import or name a module is given.
- SelectorBuild.BuildModel: what a source file contains is given, as are module names, console scripts and entry points.
- MixedTokenize.ProcessMixed: the order of the columns, nulls for columns a whole part lacks, several map processes, and the path for data sets that are not mixed are left out.
- MixedTokenize.TokenizeRowTracked: a row's result is any value; as a mapping it is written as `MixedTokenize.ToColumns` says.
- NemotronGrid.GridBounds: the scaling ratio is an exact fraction, not a double.
- NemotronGrid.ResizeStable: the same.
- Placeholders.TokenCountIsMarkers: the same.
- Finding markers for a role by tokenizing its text, and masking of pad and media tokens in the labels: given as token lists, or later steps.
- Threads, timing and drawing of the chat; the streamer is the list of chunks it delivers, and a turn's ending is a parameter.
- Splitting thinking from reply tokens after a turn, chat templates, the diffusion generator and the remaining commands: no state that the cache depends on.
- Whether two images or states have the same hash: digests are the images' identity. Downloading, decoding, and writing of the JSONL files and the contract file are I/O.
- Model, tokenizer and processor loading, quantization and distributed training: foreign code.
