# The curator engine, modelled in Dafny

The curator renders pages from a knowledge base, pushes them to a wiki that
humans also edit, and must keep the human work it promises to keep. This
project models the deterministic part of that engine and proves what its parts
promise, one by one and together.

| part | modules |
|---|---|
| marker grammar, page parser, page printer | `Markers`, `MarkerFacts`, `MarkerLanguage`, `WikiParse`, `ParseCover`, `PageText` |
| block-level merge | `Merge`, `MergeLaws` |
| soft-read-only protocol: wiki history, reconciler, orchestrator, all interleavings | `Wiki`, `Reconciler`, `Orchestrator`, `Protocol`, `ReportCounts`, `RunResults`, `DocumentRuns` |
| from document to rendered page and back | `IR`, `ZoneMarkers`, `Markdown`, `MarkdownText`, `MarkerCuts`, `UnhashedBlocks`, `RenderedPage` |
| Markdown parser | `Text`, `MDir`, `MarkdownRoundTrip` |
| refinement loop over shared sections | `Refine`, `RefineLaws` |
| line diff, its index printer | `LineDiff`, `Itoa` |
| diff-driven skipping | `DiffSkip`, `SortStrings` |
| stand-alone algorithms | `WordWrap`, `JsonExtract`, `EntryLog`, `CacheKey`, `Nav`, `AutoHub` |

Where the source changes state (the wiki target, the orchestrator's run state,
the output buffer, the shared section array, the diff table, the sorted slice)
the model is a class or an array with the same updates. Every method is proved
equal to a specification function of the old state, and the laws are proved
about that function. What a specification function computes is besides stated
in other terms than its own: by the language of the markers, by the kinds of
blocks, by reading a printed text back, by what a run returns to its caller.

The two marker patterns are modelled exactly, greedy choices and backtracking
included: `MatchBegin` and `MatchEnd` say what the regular expressions match at
a position, `FindFirst` is the leftmost match. Texts are sequences of
characters; where the source counts bytes (`wrapWords`), byte lengths are
modelled. Randomness and the outside world are parameters: new revision IDs,
the reviewer, the reviser, the passes, the renderer, the diff of the knowledge
base, the hash function.

## Where code and documentation disagree

- A page that carries the render verbatim is not yet a fixed point.
  `writeBlock` ends a block with a newline that the text after it already has,
  so reassembly is lossless only up to one newline per block, and an unchanged
  render is pushed once more after the page was created. `VerbatimRenderIsFixedIff`
  gives the exact condition, `RunsSettle` shows that it happens once and never again.
- `Parse` and the merge allow several blocks with one ID, but the lookup takes
  the first. The merge is idempotent on all pages if and only if no block of
  the render disagrees with the first of its ID (`MergeIsIdempotentIff`).
- `Decision.MergedContent` is documented as empty for a no-op; the code fills it
  with the content of the page (`NoOpCarriesThePage`).
- `refine.go` says that revisions go into a clean base, so that passes that are
  not idempotent are never applied twice. The base and the pass output share
  their section array. Passes that are not idempotent are applied twice
  (`OtherPassesAreAppliedTwice`), and passes that change headings, as the style
  rules do, hide sections from the splice, so that the loop gives up
  (`RenamedSectionIsNotRevised`, `HeadingCaseHidesSections`). The documented
  meaning is met, in every run, exactly by passes that are idempotent and keep
  headings (`SharingIsHarmlessIff`), of which the zone markers are one
  (`ZoneMarkersAreAppliedOnce`).
- A block without a provenance hash is printed with a BEGIN marker that the
  pattern rejects, so its region is text like any other. Cluster pages have such
  blocks. `EveryBlockIsRecoveredIff` says when every block is recovered, and
  `PageReadsBack` what happens to the others.
- `local.go` says that compaction is a no-op. It keeps every entry, but may move
  one that comes back after a tombstone (`RevivedEntryMoves`);
  `CompactionKeepsSequenceIff` says exactly when it moves none.
- `reconciler.go` says that the run report always surfaces human edits. Those
  made after the first recorded write it surfaces exactly once, at the next push,
  while the run state can be read and written. When the write
  after a push is lost, they are reported again (`LostWriteReportsTwice`); after a
  no-op that could not read the run state, they never are
  (`ForgettingNoOpLosesEdits`). `ReportsAreReadablePushes` and
  `EachEditIsReported` give the exact number of reports under any faults.
- `diffDrivenSkip` takes an unchanged knowledge base for an unchanged page. That
  is so unless the spec was edited or a state write was lost
  (`IncrementalAgreesWithFullIff`, `LostWriteHidesRevert`).
- `hashDocPage` is documented as covering every field that determines the
  content. `PageTextsAlikeIff` says which it covers: not the navigation, not
  the superseded titles, and a list of one empty name counts as no names.
- `itoa` prints nothing for a negative number.

## Model

| member | source | states |
|---|---|---|
| WikiParse.Parse | internal/pipelines/rendering/reconciler/wikiparse/wikiparse.go:79-166 | the loop over `pos` computes the recursive reading of the text: leftmost BEGIN, first END of the same ID, texts between blocks attached to the block before them, unclosed BEGIN ends the reading |
| WikiParse.FirstWithID | internal/pipelines/rendering/reconciler/wikiparse/wikiparse.go:52-60 | lookup by ID returns the first block with that ID, and nothing only when there is none |
| ParseCover.ParseLosesNothing | internal/pipelines/rendering/reconciler/wikiparse/wikiparse.go:36-50 | for every text, malformed, nested or unclosed markers included: prologue, marker regions, following texts and epilogue, put together, are the text; every region opens and closes with markers of its block, holds no END marker of it, and is the block's body up to one newline at each end |
| ParseCover.TextBehindBlocks | internal/pipelines/rendering/reconciler/wikiparse/wikiparse.go:79-166 | what comes behind the last block is the epilogue if it opens no further block, and stays with the last block if it does; without blocks all text is prologue |
| MarkerLanguage.BeginIsMatchedIff | internal/pipelines/rendering/reconciler/wikiparse/wikiparse.go:62-65 | the BEGIN pattern matches at a position exactly if a BEGIN marker stands there: comment opening, word, ID, attributes and arrow, with white space where the pattern allows or demands it |
| MarkerLanguage.BeginIsSound | internal/pipelines/rendering/reconciler/wikiparse/wikiparse.go:62-69 | and what is matched is a marker with just that ID and these attributes |
| MarkerLanguage.EndIsMatchedIff | internal/pipelines/rendering/reconciler/wikiparse/wikiparse.go:71-77 | the END pattern for an ID matches at a position exactly if an END marker for that ID stands there, and matches that marker |
| MarkerLanguage.LastAttributeCounts | internal/pipelines/rendering/reconciler/wikiparse/wikiparse.go:67-69 | of several attributes with one key the last counts |
| MarkerLanguage.CharClasses | internal/pipelines/rendering/reconciler/wikiparse/wikiparse.go:62-69 | which characters are white space, and which are word characters, for the patterns |
| MarkerFacts.PrintedBegin | internal/pipelines/rendering/reconciler/merge.go:70-87 | a printed BEGIN marker is matched with its exact ID and attributes, whatever follows it |
| MarkerFacts.PrintedEnd | internal/pipelines/rendering/reconciler/merge.go:89-91 | a printed END marker is matched by the END pattern of its ID |
| MarkerFacts.BeginBack | internal/pipelines/rendering/reconciler/wikiparse/wikiparse.go:62-69 | no BEGIN match that starts in front of a printed marker depends on that marker |
| PageText.PrintThenParse | internal/pipelines/rendering/reconciler/merge.go:36-92 | printing a printable document and parsing it gives the same prologue, IDs, zones, provenances and bodies; the following texts gain exactly one newline |
| PageText.SettleKeepsBlocks | internal/pipelines/rendering/reconciler/merge.go:70-91 | nothing but the text after END markers changes in that round trip |
| PageText.ParsedIsPrintable | internal/pipelines/rendering/reconciler/wikiparse/wikiparse.go:79-166 | whatever is parsed, from any text, meets the condition of the round trip |
| Merge.MergeBlocks | internal/pipelines/rendering/reconciler/merge.go:36-50 | the builder loop writes the new document with the chosen bodies |
| Merge.MergeReadBack | internal/pipelines/rendering/reconciler/merge.go:36-92 | the merged page, for any existing page and any render, is read back as the render's blocks with the chosen bodies |
| MergeLaws.MergeKeepsExactlySurvivingBodies | internal/pipelines/rendering/reconciler/merge.go:52-66 | on every page and render: the merged page has the render's blocks, in order, and a block keeps the page's body exactly if it is editorial and its provenance is non-empty and matches |
| MergeLaws.StableMergeIsFixed | internal/pipelines/rendering/reconciler/merge.go:36-92 | merging the same render into the merged page changes nothing, for every existing page |
| MergeLaws.DistinctIDsAreStable | internal/pipelines/rendering/reconciler/merge.go:52-66 | distinct block IDs meet the condition for that |
| MergeLaws.UnstableMergeMoves | internal/pipelines/rendering/reconciler/merge.go:52-66 | for a render in which a block disagrees with the first of its ID, a page on which the second merge moves |
| MergeLaws.MergeIsIdempotentIff | internal/pipelines/rendering/reconciler/merge.go:36-92 | the merge is idempotent on every page if and only if no block of the render disagrees with the first of its ID |
| MergeLaws.VerbatimRenderIsFixedIff | internal/pipelines/rendering/reconciler/merge.go:89-91 | a page that is the render itself stays if and only if the render has no block |
| MergeLaws.MergeRestoresAllButKeptBodies | internal/pipelines/rendering/reconciler/merge.go:36-92 | for every page with the markers of a render with distinct IDs, whatever else a human did to it: merging keeps the bodies of editorial blocks with a provenance and restores prologue, line breaks around markers, texts between blocks, epilogue and all other bodies |
| MergeLaws.BodyEditsStayIff | internal/pipelines/rendering/reconciler/merge.go:36-92 | such a page is a fixed point of the merge if and only if it differs from the printed render in nothing but bodies of editorial blocks with a provenance |
| MergeLaws.BodyEditsKeepMarkers | internal/pipelines/rendering/reconciler/wikiparse/wikiparse.go:79-166 | any bodies that do not close their own region can be put into a printed render: the page parses to the same markers with these bodies |
| Wiki.Target.GetPage | internal/adapters/wiki/memory/memory.go:68-81 | the newest content and revision of the page, or nothing |
| Wiki.Target.UpsertPage | internal/adapters/wiki/memory/memory.go:85-99 | a bot revision goes in front of the page's history and nothing else changes |
| Wiki.Target.History | internal/adapters/wiki/memory/memory.go:104-125 | the revisions newer than the given one; all of them when it is empty or unknown |
| Wiki.Target.HumanEditsSinceBot | internal/adapters/wiki/memory/memory.go:131-148 | the newest human revision above the given bot revision |
| Wiki.Target.SimulateHumanEdit | internal/adapters/wiki/memory/memory.go:153-165 | a human revision goes in front of the page's history and nothing else changes |
| Wiki.Target.Prepend | internal/adapters/wiki/memory/memory.go:167-180 | revisions and contents grow together at the front |
| Wiki.PageMeaning | internal/adapters/wiki/memory/memory.go:68-81 | a page is its newest content and revision under the title asked for, and there is one exactly if there is a revision |
| Wiki.EditedPage | internal/adapters/wiki/memory/memory.go:167-180 | after an edit the page has that content and revision under every spelling of its title, and no other page has changed |
| Wiki.SameTitleIff | internal/adapters/wiki/memory/memory.go:182-186 | two titles name one page exactly if they differ in spaces and underscores only |
| Wiki.HumansAppend | internal/pipelines/rendering/reconciler/reconciler.go:151-162 | the human revisions of a history are those of its two halves |
| Reconciler.Reconcile | internal/pipelines/rendering/reconciler/reconciler.go:90-131 | the decision for a missing page, an unchanged merge and a changed one, with the human edits of the last case only; an error exactly when the page cannot be read, or the history cannot and the merge is to be pushed |
| Reconciler.NoOpCarriesThePage | internal/pipelines/rendering/reconciler/reconciler.go:46-53 | the decision is a no-op if and only if the page exists and its merged content is the content that the page has |
| Reconciler.DecisionMeaning | internal/pipelines/rendering/reconciler/reconciler.go:90-167 | the decision names the newest revision it was made against, speaks of earlier human content exactly on a first push over human revisions, and carries human edits only for a push with a known write |
| Reconciler.DetectHumanEdits | internal/pipelines/rendering/reconciler/reconciler.go:137-167 | the human revisions above the last bot revision, newest first; on a first render none, and whether there was human content before |
| Orchestrator.Orchestrator.ReconcileAndPush | internal/orchestrator/orchestrator.go:621-660 | wiki, run state and result after the push, for any failing wiki calls and any readable or writable, present or absent store: an error changes nothing, a no-op records the bot revision that it read, which is none when it could not read, with the current commit, a write records its own revision |
| Orchestrator.Orchestrator.PersistRunState | internal/orchestrator/orchestrator.go:673-685 | revision and commit of this spec change and no other spec's; nothing changes without a store or when the write fails |
| Orchestrator.Orchestrator.ConvertHumanEdits | internal/orchestrator/orchestrator.go:689-703 | one event per edit, in order |
| Orchestrator.WorkingStorePushes | internal/orchestrator/orchestrator.go:621-660 | with a working store a run either does all that a push without faults does, or nothing |
| Orchestrator.NothingIsReportedWithoutState | internal/orchestrator/orchestrator.go:635-671 | a run that cannot read the run state reports no human edit, and as a no-op whose state is written it leaves no recorded bot revision |
| Protocol.AccountedAlways | internal/orchestrator/orchestrator.go:621-685 | invariant of every interleaving of human edits and curator runs, runs that fail at the wiki included, while the run state of the spec works: the reports so far are exactly the human revisions between the first and the last recorded write |
| Protocol.EveryHumanEditReportedOnce | internal/orchestrator/orchestrator.go:621-685 | over every such interleaving, no-op runs, failed runs and other specs included, each human revision newer than the first recorded write and older than the last is reported by exactly one run, newest first, and nothing else is |
| Protocol.RunEffect | internal/orchestrator/orchestrator.go:621-685 | what a run under any faults reports, and what it does to the history of its page and to the recorded revision |
| RunResults.CompletesIff | internal/orchestrator/orchestrator.go:621-660 | a run completes unless a wiki call that it needs fails, and pushes exactly if there is no page or the merge changes it |
| RunResults.ResultTellsReport | internal/orchestrator/orchestrator.go:630-656 | a run that completes returns one event for each human revision it reports, in order, and each names that revision's ID, user and comment; any other run returns an error |
| RunResults.ResultNamesNewRevision | internal/orchestrator/orchestrator.go:634-656 | the result is a no-op exactly if the history of the page has not grown; otherwise it grew by the revision that the result names, with the summary of the spec |
| RunResults.EveryHumanEditIsReturnedOnce | internal/orchestrator/orchestrator.go:621-685 | while the run state works: the events that all runs return tell, one by one and newest first, of the human revisions between first and last recorded write |
| ReportCounts.ReportsAreReadablePushes | internal/orchestrator/orchestrator.go:621-685 | over every interleaving and any faults of wiki and run state: a human revision newer than the recorded write is reported exactly as often as there are pushes that could read the run state, up to and including the first run that settles, and any other human revision never |
| ReportCounts.EachEditIsReported | internal/orchestrator/orchestrator.go:621-685 | the same for every human edit at any place of any history: never when it is made without a recorded write, else once for each such push from then on |
| RunResults.EachEditIsReturned | internal/orchestrator/orchestrator.go:621-703 | under any faults: every human edit is told by as many returned events as there are such pushes, and by none when it was made without a recorded write |
| ReportCounts.WorkingStoreReportsOnce | internal/orchestrator/orchestrator.go:621-685 | while the run state works that number is one as soon as the page is pushed, and stays one |
| ReportCounts.ForgettingNoOpLosesEdits | internal/orchestrator/orchestrator.go:635-640 | after a no-op that could not read the run state but wrote it, no human edit made by then is reported by any run |
| ReportCounts.LostWriteReportsTwice | internal/orchestrator/orchestrator.go:677-684 | when the state write of a push is lost and the next run pushes again, every human edit above the recorded write is reported twice |
| ReportCounts.HumanEditIsReportedTwice | internal/orchestrator/orchestrator.go:677-684 | a page, an edit and two runs of which this is so |
| Protocol.ContentAfterRun | internal/orchestrator/orchestrator.go:634-656 | after a run the page is the merge, or the bare render if there was no page |
| Protocol.MergedIsEmptyOnlyForEmptyRender | internal/orchestrator/orchestrator.go:646-649 | the fallback for empty merged content never replaces a merge that differs from the render |
| Protocol.RunsSettle | internal/orchestrator/orchestrator.go:621-660 | a second run with the same render is a no-op exactly if the page existed before the first or the render has no block; the third run always is |
| Protocol.EditedPageIsLeftAloneIff | internal/pipelines/rendering/reconciler/reconciler.go:90-131 | a run with the render of an edited page that has all its markers decides no-op, and leaves the page as it is, if and only if only bodies of editorial blocks with a provenance were edited; otherwise it pushes the render with just these bodies kept |
| Protocol.PolishOutlivesRuns | internal/pipelines/rendering/reconciler/reconciler.go:90-131 | no sequence of runs, of this spec or of others, touches the body of an editorial block whose inputs are unchanged |
| DocumentRuns.HumanTextSurvivesRun | internal/pipelines/rendering/reconciler/merge.go:53-66 | after a run that renders a document onto any page: the text that a human gave to prose, or to a callout that no machine wrote, stands where the region has the block's hash, and every other hashed block has its printed text |
| LineDiff.SplitLines | internal/adapters/curatorapi/curatorapi.go:561-577 | the lines of a text; a final newline starts no further line |
| LineDiff.LinesReassemble | internal/adapters/curatorapi/curatorapi.go:561-577 | put together again the lines are the text, up to a newline missing at its end |
| LineDiff.FillTable | internal/adapters/curatorapi/curatorapi.go:511-526 | every entry of the table is the value of `Lcs` on the two suffixes |
| LineDiff.NoLongerCommonSubsequence | internal/adapters/curatorapi/curatorapi.go:516-526 | no common subsequence is longer than the table's value |
| LineDiff.Unifiedish | internal/adapters/curatorapi/curatorapi.go:508-559 | the walk over the table prints the script of the specification |
| LineDiff.KeptIsLongest | internal/adapters/curatorapi/curatorapi.go:527-559 | the unchanged lines are a longest common subsequence of old and new lines |
| LineDiff.WalkReplays | internal/adapters/curatorapi/curatorapi.go:527-559 | the script leads from the old lines to the new ones |
| LineDiff.WalkIsShortest | internal/adapters/curatorapi/curatorapi.go:505-507 | no script from the old to the new lines has fewer `-` and `+` lines |
| LineDiff.DiffReplays | internal/adapters/curatorapi/curatorapi.go:508-577 | on the printed text, for all inputs: dropping the `+` lines and the prefixes gives the old lines, dropping the `-` lines and the prefixes gives the new lines |
| LineDiff.NoChangesIff | internal/adapters/curatorapi/curatorapi.go:505-507 | nothing is marked as changed if and only if the lines are the same |
| LineDiff.DeletionsComeFirst | internal/adapters/curatorapi/curatorapi.go:529-547 | no added line is directly followed by a removed one |
| LineDiff.EditTextMeaning | internal/adapters/curatorapi/curatorapi.go:532-546 | the two characters in front of each kind of line |
| Itoa.Write | internal/adapters/curatorapi/curatorapi.go:157-169 | the decimal digits of any 64-bit number, within the 20 bytes; nothing for a negative one |
| Itoa.DecimalReadsBack | internal/adapters/curatorapi/curatorapi.go:157-169 | the digits read back as the number |
| ZoneMarkers.WrapBlocks | internal/pipelines/rendering/passes/zonemarkers/zonemarkers.go:49-75 | the loop emits the wrapped list of the specification |
| ZoneMarkers.MarkersByKind | internal/pipelines/rendering/passes/zonemarkers/zonemarkers.go:49-96 | around every block of a list without markers stand a BEGIN and an END marker with its provenance, its explicit ID or its place, and zone "editorial" for prose and for callouts that no machine wrote, "machine" for all else |
| ZoneMarkers.EveryBlockIsInMarkers | internal/pipelines/rendering/passes/zonemarkers/zonemarkers.go:49-110 | whatever markers there were, behind the pass every block stands directly between a BEGIN and an END marker of one ID |
| ZoneMarkers.Apply | internal/pipelines/rendering/passes/zonemarkers/zonemarkers.go:39-47 | the sections of the given document itself are overwritten, each with its wrapped blocks |
| ZoneMarkers.WrapIsIdempotent | internal/pipelines/rendering/passes/zonemarkers/zonemarkers.go:49-110 | wrapping twice is wrapping once, on every block list, stray and unbalanced markers included |
| ZoneMarkers.WrapKeepsBlocks | internal/pipelines/rendering/passes/zonemarkers/zonemarkers.go:49-75 | without markers, output and input are the same list |
| ZoneMarkers.GeneratedIDsAreDistinct | internal/pipelines/rendering/passes/zonemarkers/zonemarkers.go:88-96 | equal generated IDs come from the same section and block index |
| Refine.FailingVerdicts | internal/pipelines/rendering/refine/refine.go:147-155 | no failure is counted exactly when every verdict passes cleanly |
| Refine.Loop.ApplyPasses | internal/pipelines/rendering/refine/refine.go:130-135 | the passes overwrite headings and blocks of the shared sections and return the same document, or an error when the result is rejected |
| Refine.Loop.SpliceSection | internal/pipelines/rendering/refine/refine.go:171-179 | the first section with that heading is replaced in place |
| Refine.Loop.ReviseFailing | internal/pipelines/rendering/refine/refine.go:89-105 | one round of revisions, spliced into the shared sections |
| RefineLaws.ProseSectionMeaning | internal/pipelines/rendering/refine/refine.go:160-167 | the section given to the reviser is the first with that title, an intent and no structural render |
| RefineLaws.RevisionMeaning | internal/pipelines/rendering/refine/refine.go:89-105 | a round changes something exactly if a verdict that does not pass cleanly is answered by a section whose heading the document has; headings stay, and every section is as it was or is an answer to a verdict's reason and claims |
| Refine.Loop.Run | internal/pipelines/rendering/refine/refine.go:70-128 | the loop on the heap, with base and pass output sharing one section array, computes `SharedRun`, errors of passes, reviewer and reviser included |
| RefineLaws.SharedRunIsCleanRun | internal/pipelines/rendering/refine/refine.go:6-10 | for passes that are idempotent and keep headings, every run publishes, and reviews in every round, the passes applied once to a clean base with all revisions so far |
| RefineLaws.OtherPassesAreAppliedTwice | internal/pipelines/rendering/refine/refine.go:6-10 | for every pass that keeps headings and changes its own output somewhere, a run that publishes that section passed twice where the clean base has it passed once |
| RefineLaws.RenamedSectionIsNotRevised | internal/pipelines/rendering/refine/refine.go:169-179 | for every pass that changes a heading, a run in which the splice no longer finds the section and the loop gives up, where the clean base is revised and reviewed again |
| RefineLaws.HeadingCaseHidesSections | internal/pipelines/rendering/passes/applystylerules/applystylerules.go:152-174 | the sentence-case rule is idempotent, and with it the section "Fleet Overview" is revised on a clean base and never by the loop |
| RefineLaws.SharingIsHarmlessIff | internal/pipelines/rendering/refine/refine.go:70-128 | every run, in every setting and on all sections, equals the run on a clean base if and only if the passes are idempotent and keep headings |
| RefineLaws.ZoneMarkersAreAppliedOnce | internal/pipelines/rendering/refine/refine.go:107-114 | with the zone-marker pass every run gives the result of the clean base |
| RefineLaws.RunIsBoundedAndHonest | internal/pipelines/rendering/refine/refine.go:82-128 | for any reviewer and reviser: at most the budget and at most the initial failures in rounds, strictly fewer failures in every round but the last, and the returned report is the review of the returned document |
| RefineLaws.RunStopsForAReason | internal/pipelines/rendering/refine/refine.go:82-128 | a run goes on until its budget is spent, all verdicts pass cleanly, no verdict leads to a revision, or a round brought no fewer failures |
| Markdown.WriteBlock | internal/pipelines/rendering/backends/markdown/markdown.go:91-123 | the text that each kind of block appends to the buffer |
| Markdown.WriteTable | internal/pipelines/rendering/backends/markdown/markdown.go:175-195 | header, one dash cell per column and the padded rows; nothing without columns |
| Markdown.WriteIndex | internal/pipelines/rendering/backends/markdown/markdown.go:160-173 | one link line per entry, with its description if there is one |
| Markdown.WriteCategories | internal/pipelines/rendering/backends/markdown/markdown.go:216-227 | one line with the names that are not blank; nothing if none remain |
| Markdown.WriteCallout | internal/pipelines/rendering/backends/markdown/markdown.go:237-244 | the severity and every line of the body, quoted |
| Markdown.WriteSection | internal/pipelines/rendering/backends/markdown/markdown.go:81-89 | the text of a section is appended to the buffer |
| Markdown.WriteSections | internal/pipelines/rendering/backends/markdown/markdown.go:56-58 | the sections follow each other |
| Markdown.Render | internal/pipelines/rendering/backends/markdown/markdown.go:47-62 | the text of the whole document: frontmatter, title, sections, footer |
| Markdown.PadRow | internal/pipelines/rendering/backends/markdown/markdown.go:200-214 | a row gets exactly as many cells as there are columns, empty ones at the end |
| MarkdownText.TableMeaning | internal/pipelines/rendering/backends/markdown/markdown.go:175-214 | a table is header, dashes and rows with as many cells as columns, each cell between bars |
| MarkdownText.RowReadsBack | internal/pipelines/rendering/backends/markdown/markdown.go:190-194 | cells without bars can be read off their row |
| MarkdownText.IndexMeaning | internal/pipelines/rendering/backends/markdown/markdown.go:160-173 | an index is one line for each entry: a link named by its text or else its page, and the description if there is one |
| MarkdownText.LinkReadsBack | internal/pipelines/rendering/backends/markdown/markdown.go:160-173 | name and target without closing brackets can be read off a link |
| MarkdownText.CalloutMeaning | internal/pipelines/rendering/backends/markdown/markdown.go:237-244 | a callout is its severity, if any, and all lines of its body, each quoted |
| MarkdownText.NamesAreKept | internal/pipelines/rendering/backends/markdown/markdown.go:216-222 | blank names are left out and the others trimmed, in order |
| MarkdownText.CategoriesMeaning | internal/pipelines/rendering/backends/markdown/markdown.go:216-227 | the line with the names that are kept, or nothing |
| MarkdownText.TextBlocksMeaning | internal/pipelines/rendering/backends/markdown/markdown.go:91-131 | prose and machine text end in one newline, and so does text for this backend; text for others is left out |
| MarkdownText.DiagramsAndReferences | internal/pipelines/rendering/backends/markdown/markdown.go:150-155 | a diagram is its picture or its fenced source, and an unresolved reference names area and entry |
| MarkdownText.HeadMeaning | internal/pipelines/rendering/backends/markdown/markdown.go:47-79 | the fields that are set between two rules, an empty line and the title |
| MarkdownText.FooterMeaning | internal/pipelines/rendering/backends/markdown/markdown.go:258-273 | a comment with the fields that are set, if any is |
| MDir.Parse | internal/pipelines/rendering/mdir/mdir.go:25-96 | the line loop computes the state machine of the specification |
| MDir.ParseAtxHeading | internal/pipelines/rendering/mdir/mdir.go:101-111 | the heading text of a line of level 2 to 6, or nothing |
| MarkdownRoundTrip.HeadingIff | internal/pipelines/rendering/mdir/mdir.go:98-111 | a line is read as a heading exactly if it is two to six hashes, a space and a text, up to blanks at its end, and the heading is the trimmed text |
| MarkdownRoundTrip.HeadingIsRead | internal/pipelines/rendering/mdir/mdir.go:98-111 | a heading printed at any level from 2 to 6 is read as that heading |
| MarkdownRoundTrip.FeedBlocks | internal/pipelines/rendering/mdir/mdir.go:25-96 | the lines of printed blocks add exactly these blocks to the current section, from every idle state |
| MarkdownRoundTrip.ParseInvertsPrintAt | internal/pipelines/rendering/mdir/mdir.go:25-111 | parsing recovers every list of sections in normal form, whatever level from 2 to 6 each heading is printed at |
| MarkdownRoundTrip.ParseInvertsPrint | internal/pipelines/rendering/mdir/mdir.go:25-111 | parsing the printed text of any list of sections in normal form gives the list back |
| MarkdownRoundTrip.UnclosedFenceIsKept | internal/pipelines/rendering/mdir/mdir.go:88-90 | a text that ends in an open fence reads as if the fence were closed at its end |
| MarkdownRoundTrip.FenceWithoutLanguageIsText | internal/pipelines/rendering/mdir/mdir.go:67-72 | a fence without a language opens a block of language "text" |
| MarkdownRoundTrip.FenceDropsFinalNewlines | internal/pipelines/rendering/mdir/mdir.go:51-59 | empty lines at the end of a fence are dropped |
| MarkdownRoundTrip.ProseIsTrimmed | internal/pipelines/rendering/mdir/mdir.go:30-39 | white space around prose is dropped, and nothing but white space is no block |
| MarkdownRoundTrip.ParsedBlocksHaveProvenance | internal/pipelines/rendering/mdir/mdir.go:30-59 | whatever the text, every block is prose or a diagram with the provenance of its kind and the given hash |
| MarkerCuts.GapsJoin | internal/pipelines/rendering/reconciler/wikiparse/wikiparse.go:62-66 | two texts without BEGIN markers that meet at white space have none together |
| UnhashedBlocks.BlockWithoutHashIsLost | internal/pipelines/rendering/backends/markdown/markdown.go:137-148 | the BEGIN marker printed for a block without a hash is never matched, whatever follows |
| UnhashedBlocks.MarkerIsReadIff | internal/pipelines/rendering/backends/markdown/markdown.go:137-148 | a BEGIN marker is matched where one was printed if and only if the block has a hash, or an arrow in its ID |
| UnhashedBlocks.LostTextIsFree | internal/pipelines/rendering/reconciler/wikiparse/wikiparse.go:62-66 | no BEGIN marker is found anywhere in the region of a block without a hash, nor does one start there and run on |
| RenderedPage.PageReadsBack | internal/pipelines/rendering/backends/markdown/markdown.go:47-148 | the wiki parser recovers from a rendered page, in order, exactly the blocks that have a hash, with exact ID, zone and provenance and the printed block as body; all other text, regions of blocks without a hash included, is found where it was printed |
| RenderedPage.RecoveredBlocks | internal/pipelines/rendering/passes/zonemarkers/zonemarkers.go:77-96 | each recovered block has the explicit ID or the place, the zone of its kind, the hash and the printed text |
| RenderedPage.DocumentOntoPage | internal/pipelines/rendering/reconciler/merge.go:36-66 | merging a rendered document into any page keeps the page's text for hashed prose and callouts that no machine wrote where the hash is the same, and gives every other hashed block its printed text |
| RenderedPage.EveryBlockIsRecoveredIff | internal/pipelines/rendering/cluster/cluster.go:103-114 | every block of the document is recovered if and only if every block has a hash; the "Part of" block of a cluster's child pages has none |
| RenderedPage.PageIDsAreDistinct | internal/pipelines/rendering/passes/zonemarkers/zonemarkers.go:88-96 | across the whole document block IDs are distinct when the explicit ones are told apart |
| RenderedPage.RenderedPagesSettle | internal/pipelines/rendering/reconciler/merge.go:36-92 | what pass and backend make of a document, blocks without a hash included, is a render with distinct IDs whose merge is settled after one push, on every page |
| RenderedPage.DocumentsSettle | internal/pipelines/rendering/backends/markdown/markdown.go:47-62 | the same for whole documents with frontmatter, title and footer |
| DiffSkip.AreaOfPathIff | internal/adapters/kb/git/git.go:171-181 | a path belongs to an area exactly if it is `areas/`, the area, a slash and more |
| DiffSkip.ChangedAreas | internal/adapters/kb/git/git.go:133-148 | an area is collected if and only if the old or the new path of some patch lies below its directory |
| DiffSkip.OnePatchPerFileIsComplete | internal/adapters/kb/git/git.go:128-148 | one patch for each changed, added or deleted file is complete |
| DiffSkip.AreaFilesMeaning | internal/adapters/kb/git/git.go:171-181 | the files of an area are those below its directory |
| DiffSkip.UnreportedAreasAreEqual | internal/adapters/kb/git/git.go:105-107 | an area that is not reported has the same files in both commits |
| SortStrings.Sort | internal/adapters/kb/git/git.go:185-191 | the swaps leave a sorted permutation of the slice |
| SortStrings.SortIsUnique | internal/adapters/kb/git/git.go:150-156 | the sorted list does not depend on the order in which the set was walked |
| DiffSkip.Intersects | internal/orchestrator/orchestrator.go:524-538 | true if and only if the two lists share an element |
| DiffSkip.DiffDrivenSkip | internal/orchestrator/orchestrator.go:486-522 | a spec is skipped if and only if it has been rendered at a recorded commit and that commit is current or its diff names no included area |
| DiffSkip.SkipsIff | internal/orchestrator/orchestrator.go:486-522 | with exact patches, a rendered spec is skipped if and only if its recorded commit is current or no file below the directory of an included area was changed, added or deleted |
| DiffSkip.CollectedDiffIsComplete | internal/adapters/kb/git/git.go:108-158 | the areas collected from a complete patch are a complete diff |
| DiffSkip.TurnAgreesWithFullIff | internal/orchestrator/orchestrator.go:486-522 | after the turn of a spec that does not fail, the page reconciled last is what a full run renders if and only if the turn was not skipped, or the spec as it now is still renders that page at the recorded commit |
| DiffSkip.IncrementalAgreesWithFullIff | internal/orchestrator/orchestrator.go:486-538 | the same after every run, for each spec that did not fail in it, whatever commits, reverts, edits of specs, failures, lost state writes and repeated skips came before |
| DiffSkip.IncrementalAgreesWithFull | internal/orchestrator/orchestrator.go:486-538 | after every run, for each spec that is never edited, loses no state write and did not fail in it: the last reconciled render is what a full run at the run's commit would render, up to the commit stamp |
| DiffSkip.LostWriteHidesRevert | internal/orchestrator/orchestrator.go:494-504 | when a state write is lost and the knowledge base then goes back to the recorded commit, the spec is skipped, and its page is the full render exactly if both commits render alike |
| DiffSkip.FreshRunStateIsHonest | internal/orchestrator/orchestrator.go:484-492 | the invariant behind that holds of an empty run state |
| WordWrap.WrapWords | internal/specs/docspec/docedit/docedit.go:304-320 | the loop computes the greedy wrapping of the text's words |
| WordWrap.WrapIsAWrapping | internal/specs/docspec/docedit/docedit.go:303-320 | the words stay, in order, and a line is over-long only if it is a single word |
| WordWrap.LinesAreFull | internal/specs/docspec/docedit/docedit.go:304-320 | no line could have taken the first word of the next one |
| WordWrap.LinesOfText | internal/specs/docspec/docedit/docedit.go:304-320 | a text without words is one empty line |
| WordWrap.ByteLenIsUtf8 | internal/specs/docspec/docedit/docedit.go:312-312 | the length of a text is the number of its bytes in UTF-8, section 3 of RFC 3629 |
| Text.FieldsAtSpace | internal/specs/docspec/docedit/docedit.go:305-305 | white space anywhere separates the words on its two sides |
| Text.FieldsOfOneWord | internal/specs/docspec/docedit/docedit.go:305-305 | a text without white space is one word |
| WordWrap.WrapIsShortest | internal/specs/docspec/docedit/docedit.go:304-320 | no wrapping of these words within the width has fewer lines |
| WordWrap.FoldingGivesWords | internal/specs/docspec/docedit/docedit.go:304-320 | joining the lines with spaces, the folding of section 8.1.3 of YAML 1.2, gives the single-spaced words |
| WordWrap.WrappingIsStable | internal/specs/docspec/docedit/docedit.go:304-320 | the folded lines have the same words and wrap to the same lines |
| JsonExtract.ExtractJSONObject | internal/judge/judge.go:200-227 | the scan over depth, string and escape state computes the extraction of the specification |
| JsonExtract.ExtractedIsBalanced | internal/judge/judge.go:198-227 | whatever is extracted is a balanced object that starts at the first brace |
| JsonExtract.BalancedIsExtracted | internal/judge/judge.go:198-227 | a balanced object behind a prefix without a brace is extracted exactly, whatever its strings hold and whatever follows |
| JsonExtract.ExtractsIff | internal/judge/judge.go:198-227 | extraction succeeds if and only if the first brace opens a balanced object |
| JsonExtract.JsonObjectIsExtracted | internal/judge/judge.go:198-227 | every object in any spelling that RFC 8259, sections 2 to 7, allows, with white space at every place and characters raw, escaped or as hex digits, is extracted from any prefix without a brace and any suffix |
| EntryLog.LoadJSONL | internal/adapters/kb/local/local.go:147-220 | an undecodable line fails the load; otherwise the two loops compute the resolved log |
| EntryLog.ResolvedMeaning | internal/adapters/kb/local/local.go:143-146 | there is one entry for each ID whose last record is a version, namely that version, in the order of first appearance, and no other entry |
| EntryLog.CompactionKeepsEntries | internal/adapters/kb/local/local.go:145-146 | replacing any prefix of the log by its resolved form leaves the entry of every ID |
| EntryLog.CompactionKeepsSequenceIff | internal/adapters/kb/local/local.go:145-146 | it leaves the loaded sequence if and only if revived entries keep their place: no entry that used to come after one is alive in the prefix, or is mentioned before it in the rest of the log |
| EntryLog.CompactionKeepsSequence | internal/adapters/kb/local/local.go:145-146 | it leaves the loaded sequence when no ID that the prefix leaves tombstoned is an entry of the whole log |
| EntryLog.RevivedEntryMoves | internal/adapters/kb/local/local.go:143-146 | a family of logs on which compaction moves an entry that comes back |
| CacheKey.RawSources | internal/pipelines/rendering/cluster/cachekey.go:100-106 | the sources joined as scheme and rest |
| CacheKey.HashDocPage | internal/pipelines/rendering/cluster/cachekey.go:89-98 | what is hashed is the sequence of NUL-terminated fields of the page, its sections and its lists |
| CacheKey.JoinedAlikeIff | internal/pipelines/rendering/cluster/cachekey.go:95-95 | lists of separator-free names are joined alike if and only if they are equal, the empty list and the list of one empty name being the only exception |
| CacheKey.SourcesAlikeIff | internal/pipelines/rendering/cluster/cachekey.go:100-106 | joined sources determine every scheme and rest |
| CacheKey.PageTextsAlikeIff | internal/pipelines/rendering/cluster/cachekey.go:87-98 | over any number of sections the hashed text is the same if and only if the pages agree on every serialised input |
| CacheKey.PagesWithNulAreConfused | internal/pipelines/rendering/cluster/cachekey.go:91-91 | a family of pages with a NUL in a field and other inputs but the same text |
| CacheKey.NamesWithCommaAreConfused | internal/pipelines/rendering/cluster/cachekey.go:95-95 | a family of pages with a comma in a related name and other inputs but the same text |
| CacheKey.SourcesWithBarAreConfused | internal/pipelines/rendering/cluster/cachekey.go:100-106 | a family of pages with a bar in a source and other inputs but the same text |
| CacheKey.Collect | internal/pipelines/rendering/cluster/cachekey.go:61-74 | the areas that the `kb` sources name are added, and no others |
| CacheKey.CollectPageAreas | internal/pipelines/rendering/cluster/cachekey.go:59-85 | the sorted list of the areas of the page's own sources and of all its sections', each once |
| CacheKey.SourceAreasMeaning | internal/pipelines/rendering/cluster/cachekey.go:61-74 | an area is collected if and only if a `kb` source has a word `area=` followed by it |
| CacheKey.SectionAreasMeaning | internal/pipelines/rendering/cluster/cachekey.go:76-78 | the same over the sources of all sections |
| CacheKey.PageAreasMeaning | internal/pipelines/rendering/cluster/cachekey.go:55-85 | an area is read by a page exactly if a `kb` source of the page or of one of its sections names it |
| CacheKey.ClusterAreasMeaning | internal/pipelines/rendering/cluster/cachekey.go:24-37 | and by a cluster exactly if its parent or a child reads it |
| CacheKey.ClusterKey | internal/pipelines/rendering/cluster/cachekey.go:23-42 | the key is the hash of topic, page hashes, hash of the read areas and pipeline version |
| CacheKey.ClusterKeysAlikeIff | internal/pipelines/rendering/cluster/cachekey.go:16-42 | if none of the texts hashed for two clusters collide, their keys are equal if and only if topic, inputs of parent and children, the areas that their `kb` sources name, the knowledge base in these and the pipeline version are |
| Nav.SubpageSplits | internal/nav/nav.go:57-73 | parent and last segment are the two sides of a title's last slash |
| Nav.ResolveMeaning | internal/nav/nav.go:36-50 | a declared parent or label stands; otherwise they are what stands before the last slash of the title, and behind it with spaces for underscores; all else is as declared |
| Nav.MemberMeaning | internal/nav/navmap.go:38-45 | a listing shows the page with its resolved placement |
| Nav.Build | internal/nav/navmap.go:34-61 | a listing for exactly the parents that occur, each the stable sort of its pages |
| Nav.SortListings | internal/nav/navmap.go:47-59 | every listing is sorted in place, whatever the order in which the map is walked |
| Nav.ListingOrder | internal/nav/navmap.go:49-58 | listings go by section, then by order, then by label |
| Text.BelowIff | internal/nav/navmap.go:52-57 | strings are ordered by the first character at which they differ, and a shorter one before its continuations |
| Nav.StableSortIsUnique | internal/nav/navmap.go:49-58 | being in order and keeping members of equal keys as they were determines the listing |
| Nav.EveryPageIsListed | internal/nav/navmap.go:26-30 | a listing has every page of its hub as often as it was given, and no other |
| Nav.NavMapIsOrderIndependent | internal/nav/navmap.go:26-30 | if no hub has two members of one key, the map does not depend on the order of the pages |
| AutoHub.ExpandAuto | internal/pipelines/rendering/frontends/hub/autohub.go:24-62 | the loops over sections and members fill the declared sections and the trailing one; other specs are returned unchanged |
| AutoHub.HubMeaning | internal/pipelines/rendering/frontends/hub/autohub.go:24-68 | the declared sections keep order, title and description, and each holds the links of exactly the members that name it, in order; all others follow under "Other", which is there only if there are any |
| AutoHub.HubPlacesMembers | internal/pipelines/rendering/frontends/hub/autohub.go:33-55 | each member is placed once for every section of its name, or once under "Other" |
| AutoHub.MembersArePlacedOnceIff | internal/pipelines/rendering/frontends/hub/autohub.go:18-23 | every member is placed exactly once if and only if no member's section is declared twice |

## Left out

- The MediaWiki, git, bbolt, lock, diagram, mail and chat adapters, the command line and the web UI: input and output through other libraries.
- The real MediaWiki target returns no revision ID; the model follows the memory target with new IDs as parameters.
- The extra upsert that the command installs as `OnRendered`: it overwrites the merged page, so the protocol is modelled without it.
- Several specs for one page title: excluded by a precondition of the protocol laws.
- Time stamps: those of revisions and of the run state are absent, those of frontmatter and footer are printed texts.
- RenderedPage.PageReadsBack: IDs and hashes without white space, bodies that do not close their own region, and no BEGIN marker inside headings, frontmatter, footer or blocks without a hash.
- MarkdownRoundTrip.ParseInvertsPrint: prose with heading or fence lines, and prose whose first line is indented, are outside the normal form of the round trip: the first are read as headings and fences, and trimming takes the indentation.
- Refine.Loop.ApplyPasses: passes that rewrite each section on its own, then one that may reject the result, as in the pipeline of the command; the error of an image upload in the middle of the pipeline is not told apart from a rejection. The contents of the passes other than the zone markers and the heading case, the latter for ASCII letters, are parameters.
- Prompts, model answers and their decoding: reviewer and reviser are arbitrary functions that may fail; decoding of log lines is a case distinction.
- DiffSkip.IncrementalAgreesWithFullIff: takes the name of an area's directory to be the area's ID, which the loader does not check.
- `DiffSince` beyond its set of areas and their order: opening the repository and resolving commits.
- Soundness of the rendered-document cache: its hash leaves out entry order, tags and update times, so a hit need not equal a fresh render.
- CacheKey.ClusterKey: the hash of the knowledge base in the read areas is a function parameter, for the same reason.
- `sort.SliceStable` and `sort.Strings` are library functions, modelled by insertion sorts; `StableSortIsUnique` and `SortIsUnique` show that no other sort differs.
- Text edits of YAML documents (`splice` and its callers), configuration, data-transfer mapping, sinks, staleness and link checks: each is settled by reading a branch.
