# NiakVIO Brain LLM: a verified model of its deterministic core

NiakVIO Brain LLM plans repairs of media providers. A language model proposes; deterministic
code decides what it may see, what it may touch, what it must not repeat, what it costs and
what is kept. This project models that deterministic code in Dafny and proves what it promises
over every input and every run. The language model appears only as an arbitrary oracle.

The modules, by component:

- **Editing exact bytes.** `PythonText` models `str.find`, the non-overlapping `str.count` and the
  first-occurrence `str.replace`. `SourceWindows` and `EditUnits` select what a prompt shows and
  name it, and `UnitStages` tells that selection by places in the ranked lists; `BraceScanner` is
  the scanner that finds the end of a JavaScript function, and `ScannerModes` says what each of its
  modes covers; `AnchorCompiler` trims an edit, widens it until its find text counts once, and relates the
  final replace to the intended splice.
- **Force portfolio and its memory.** `ForceMemory` holds the blocking rule of the planner, the
  adapter's projection and the publisher's independent copy of the rule. `ForceObservations`
  models every function that rewrites the observation list, and `ForceRetention` says what each
  retains; `ForceScope` the calls, transport retries and validation chains of one scope;
  `ForcePortfolio` the loop over hypotheses and scopes with its deadlines, and `ForceDelivery` what
  it hands on, told from its calls.
- **Shared budget.** `BudgetLedger` is the ledger behind the file lock, one step at a time.
- **Paging, merging, family waves.** `GuidancePaging`, `GuidanceMerge` (with `StringOrder`) and
  `FamilyWave`.
- **Normalizers.** `EvidenceFields` and `NetworkEvidence` (over `Projection`) bound network
  evidence, `EvidenceLaws` says which events are well formed and how a trace is ranked;
  `AdvisorExperiments` generates experiments and sanitizes them for publication;
  `HostedWire` encodes data values for the hosted API and restores them; `EmittedTraversals`
  covers index expressions the compilers emit; `Retrieval` the similarity arithmetic.
- `Basics` holds what several of them share, `Greedy` the theory of taking the first free items of
  a list, `Ranking` that of a stable ranking.

Modelling choices that hold throughout: strings are `seq<char>`; ids and SHAs arrive in canonical
form; a SHA-256 fingerprint is the value it fingerprints; clocks, model answers, usages and the
text matches of regular expressions are parameters; money and scores are exact reals. Python
code that loops is a Dafny method proved against a function, and the laws are lemmas about that
function.

## Where the code and its own words differ

- `planner.py:352-354` promises the occurrence closest to the focus, and that a tie fails closed.
  The rank compares the side of the focus before the distance. The chosen occurrence is the
  closest exactly unless the focus has neighbours on both sides and the one in front of it is
  nearer (`ChosenIsNearestExactly`, and `LocatedIsNearestExactly` for all windows searched;
  `FocusRankIgnoresDistance` is a window the selector yields). A tie inside a window never fails:
  the later of two closest occurrences is taken (`TieGoesToTheLater`, `TieIsNotRefused`), and the
  error for an ambiguous window cannot be raised (`OneWindowIsNeverAmbiguous`).
- The drift error behind a window search (`planner.py:444-445`) cannot be raised either: windows
  are slices of the source (`SelectedWindowsNeverDrift`).
- `planner.py:349` speaks of one globally unique anchor. A count of one admits overlapping
  copies, and the replace then edits the first copy (`EditUnits.OverlapMisplacesEdit`, for a
  statement-sequence unit); `CompiledEditIsExact` says exactly when the result is still right.
- The exit of the widening loop for missing room (`planner.py:487-490`) cannot be reached
  (`NoRoomMeansUnique`).
- `publish_niakvio_force_mutations.py:121` asks for identical semantics of planner and publisher.
  `AgreementIsExact` says when they part, for every ledger and every guarded mutation list. The
  publisher alone blocks a list with an executed failure on record when every newest row of the
  list has stopped counting: no failures left, a flag that is false or no boolean, or an exempt
  outcome. The planner alone blocks it when a newest row counts but no failure of the list is
  spelled so that the publisher reads it. A lost failure alone does not part them
  (`AnotherContextStillBlocks`).
- `prompting.py:690-691` gives every window a focus offset for its keyword. For a source that fits
  into one window that position comes from the case-folded text, which can be longer, and may lie
  behind the end (`FoldingLosesFocus`). It lies inside exactly when the first keyword that hits
  names a function, or has a hit between the skipped head and the end, or has all its hits in that
  head (`FocusFitsExactly`, `WindowsAreExact`).
- `retrieval.py:81-82` says that structure dominates and wording breaks ties. It does for gaps of
  at least 0.18 (`StructureDominates`); a smaller gap can be overturned by wording, as it is for
  the query and the rows of `WordingOverturnsStructure`.
- `SecondSettlementGoesUnnoticed`: the ledger's mismatch check does not identify reservations, so
  a second settlement of one reservation passes while enough others are pending, and then it is
  another worker's settlement that fails (`SecondSettlementHitsAnother`).

## Model

| member | source | states |
|---|---|---|
| PythonText.CountOneMeansOverlap | src/niakvio_brain_llm/planner.py:478-478 | the non-overlapping count is one exactly when the text occurs and every other occurrence overlaps the leftmost |
| PythonText.FirstReplaceHitsTarget | src/niakvio_brain_llm/planner.py:651-651 | a first-occurrence replace equals the splice at the intended occurrence iff the replacement repeats with the shift between the two |
| PythonText.SpliceInside | src/niakvio_brain_llm/planner.py:491-500 | an edit of the middle of an occurrence equals the edit of the whole occurrence that keeps both ends |
| AnchorCompiler.MinimizeLocalEdit | src/niakvio_brain_llm/planner.py:305-333 | the two trimming loops return the longest common prefix and then suffix, leaving the find text non-empty |
| AnchorCompiler.MaximalTrimIsUnique | src/niakvio_brain_llm/planner.py:305-333 | the trim is the only one that is maximal in prefix and then suffix |
| AnchorCompiler.TrimKeepsEdit | src/niakvio_brain_llm/planner.py:305-333 | any trim of unchanged ends leaves the spliced text the same |
| AnchorCompiler.Occurrences | src/niakvio_brain_llm/planner.py:374-383 | the cursor loop lists occurrences in order and apart, and every other occurrence starts inside one of them |
| AnchorCompiler.CountIsOccurrences | src/niakvio_brain_llm/planner.py:463-463 | the non-overlapping count is the number of occurrences listed in order and apart |
| AnchorCompiler.RankCandidates | src/niakvio_brain_llm/planner.py:386-416 | every absolute position is kept once, with the rank the loops leave it |
| AnchorCompiler.RankIsBestOfAnyWindow | src/niakvio_brain_llm/planner.py:407-416 | a position has a rank exactly when some window shows the snippet there, and it is the best of its ranks in any window |
| AnchorCompiler.ClosestOccurrence | src/niakvio_brain_llm/planner.py:417-442 | returns the one best-ranked candidate, and refuses exactly when there is none or the best is shared |
| AnchorCompiler.FirstIsUnique | src/niakvio_brain_llm/planner.py:417-442 | at most one position can be ranked first |
| AnchorCompiler.ChosenIsNearestExactly | src/niakvio_brain_llm/planner.py:386-442 | in a window the chosen occurrence is the nearest to the focus iff not, of the two neighbours of the focus among the positions, the one in front is nearer, and the only nearest iff that one is not as near either |
| AnchorCompiler.TieGoesToTheLater | src/niakvio_brain_llm/planner.py:386-442 | of two nearest occurrences in a window the later one is chosen |
| AnchorCompiler.TieIsNotRefused | src/niakvio_brain_llm/planner.py:426-442 | a concrete text with two occurrences as near: the edit starts at the later one |
| AnchorCompiler.OneWindowIsNeverAmbiguous | src/niakvio_brain_llm/planner.py:426-442 | a window that has the snippet always has a first rank: its ambiguity exit is dead |
| AnchorCompiler.FocusRankIgnoresDistance | src/niakvio_brain_llm/planner.py:386-400 | a concrete text and its window that break the condition: the edit starts at an occurrence farther from the focus than another |
| AnchorCompiler.LocateEdit | src/niakvio_brain_llm/planner.py:361-451 | finds a start by hint, window or global uniqueness, and rejects only when none of the rules gives one, each time for a reason that holds; among windows of the source it never drifts, and a named window that has the snippet always gives a start |
| AnchorCompiler.SelectedWindowsNeverDrift | src/niakvio_brain_llm/planner.py:366-445 | of the selector's windows every first rank is a start: the drift exit behind the search is dead |
| AnchorCompiler.LocatedIsNearestExactly | src/niakvio_brain_llm/planner.py:361-451 | over all windows searched, the located start is nearest to its focus iff no position in front of its own is nearer than all around or behind theirs, and the only nearest iff none is as near |
| AnchorCompiler.WideningKeepsEdit | src/niakvio_brain_llm/planner.py:478-500 | through every widening step the anchor keeps the edit, adds the same text to both sides, and ends with a count of one |
| AnchorCompiler.ReachIsBalanced | src/niakvio_brain_llm/planner.py:483-486 | a step is at most twelve, at least one, otherwise half of what the cap leaves, and each side takes it in full unless the source ends before |
| AnchorCompiler.WideningBounds | src/niakvio_brain_llm/planner.py:478-500 | a step overshoots the find cap by one at most and the replacement cap never |
| AnchorCompiler.NoRoomMeansUnique | src/niakvio_brain_llm/planner.py:485-490 | with no text left to add the anchor is the whole source, which counts once: the exit is dead |
| AnchorCompiler.WideningSucceedsWithinCaps | src/niakvio_brain_llm/planner.py:478-503 | caps that admit the whole source always let widening succeed |
| AnchorCompiler.WidenAnchor | src/niakvio_brain_llm/planner.py:478-503 | the loop terminates and computes the specified widening, including its size errors |
| AnchorCompiler.InitialAnchorIsTrimmed | src/niakvio_brain_llm/planner.py:463-469 | compiling starts with the snippet as it is when it is unique and declares no function, otherwise with what the maximal trim leaves of it |
| AnchorCompiler.CompiledAnchorKeepsEdit | src/niakvio_brain_llm/planner.py:453-511 | a compiled anchor stands for the requested edit, counts once and respects both caps |
| AnchorCompiler.CompiledPasses | src/niakvio_brain_llm/planner.py:453-511 | a compiled anchor extends the first one, counts once, fits both caps, and no guard objects to the edit, to its trimmed form or to the anchor |
| AnchorCompiler.RejectionIsExplained | src/niakvio_brain_llm/planner.py:453-510 | every rejection of a located edit has its reason: the guard that objects, an anchor at the find cap that is not unique, one past the replacement cap, or a unique one past a cap |
| AnchorCompiler.UnobjectionableCompiles | src/niakvio_brain_llm/planner.py:453-511 | with caps that admit the whole source, an edit to which no guard objects compiles |
| AnchorCompiler.AnchorReplaceIsExact | src/niakvio_brain_llm/planner.py:651-651 | the target overlaps the first copy; the replace is exact iff the replacement repeats with their shift, in particular when the target is leftmost |
| AnchorCompiler.CompiledEditIsExact | src/niakvio_brain_llm/planner.py:463-511 | replace-first of a compiled pair equals the splice of the requested edit iff that condition holds |
| AnchorCompiler.ResolveStructuredAnchor | src/niakvio_brain_llm/planner.py:336-511 | the whole compiler: missing source, missing find, a start by the location rules, and then at every such start an anchor that passed every check, or a rejection whose reason holds, and an anchor if nothing objects and the caps admit the source |
| BraceScanner.JavascriptFunctionEnd | src/niakvio_brain_llm/source_units.py:5-94 | returns the first return to depth zero of the code-mode braces after the first brace, or -1 when there is none |
| BraceScanner.EndIsUnique | src/niakvio_brain_llm/source_units.py:5-94 | that specification determines the answer |
| BraceScanner.EndIsClosingBrace | src/niakvio_brain_llm/source_units.py:83-90 | the end lies behind a closing brace in code mode, and the depth never goes negative: the depth-below-zero exit is dead |
| BraceScanner.EndMovesWithBlock | src/niakvio_brain_llm/source_units.py:5-94 | the answer depends only on the block found and moves with it to any other text and position |
| BraceScanner.EndSurvivesNewTail | src/niakvio_brain_llm/source_units.py:5-94 | any text with the same characters up to the end gives the same end |
| BraceScanner.FragmentCheckIsExact | src/niakvio_brain_llm/prompting.py:974-977 | a fragment scans to its full length on its own iff its end is the function end in place |
| ScannerModes.StringLasts | src/niakvio_brain_llm/source_units.py:41-49 | a mark met in code opens a string that lasts exactly up to the first later mark of its kind behind an even run of backslashes; code resumes behind it |
| ScannerModes.OpenStringLasts | src/niakvio_brain_llm/source_units.py:41-49 | without such a mark the string lasts to the end of the text |
| ScannerModes.LineCommentLasts | src/niakvio_brain_llm/source_units.py:29-33 | two slashes in code open a comment that ends at the first CR or LF |
| ScannerModes.BlockCommentLasts | src/niakvio_brain_llm/source_units.py:34-40 | a slash and a star in code open a comment that ends behind the first star and slash after its opening |
| ScannerModes.RegexLasts | src/niakvio_brain_llm/source_units.py:50-63 | a regular expression lasts up to the first slash that is neither escaped nor in a class; code resumes behind it |
| ScannerModes.LastIsSignificant | src/niakvio_brain_llm/source_units.py:91-92 | the last significant character is the last one of the text in front that is code and not blank, or the slash that ends a regular expression |
| ScannerModes.CodeLeavesExactly | src/niakvio_brain_llm/source_units.py:64-82 | what each character of code does to the mode, and that a slash opens a regular expression exactly at the start, behind one of the listed characters or behind one of four keywords |
| ScannerModes.DepthCountsBraces | src/niakvio_brain_llm/source_units.py:83-90 | the depth is the number of opening less that of closing braces in code |
| ScannerModes.EscapedMarkStays | src/niakvio_brain_llm/source_units.py:41-49 | a concrete block with an escaped mark: the brace behind it is text and the end is seven |
| SourceWindows.KeywordPositions | src/niakvio_brain_llm/prompting.py:734-742 | lists up to twelve hits of a keyword in order and apart; every other occurrence starts inside one of them or behind the twelfth |
| SourceWindows.FirstFromIsFirst | src/niakvio_brain_llm/prompting.py:771-774 | a keyword stands for its first hit behind what is skipped, or for its last one |
| SourceWindows.GatherIntervals | src/niakvio_brain_llm/prompting.py:767-785 | takes the interval of each keyword that hits unless it overlaps one taken, up to the number of windows |
| SourceWindows.IntervalsAreFirstFree | src/niakvio_brain_llm/prompting.py:767-785 | a keyword gets no interval only if it does not hit, if its interval overlaps that of an earlier one, or if the windows are used up |
| SourceWindows.ClipIntervals | src/niakvio_brain_llm/prompting.py:800-820 | clips intervals to the remaining budget in order and drops empty slices |
| SourceWindows.ForceSourceWindows | src/niakvio_brain_llm/prompting.py:680-820 | the windows are disjoint exact slices numbered from one within the budgets, and every focus is inside under the exact condition |
| SourceWindows.LongWindowsAreExact | src/niakvio_brain_llm/prompting.py:767-820 | windows of a long source are disjoint exact slices numbered from one, with a focus inside and total length within the budget |
| SourceWindows.LongWindowsShowEverything | src/niakvio_brain_llm/prompting.py:787-820 | laid end to end, the windows of a long source are what the intervals ask for, cut only where the budget ends; each keeps the reason and the focus of its interval |
| SourceWindows.ShortFocusIsInside | src/niakvio_brain_llm/prompting.py:744-765 | the focus of a short source is in range while case folding does not lengthen the text |
| SourceWindows.FocusIsFirstHit | src/niakvio_brain_llm/prompting.py:744-765 | the focus of a short source is that of the first keyword that hits, and the middle when none does |
| SourceWindows.FocusFitsExactly | src/niakvio_brain_llm/prompting.py:744-765 | the focus of a short source is in range iff no keyword hits, or the first that hits names a function, or its hits fit between head and end or all lie in the head |
| SourceWindows.WindowsAreExact | src/niakvio_brain_llm/prompting.py:680-820 | exactness, disjointness and budgets for every source; every focus is inside iff the source is blank, long, or its keywords fit |
| SourceWindows.FoldingLosesFocus | src/niakvio_brain_llm/prompting.py:756-765 | a concrete source whose focus lies behind its end |
| EditUnits.CollectRows | src/niakvio_brain_llm/prompting.py:1086-1158 | the collecting loops keep each span once and only what the structural check passes |
| UnitStages.CollectedIsFirstFree | src/niakvio_brain_llm/prompting.py:1086-1158 | every candidate that passes the check is collected, in order, unless its span already is |
| EditUnits.CollectedIsExact | src/niakvio_brain_llm/prompting.py:1086-1158 | collected rows are non-empty exact slices of the source with distinct spans |
| EditUnits.FunctionRowsAreWhole | src/niakvio_brain_llm/prompting.py:974-977 | a collected function unit, found in a window or in the text, ends in the text itself where its block ends |
| EditUnits.FindCallees | src/niakvio_brain_llm/prompting.py:1306-1377 | the frontier queue terminates and finds exactly the functions one or two calls away from the roots that are not roots themselves |
| EditUnits.FreeSlotsGoToCallees | src/niakvio_brain_llm/prompting.py:1295-1417 | behind the roots no slot goes to anything else unless every function within two calls is in |
| EditUnits.OfferRows | src/niakvio_brain_llm/prompting.py:1410-1417 | adds rows in order unless the span is taken or the budget is spent |
| EditUnits.ReserveHelpers | src/niakvio_brain_llm/prompting.py:1254-1281 | appends at most two new pieces of one helper, apart from each other; none only when the budget is spent or every piece is taken |
| EditUnits.SelectRows | src/niakvio_brain_llm/prompting.py:1162-1441 | the stages in order with final filter and refill, proved against a function of the plan; on exact lists the result is exact, distinct, within the budget and outside avoided functions, and `UnitStages.SelectionIsStaged` tells it by places |
| UnitStages.SelectionIsStaged | src/niakvio_brain_llm/prompting.py:1162-1441 | each stage takes exactly the first rows of its list that are free, up to its room; behind them exactly the rows outside the avoided functions stay, in order, and the room goes to the first callees and functions outside them |
| UnitStages.SelectionIsFull | src/niakvio_brain_llm/prompting.py:1162-1441 | while there is room no row is missed: without an avoided function every selector, function to start from, callee and ranked row has its span selected, with one every callee and function outside it |
| EditUnits.SelectionIsSound | src/niakvio_brain_llm/prompting.py:1162-1441 | whatever the rankings, selected rows are exact, distinct, within the budget, and none lies inside an avoided function |
| EditUnits.NameUnits | src/niakvio_brain_llm/prompting.py:1443-1451 | each unit's id is its window id, u, and its running number in that window |
| EditUnits.IdsAreDistinct | src/niakvio_brain_llm/prompting.py:1443-1451 | no two units share an id |
| EditUnits.OfferedIdsResolve | src/niakvio_brain_llm/planner.py:545-580 | an id resolves in the converter iff the wire offers it, to the unit the prompt showed; the drift error is dead |
| EditUnits.UnitsAreExact | src/niakvio_brain_llm/planner.py:3260-3267 | from the source and its windows to the ids of the wire schema: exact, distinct, bounded, outside avoided functions, whole where they are functions, and resolvable iff offered |
| EditUnits.ChosenEditIsExact | src/niakvio_brain_llm/planner.py:600-651 | an edit chosen by id is compiled against the bytes shown, and applied there exactly under the anchor condition |
| EditUnits.OverlapMisplacesEdit | src/niakvio_brain_llm/planner.py:463-503 | three equal statements, the units offered for them and the third of these, whose edit lands on an earlier overlapping copy |
| ForceMemory.LoadForceMemory | scripts/publish_niakvio_force_mutations.py:137-166 | collects exactly the executed failures with valid fingerprints |
| ForceMemory.ProviderForceNegativeMemory | src/niakvio_brain_llm/niakvio_adapter.py:587-657 | projects a provider's rows and keeps the newest of each (mutation, context) key |
| ForceMemory.NewestRowsAreLatest | src/niakvio_brain_llm/niakvio_adapter.py:646-657 | the reverse scan keeps exactly the last row of every key |
| ForceMemory.PlannerBlocksByNewest | src/niakvio_brain_llm/planner.py:931-996 | the planner blocks a list iff some newest visible row of it still counts |
| ForceMemory.PublisherBlocksByAny | scripts/publish_niakvio_force_mutations.py:113-166 | the publisher blocks it iff some row of the ledger is an executed failure of it |
| ForceMemory.ForceMemoryBlocksMutations | src/niakvio_brain_llm/planner.py:931-996 | the nested scan blocks exactly: a list with a Bloc and nothing but patches beside it by a reservation or an executed failure of it, whatever the digests; a patch list of files with known digests by a reservation of it or by an executed failure of it with the same surfaces; no other list |
| ForceMemory.GuardBlocksExactly | src/niakvio_brain_llm/planner.py:944-996 | so for the guard as a whole, stated by scopes, digests and rows alone |
| ForceMemory.PlannerBlocksOnlyWhatPublisherBlocks | src/niakvio_brain_llm/planner.py:963-996 | on plain 64-digit fingerprints, whatever flags and outcomes, what the planner blocks the publisher blocks |
| ForceMemory.AgreementIsExact | scripts/publish_niakvio_force_mutations.py:113-166 | for every ledger and guarded mutation list: the publisher alone blocks iff an executed failure is on record and all its newest rows stopped counting; the planner alone iff a newest row counts and no failure is legible to the publisher |
| ForceMemory.ProjectionKeepsNegatives | src/niakvio_brain_llm/niakvio_adapter.py:599-641 | which spellings of flag and outcome turn a failure into no failure |
| ForceMemory.PlannerAndPublisherAgree | src/niakvio_brain_llm/planner.py:931-996 | on a well-kept ledger the planner's guard and the publisher's filter block the same mutation lists |
| ForceMemory.SupersededFailureSplitsThem | scripts/publish_niakvio_force_mutations.py:137-166 | a concrete ledger on which they differ |
| ForceMemory.AnotherContextStillBlocks | scripts/publish_niakvio_force_mutations.py:113-134 | a concrete ledger that loses a failure and still blocks on both sides, by another context |
| ForceMemory.OverlongFingerprintSplitsThem | src/niakvio_brain_llm/niakvio_adapter.py:625-626 | a fingerprint with more text behind it is cut and blocks in the planner only |
| ForceObservations.ReservingKeepsGuards | scripts/plan_batch_from_checkout.py:295-345 | reserving appends one row, forgets none below four and leaves the memory row alone |
| ForceObservations.ReservationBlocks | scripts/plan_batch_from_checkout.py:295-345 | a reserved candidate is blocked from then on |
| ForceObservations.CarryingKeepsGuards | scripts/plan_batch_from_checkout.py:883-917 | carrying evidence of at most twelve rows into the next candidate keeps every guard row |
| ForceObservations.ReservationSurvivesCarryExactly | scripts/plan_batch_from_checkout.py:883-917 | a fresh reservation survives the twelve-row cut iff at most eleven rows of evidence precede it |
| ForceObservations.ValidationFeedbackFor | scripts/plan_batch_from_checkout.py:572-695 | builds the rewritten observations of a rejection, with its three retained rows and four-field dedup |
| ForceObservations.FirstOfEachKeyIsDistinct | scripts/plan_batch_from_checkout.py:661-688 | the dedup leaves one row for each key |
| ForceObservations.RejectionKeepsGuards | scripts/plan_batch_from_checkout.py:644-695 | no rejection loses the negative memory or a reservation |
| ForceObservations.RejectedForceUnits | src/niakvio_brain_llm/prompting.py:842-860 | collects exactly the units of rotating rejections |
| ForceObservations.RejectionOnlyAddsExclusions | scripts/plan_batch_from_checkout.py:644-695 | a rejection adds its own unit iff it rotates and drops none, retention and dedup notwithstanding |
| ForceObservations.RejectionAddsOneFeedback | scripts/plan_batch_from_checkout.py:644-695 | feedback grows by at most one row a correction |
| ForceRetention.RejectionRetains | scripts/plan_batch_from_checkout.py:572-695 | a rejection leaves its own feedback, the first three older ones and every row of the four sources that may not be lost, in this order, each key once |
| ForceRetention.CarryingRetains | scripts/plan_batch_from_checkout.py:883-917 | a failed candidate passes on its reason and exactly the first twelve rows of evidence |
| ForceRetention.ReservingRetains | scripts/plan_batch_from_checkout.py:295-345 | reserving adds the candidate to the first reservation row there is, which keeps its last four, or adds such a row; every other row stays |
| ForceScope.RunValidationChain | scripts/plan_batch_from_checkout.py:697-737 | runs corrections until one is admitted, the budget is spent or transport fails |
| ForceScope.ChainFollows | scripts/plan_batch_from_checkout.py:697-737 | over the calls of a chain: each corrects the refusal before it and sees its feedback, an admitted edit ends it, a transport error leaves the refusal it followed, otherwise all corrections are spent or time is up |
| ForceScope.ChainIsOrderly | scripts/plan_batch_from_checkout.py:697-737 | over a chain exclusions only grow, guards stay, calls fit the deadline, and what is admitted avoids both |
| ForceScope.RunForceScope | scripts/plan_batch_from_checkout.py:475-779 | on guarded observations: five, three or one calls at most, each within the deadline with exclusions growing, and what is admitted is neither excluded nor blocked |
| ForceScope.ScopeIsOrderly | scripts/plan_batch_from_checkout.py:697-779 | at most five calls for a Bloc scope, three otherwise, one once a candidate is reserved |
| ForceScope.ScopeFollows | scripts/plan_batch_from_checkout.py:475-779 | over the calls of a scope: the request once, a second time exactly behind a retryable transport error, and a refusal is corrected three times for a Bloc, once otherwise, never with a candidate reserved, while five seconds are left |
| ForceScope.ScopeConcludes | scripts/plan_batch_from_checkout.py:475-779 | a scope ends with the first reply whose edit exclusions and guard admit, and that edit is its result; without one there is none |
| ForceScope.ScopeIsClocked | scripts/plan_batch_from_checkout.py:546-563 | the log and the clock of a scope agree call by call |
| ForceScope.ScopeGrants | scripts/plan_batch_from_checkout.py:513-552 | every call is granted a timeout of 45 seconds at least, within the bounds of settings and kind, or all whole seconds left if those are fewer |
| ForcePortfolio.AssembledIsFresh | src/niakvio_brain_llm/niakvio_adapter.py:1033-1065 | what the adapter assembles has at most four rows of evidence and at most one memory row |
| ForcePortfolio.SelectingKeepsSafe | scripts/plan_batch_from_checkout.py:1081-1088 | a candidate the guard let through stays the only one of its kind |
| ForcePortfolio.CarryingKeepsSafe | scripts/plan_batch_from_checkout.py:883-917 | carrying feedback to the next candidate keeps the safety invariant |
| ForcePortfolio.TryScopes | scripts/plan_batch_from_checkout.py:975-1052 | tries the scopes in order until one selects |
| ForcePortfolio.BudgetIsFair | scripts/plan_batch_from_checkout.py:931-962 | with nothing planned a candidate gets what 45 seconds for each later one leave, 90 at least and its cap at most; with something planned the time is shared evenly |
| ForcePortfolio.PlanPortfolio | scripts/plan_batch_from_checkout.py:819-1106 | the whole loop over hypotheses and what it hands on: the candidates that change something, or else an abstention |
| ForcePortfolio.CandidateStaysSound | scripts/plan_batch_from_checkout.py:931-1088 | one candidate keeps distinctness, guard rows, bounds and deadlines |
| ForcePortfolio.PortfolioIsSafe | scripts/plan_batch_from_checkout.py:819-1088 | over every run the planned Bloc lists and patch lists of files with known digests are pairwise distinct and none is an executed failure known at the start, deadlines nest, and honoured timeouts end within the provider budget |
| ForceDelivery.PlanIsExact | scripts/plan_batch_from_checkout.py:819-1106 | over every run, from the calls alone: what is handed on is every edit the model was admitted to make, in order, one for each candidate that had one; a candidate ends otherwise only when all scopes were called for or its time is up, and none is left out while five seconds remain |
| ForceDelivery.FirstEditIsHandedOn | scripts/plan_batch_from_checkout.py:931-1103 | an edit answered at once, of no excluded unit and not blocked, is the first candidate handed on |
| ForceDelivery.HandedOnIsSafe | scripts/plan_batch_from_checkout.py:1090-1106 | what is handed on is as new and distinct as what was planned, four at most |
| ForceDelivery.PortfolioPassesOn | scripts/plan_batch_from_checkout.py:883-1088 | the first call of a candidate sees what the first call of the one before it saw, with that one's edit reserved or its failure fed back, and the reason told is that of the last call if that was refused with time to spare |
| BudgetLedger.CostIsMonotone | src/niakvio_brain_llm/api_cost.py:37-44 | the cost of a known model grows with both token counts |
| BudgetLedger.CostIsLinear | src/niakvio_brain_llm/api_cost.py:37-44 | a million tokens of either kind cost their rate, and costs add up |
| BudgetLedger.Budget.Reserve | src/niakvio_brain_llm/api_cost.py:109-121 | the locked reserve step: its new state, or an error that changes nothing |
| BudgetLedger.Budget.Settle | src/niakvio_brain_llm/api_cost.py:123-145 | the locked settle step: its new state, unverified usage or mismatch |
| BudgetLedger.EveryRunConserves | src/niakvio_brain_llm/api_cost.py:93-145 | over every interleaving pending is the sum of open reservations, spent the sum of charges, accounted at most reserved |
| BudgetLedger.GrantedExactly | src/niakvio_brain_llm/api_cost.py:109-121 | in every run a reservation is granted exactly when the model is known, the limit is not negative, and its estimate fits beside charges and open reservations |
| BudgetLedger.OpenTicketsSettle | src/niakvio_brain_llm/api_cost.py:123-145 | an open reservation can always be settled |
| BudgetLedger.SettlementKeepsCapExactly | src/niakvio_brain_llm/api_cost.py:123-145 | in any conserved state a settlement keeps the cap iff its charge fits its reservation and what was free |
| BudgetLedger.FittingChargesAreSafeExactly | src/niakvio_brain_llm/api_cost.py:123-145 | a usage keeps the cap in every conserved state within it iff its charge fits its own reservation |
| BudgetLedger.HonestRunsStayWithinCap | src/niakvio_brain_llm/api_cost.py:109-145 | with usages inside the body-plus-1024 and output-limit estimate no interleaving exceeds the maximum |
| BudgetLedger.OverrunBreaksCap | src/niakvio_brain_llm/api_cost.py:123-145 | a concrete over-long answer that exceeds the maximum |
| BudgetLedger.SecondSettlementGoesUnnoticed | src/niakvio_brain_llm/api_cost.py:134-143 | exactly when settling a reservation twice passes the mismatch check |
| BudgetLedger.SecondSettlementHitsAnother | src/niakvio_brain_llm/api_cost.py:109-145 | two equal reservations and a double settlement of the first, for any model and usage: nothing is noticed, and the second worker's settlement raises the mismatch |
| GuidanceMerge.Merge | scripts/merge_niakvio_guidance_page.py:58-100 | the extend, dictionary and sort steps compute the specified merge |
| GuidanceMerge.MergeHolds | scripts/merge_niakvio_guidance_page.py:58-100 | a merge is sorted, has one row an identity, holds exactly the last candidate rows of refreshed providers and the last prior rows of the others, counts their providers, and takes the rest from the candidate |
| GuidanceMerge.SortedIsUnique | scripts/merge_niakvio_guidance_page.py:90-97 | the sort key makes the order a function of the rows |
| GuidanceMerge.MergeIsIdempotent | scripts/merge_niakvio_guidance_page.py:58-100 | merging the same candidate again changes nothing |
| GuidanceMerge.DisjointMergesCommute | scripts/merge_niakvio_guidance_page.py:58-100 | merges of one source with disjoint refreshed sets commute on rows |
| GuidanceMerge.UnrefreshedRowsStay | scripts/merge_niakvio_guidance_page.py:71-77 | providers outside the page keep exactly their prior rows, in order |
| GuidanceMerge.OtherSourceStartsAfresh | scripts/merge_niakvio_guidance_page.py:32-38 | another source or Brain drops all prior rows |
| GuidanceMerge.RunHoldsLastPages | scripts/merge_niakvio_guidance_page.py:58-100 | after any run of merges each provider's rows are those of the last page that refreshed it |
| GuidancePaging.Select | scripts/select_niakvio_guidance_page.py:37-100 | selects the specified page and state, or the SHA or empty-cohort error |
| GuidancePaging.OrderedIsAPermutation | scripts/select_niakvio_guidance_page.py:67-79 | prioritizing reorders what remains, drops nobody and puts priorities first |
| GuidancePaging.PageIsFirst | scripts/select_niakvio_guidance_page.py:67-80 | the page is, of the priorities and then of the cohort, the first providers of the cohort not served yet, each once, as many as asked for, one at least and twelve at most |
| GuidancePaging.CallStaysOnCourse | scripts/select_niakvio_guidance_page.py:50-99 | each page is non-empty and new to its cycle, completed and remaining split the cohort, the cycle rises by one exactly after completion |
| GuidancePaging.OtherRunStartsAfresh | scripts/select_niakvio_guidance_page.py:50-65 | a state of another schema, source, Brain or cohort counts for nothing |
| GuidancePaging.AnyStoreIsRepairedExactly | scripts/select_niakvio_guidance_page.py:50-99 | whatever state is stored for the cohort, one call puts the run on course again iff a cycle stored as complete has no negative number and one stored as open lacks a provider |
| GuidancePaging.PagingIsFair | scripts/select_niakvio_guidance_page.py:50-99 | over every run the pages of a finished cycle laid end to end are a permutation of the cohort |
| GuidancePaging.CyclesAreShort | scripts/select_niakvio_guidance_page.py:79-99 | a cycle takes at most one call per provider |
| GuidancePaging.FullCycleRefreshesCohort | scripts/merge_niakvio_guidance_page.py:58-100 | after a complete cycle each provider's merged rows are those of its page in that cycle |
| FamilyWave.Groups | src/niakvio_brain_llm/repair_family.py:294-310 | groups rows by family key or provider, the keys in order of first appearance |
| FamilyWave.GroupsAre | src/niakvio_brain_llm/repair_family.py:294-310 | rows of families go by their family, of the others those of one provider go together, and one without a provider stays alone |
| FamilyWave.FirstKeysAppear | src/niakvio_brain_llm/repair_family.py:294-310 | the keys are distinct and ordered by the first row of each group |
| FamilyWave.Representative | src/niakvio_brain_llm/repair_family.py:318-340 | skipping blocked siblings while a free one exists is one lexicographic minimum over all |
| FamilyWave.EvidenceAddsUp | src/niakvio_brain_llm/repair_family.py:228-257 | one more signal adds its worth, whatever else is there, and stages add one each up to three |
| FamilyWave.SelectFamilyWave | src/niakvio_brain_llm/repair_family.py:260-350 | selected and deferred are the chosen and the other rows, in input order |
| FamilyWave.SelectedAndDeferredPartition | src/niakvio_brain_llm/repair_family.py:342-349 | together they are the input |
| FamilyWave.OneRepresentative | src/niakvio_brain_llm/repair_family.py:313-340 | an unvalidated group has exactly one chosen row, blocked only when all are |
| FamilyWave.ChosenIsBest | src/niakvio_brain_llm/repair_family.py:318-340 | the chosen row of such a group is blocked least, then has the most evidence, then has failed least, then comes first |
| FamilyWave.ValidatedFansOut | src/niakvio_brain_llm/repair_family.py:313-340 | a wave takes all rows of a validated group and exactly one of any other |
| FamilyWave.WaveIsAsLargeAsItsFamilies | src/niakvio_brain_llm/repair_family.py:313-349 | the size of a wave is the sum of these counts over the groups that appear |
| FamilyWave.SiblingsTakeTurns | src/niakvio_brain_llm/repair_family.py:318-340 | tied siblings from equal burdens are charged in strict rotation over any number of waves |
| FamilyWave.RotationIsFair | src/niakvio_brain_llm/repair_family.py:318-340 | their burdens never differ by more than one, and whose turn it is follows from the wave number |
| EvidenceFields.LostRefsAreReported | src/niakvio_brain_llm/live_evidence.py:199-213 | address labels live only in a valid scope, project once, and a lost one raises the flag |
| EvidenceFields.MarkupAddressFields | src/niakvio_brain_llm/live_evidence.py:216-243 | the nested loops keep up to sixteen distinct valid labels an attribute and flag every loss |
| EvidenceLaws.RefsAreFirst | src/niakvio_brain_llm/live_evidence.py:227-242 | the well-formed labels of an attribute are kept, in order, each once, up to sixteen, and the loss is noted exactly when an entry is missing from them |
| EvidenceFields.MarkupSettles | src/niakvio_brain_llm/live_evidence.py:216-243 | a second pass keeps labels and flag |
| EvidenceFields.PlayerMarkup | src/niakvio_brain_llm/live_evidence.py:259-310 | the row loop projects the first eight rows and notes every lost label |
| EvidenceFields.MarkupProjectsOnce | src/niakvio_brain_llm/live_evidence.py:259-310 | projecting player markup twice changes nothing, its truncation flag included |
| EvidenceLaws.LossIsNotedExactly | src/niakvio_brain_llm/live_evidence.py:259-310 | player markup is marked exactly when it came marked or a row does not keep its labels: it has some and is not shown, reports a loss, or an entry is missing from what an attribute keeps |
| EvidenceFields.ResponseSettles | src/niakvio_brain_llm/live_evidence.py:313-394 | so for every kind of response structure |
| EvidenceFields.ObservationsSettle | src/niakvio_brain_llm/live_evidence.py:481-546 | so for HTTP, media and probe observations |
| EvidenceLaws.NamesAreFirst | src/niakvio_brain_llm/live_evidence.py:254-257 | of a list of names the valid ones are kept, in order, up to the limit |
| EvidenceLaws.WordsAreFirst | src/niakvio_brain_llm/live_evidence.py:349-364 | of the first eight words the known ones are kept, in order, each once |
| NetworkEvidence.SelectEvidence | src/niakvio_brain_llm/live_evidence.py:397-478 | the loops compute the specified window, ranking, cut and flags |
| NetworkEvidence.KeptIsAPermutation | src/niakvio_brain_llm/live_evidence.py:444-472 | ranking loses and duplicates no event |
| EvidenceLaws.OrderIsByClass | src/niakvio_brain_llm/live_evidence.py:444-472 | the ranking lists first the first event of each fixture and stage, then those with a control probe, new shapes before repeats, then the others likewise, each class as it came |
| EvidenceLaws.TraceIsKept | src/niakvio_brain_llm/live_evidence.py:397-473 | of the first twelve entries exactly the events are kept, in order or, if they are more than eight, ranked |
| NetworkEvidence.EventSettles | src/niakvio_brain_llm/live_evidence.py:399-433 | projecting an event twice changes nothing |
| EvidenceLaws.EventIsFixedExactly | src/niakvio_brain_llm/live_evidence.py:399-433 | what the projection of an event returns is well formed, and a well-formed event, and no other, comes out as it is |
| NetworkEvidence.EvidenceIsIdempotent | src/niakvio_brain_llm/live_evidence.py:397-478 | the projection applied to its own output returns it, labels, flags and order included |
| NetworkEvidence.RepeatsComeLast | src/niakvio_brain_llm/live_evidence.py:444-473 | a kept event repeats a fixture and stage only when every observed one is represented |
| NetworkEvidence.LossyScopesAreFlagged | src/niakvio_brain_llm/live_evidence.py:434-478 | a scope that lost an event, in the window or beyond, is flagged on all its kept events; other events are unchanged |
| EvidenceLaws.MarkedExactly | src/niakvio_brain_llm/live_evidence.py:434-478 | an event is marked exactly when one of its scope was left out, behind the twelfth entry or behind the eighth event |
| AdvisorExperiments.FailedFingerprints | src/niakvio_brain_llm/advisor_experiments.py:112-126 | collects the fingerprints of blocking history rows |
| AdvisorExperiments.NextAdvisorExperiment | src/niakvio_brain_llm/advisor_experiments.py:218-236 | returns the first candidate that is not blocked; the seen set changes nothing |
| AdvisorExperiments.OfferIsFirst | src/niakvio_brain_llm/advisor_experiments.py:218-236 | an offer is the first candidate that has not failed: all in front of it have, and the first of all is the default |
| AdvisorExperiments.ReserveAdvisorExperiment | scripts/plan_batch_from_checkout.py:71-100 | reserves a proposal unless there is none or it is blocked |
| AdvisorExperiments.RotationIsFresh | src/niakvio_brain_llm/advisor_experiments.py:151-236 | proposing and reserving yields distinct experiments, none already failed, all from a fixed pool whatever the history |
| AdvisorExperiments.RotationStops | src/niakvio_brain_llm/advisor_experiments.py:151-236 | at most twenty-eight of them for a strategy |
| AdvisorExperiments.RotationLasts | src/niakvio_brain_llm/advisor_experiments.py:194-236 | a strategy is not given up before two dozen experiments, all different, have failed or been tried |
| AdvisorExperiments.StoppingIsExhaustion | src/niakvio_brain_llm/advisor_experiments.py:218-236 | when nothing more is offered every candidate has failed or been tried |
| AdvisorExperiments.CollectRoles | scripts/publish_niakvio_guidance.py:50-55 | keeps each role once and refuses an unknown one |
| AdvisorExperiments.PublishedAsProposed | scripts/publish_niakvio_guidance.py:38-67 | the publisher leaves an experiment unchanged iff it is within the clamps with distinct roles |
| AdvisorExperiments.PublishedIsInBounds | scripts/publish_niakvio_guidance.py:38-67 | whatever is proposed, what is published is in bounds and would be published again as it is |
| AdvisorExperiments.RefusedExactly | scripts/publish_niakvio_guidance.py:38-67 | a proposal is refused exactly for a field of its own, a policy off the list or an unknown role |
| AdvisorExperiments.OfferIsPublishedUnchanged | scripts/publish_niakvio_guidance.py:38-67 | every experiment the generator offers is such a fixed point, so both sides agree on its identity |
| HostedWire.FlagIsExact | src/niakvio_brain_llm/schema.py:7-42 | the pass reports encoding iff an eligible node is within reach |
| HostedWire.NothingLeft | src/niakvio_brain_llm/schema.py:18-41 | afterwards no eligible node is within reach |
| HostedWire.EligibleNodeIsClosed | src/niakvio_brain_llm/schema.py:24-30 | an eligible node trades its open value for bounded text, keeps its other properties and requires all it has |
| HostedWire.NodeIsRewritten | src/niakvio_brain_llm/schema.py:18-41 | every key of a node stays in its place with what the pass makes of its value: a node under a node key, every node of a list in order and of an object under its key are rewritten, anything else stays |
| HostedWire.SchemaPassIsIdempotent | src/niakvio_brain_llm/schema.py:7-42 | exact flag, unchanged schema when nothing is eligible, and a second pass finds nothing |
| HostedWire.RoundTrip | src/niakvio_brain_llm/schema.py:45-70 | restoring the encoding of a local response returns it iff every encoded value fits the wire field, and refuses it otherwise |
| HostedWire.ValueLastReordersOnly | src/niakvio_brain_llm/schema.py:62-69 | what comes back differs at most in where a mutation lists its value |
| HostedWire.RestoredIsLocal | src/niakvio_brain_llm/schema.py:45-70 | whatever is restored meets the local contract: deletions without value, others with one, no wire field |
| HostedWire.DataIsRestoredExactly | src/niakvio_brain_llm/schema.py:53-69 | a data mutation is refused for a missing, long or doubled text, for a text that does not load, and for a deletion with data; otherwise it gets its data as value unless it deletes, and every other field stays |
| HostedWire.RestoredExactly | src/niakvio_brain_llm/schema.py:45-70 | a response is refused exactly for an unacceptable data mutation somewhere in it |
| HostedWire.PartsAreRestored | src/niakvio_brain_llm/schema.py:49-52 | every item of a list and every field of an object that is no data mutation is restored in its place |
| EmittedTraversals.FrontierIsABijection | src/niakvio_brain_llm/planner.py:2502-2505 | the emitted index is a bijection on the list, with its inverse |
| EmittedTraversals.CappedFrontierIsFair | src/niakvio_brain_llm/planner.py:2502-2505 | a capped loop visits distinct sources, alternating from both ends |
| EmittedTraversals.StratifiedSlice | src/niakvio_brain_llm/planner.py:1899-1910 | the emitted loops compute the stratified list |
| EmittedTraversals.StratifiedIsFirst | src/niakvio_brain_llm/planner.py:1899-1910 | the list is the first entry of each height, up to the target, and then the first of the other entries, as many as are missing |
| EmittedTraversals.StratifiedHolds | src/niakvio_brain_llm/planner.py:1899-1910 | at most the target number of distinct entries, as many as there are, showing every height iff there are no more heights than the target |
| EmittedTraversals.ObservedHeightsAreRepresented | src/niakvio_brain_llm/planner.py:1854-1910 | with at most sixteen observed heights each one found is represented |
| Retrieval.CountTokens | src/niakvio_brain_llm/retrieval.py:14-16 | counts every token as often as it occurs |
| Retrieval.CauchySchwarz | src/niakvio_brain_llm/retrieval.py:18-23 | the squared dot product is at most the product of the squared norms |
| Retrieval.CosineIsInUnit | src/niakvio_brain_llm/retrieval.py:18-23 | the cosine of any two token counts lies between zero and one |
| Retrieval.CosineExtremes | src/niakvio_brain_llm/retrieval.py:18-23 | equal wording scores one, and zero means no shared token |
| Retrieval.Jaccard | src/niakvio_brain_llm/retrieval.py:33-34 | lies between zero and one, zero iff disjoint, one iff equal and not empty |
| Retrieval.FieldScore | src/niakvio_brain_llm/retrieval.py:36-76 | the structural score lies between 0 and 1.85 |
| Retrieval.FamilyWeighs | src/niakvio_brain_llm/retrieval.py:51-56 | a family counts 0.60, 0.30 more than an archetype, and a validated one 0.25 more still, whatever the other fields say |
| Retrieval.FailureWeighs | src/niakvio_brain_llm/retrieval.py:42-43 | a shared failure class is worth 0.45 on its own |
| Retrieval.SymptomsWeigh | src/niakvio_brain_llm/retrieval.py:58-61 | equal symptoms are worth 0.20 on their own |
| Retrieval.SignalsWeigh | src/niakvio_brain_llm/retrieval.py:62-65 | equal signals are worth 0.15 on their own |
| Retrieval.TypesWeigh | src/niakvio_brain_llm/retrieval.py:66-69 | equal types are worth 0.08 on their own |
| Retrieval.ProviderWeighs | src/niakvio_brain_llm/retrieval.py:71-74 | the provider is worth 0.12 on its own |
| Retrieval.NothingWeighsNothing | src/niakvio_brain_llm/retrieval.py:36-76 | a row without structure scores nothing, whatever its words |
| Retrieval.StructureDominates | src/niakvio_brain_llm/retrieval.py:126-131 | with scores and cosines free, wording can overturn a structural gap iff the gap is below 0.18 |
| Retrieval.WordingOverturnsStructure | src/niakvio_brain_llm/retrieval.py:122-141 | a concrete query and two rows with their token counts and cosines: the search puts the structurally lower row first |
| Retrieval.SameFailureAndFamilyComeFirst | src/niakvio_brain_llm/retrieval.py:36-76 | a row of the query's failure and family ranks above any row sharing neither, whatever else they share |
| Retrieval.Search | src/niakvio_brain_llm/retrieval.py:122-141 | scores, ranks stably, cuts and keeps positive scores |
| Retrieval.FoundPlaces | src/niakvio_brain_llm/retrieval.py:122-141 | the search finds, in order, ties as they are listed, the best rows with a positive score, and as many as the limit admits |
| Retrieval.RankingRespectsStructure | src/niakvio_brain_llm/retrieval.py:125-131 | no row ranks behind one whose structure is lower by 0.18 or more |
| Retrieval.FoundIsBest | src/niakvio_brain_llm/retrieval.py:131-141 | the rows found are in order, within the limit, positive, and no better row is left out |

## Left out

- AnchorCompiler.ResolveStructuredAnchor: the semantic guards (identity, partial function, removed live binding, empty deletion) are arbitrary predicates, because they are pattern matches over JavaScript text.
- EditUnits.SelectRows: rankings, role scores and name filters are input lists, because they rest on regular expressions; the proofs hold for every such list drawn from the collected rows.
- EditUnits.CollectRows: the statement scanner and the function pattern that propose spans are inputs; only what happens to the spans is modelled.
- EditUnits.FindCallees: names and callbacks a function refers to are an input function; the scores that order the callees are not modelled.
- SourceWindows.ForceSourceWindows: keywords are an input; of the table by failure class only the row for unlisted classes appears, in the examples.
- SourceWindows.KeywordPositions: case folding is given as a second text; positions of `function:` keywords are given, because they come from a regular expression.
- ForcePortfolio.PlanPortfolio: routing, priors and prompts are not modelled; a model call is an oracle that answers with an edit, an abstention, a validation error or a transport error and takes any time.
- ForceMemory.AgreementIsExact: for `provider_bloc` with at most `provider_patch` beside it, or all `provider_patch` with known digests; for lists of other scopes the planner has no context and never blocks, while the publisher may. The publisher's cut of a candidate to eight mutations is not part of this model, and what is left of a fingerprint behind blanks is identified with the fingerprint and the number of blanks.
- BudgetLedger.CostIsMonotone: rates are exact reals; the rounding of a Decimal context is not modelled.
- BudgetLedger.Budget.Reserve: file locking, the JSON file and its validation are one atomic step on valid state.
- GuidanceMerge.Merge: rows that are no objects are skipped by the code before anything else and do not appear; deep copies are values.
- GuidancePaging.Select: trimming and case folding of ids and SHAs happen before the model.
- FamilyWave.RotationIsFair: how a wave's outcome becomes a burden is outside this code; each wave is taken to add one to its representative.
- NetworkEvidence.SelectEvidence: the identifier patterns are arbitrary predicates and lower-casing covers ASCII letters.
- EvidenceFields.ObservationsSettle: the fixture and feedback projections beside the network trace are left out; they would only add easy members.
- AdvisorExperiments.NextAdvisorExperiment: the issue text arrives case-folded and a ledger fingerprint is either an experiment or foreign text.
- HostedWire.SchemaPassIsIdempotent: the pass is a function of the schema, so updating a deep copy in place is not visible; schemas whose `scope`, `anyOf` or `$defs` has the wrong JSON type make the code raise and are ignored here.
- HostedWire.RoundTrip: the JSON text codec is any pair where loading undoes dumping; nesting beyond the interpreter's recursion limit and non-finite numbers are refused by the code and not modelled.
- EmittedTraversals.StratifiedSlice: the quality pattern is an arbitrary function from entries to heights.
- Retrieval.Search: rounding of reported scores is not modelled, and each row's cosine is an input, related to the counters by the squared equation.
- HTTP and llama.cpp backends, prompts, telemetry, file loading, git, `fsync`, `node --check` and Python parsing are foreign calls and are not part of this model.
- The prior, policy and routing decision tables, the window-size table of `_force_window_kwargs_for_request` and the privacy and import tools would only add easy members.
- Full JavaScript lexing is not modelled: what is proved is what the scanner's own modes cover, and its choice between regular expression and division is an approximation.
