# Excel Bro: verification model

Excel Bro turns a request into a whitelisted plan, runs it on a spreadsheet and keeps enough
state to recover. This project models the parts of the server whose correctness does not rest
on a foreign library, and proves what they promise for every input, every run and every
reachable state.

| module | what it models |
|---|---|
| `A1Notation`, `A1Grammar` | column letters, cell and range addresses: the printers, the parsers, their inverses, and the grammar of what is accepted |
| `MappingCells` | what one cell of a mapped column means, and how a whole region is mapped or refused |
| `MappingSplit`, `MappingMeaning` | the compiler from an outcome matrix to write and clear actions: run decomposition, minimality, meaning on a sheet |
| `ColumnMapping`, `MappingLaws` | the whole build: shape, mapping and split, answered against the request; and what it leaves in each cell, word by word |
| `SnapshotRegion` | the lenient and the strict read of a workbook snapshot |
| `PlanningLoop`, `PlanningHistory`, `PlanningResume` | turns, tool batches, saved boundaries, crashes anywhere, resumption; the state read off the history of a run; and the check a dialogue passes before a run resumes |
| `AtomicFile`, `RecoveryStore`, `RecoveryLaws`, `RecoveryCodec` | crash-atomic replacement, and the package store: deadlines, quota, clean-up, and what its answers say about the bytes on disk |
| `ResultRegistry` | the local result registry: two indexes, lifetimes, a cap, authorization revisions |
| `FormatCriteria`, `FormatLaws`, `PlanValidation` | derived acceptance criteria, their truth after the server's executor has run the plan, capped warnings, re-validation |
| `SeccompFilter` | the socket filter builder and an interpreter for the filters it builds |
| `SchemaInlining` | the two JSON-schema inliners |
| `FolderMutex` | the two-level folder write lock |
| `FaultArming` | the two one-shot faults and the list of recently seen targets |
| `LoopProtection` | path-loop and repeated-query detection, and the checkpoint of its state |
| `Wrappers`, `Counting` | optional values, results, and finite-set counting used by the proofs |

Code that changes state step by step is a class or a loop proved against a specification
function, and the promises are proved of that function. A crash, a failing file operation, a
model answer, a fresh handle and a clock reading are arbitrary arguments of the steps.

## Where the code does not keep the simple statement

Each of these is stated as an exact condition and, where one is needed, a concrete failing
family.

- **Folder lock.** The lock directory is created after the thread lock is taken and before the
  `try` (`server/app/folder_mutex.py:71-77`). When that fails, the thread lock is never released:
  `FolderMutex.Locks.FolderWriteGuard` says exactly which exits keep the locks they found,
  `FolderMutex.LeakIsPermanent` that such a lock stays until its process ends, and
  `FolderMutex.NextAttemptEntersUnlessLeaked` that it is the only thing that stops the next attempt
  besides a file lock that could not be unlocked.
- **Cycle-safe inliner.** A definition that is itself a bare reference string is copied under the
  caller's `$ref` key and becomes a dangling reference. The output is free of references for every schema over a
  table exactly when no definition is such a string (`SchemaInlining.SafeOutputExactlyWhenNoBareRefs`).
- **Derived format criteria.** Equal or disjoint ranges are enough for fills, fonts, number formats,
  alignments and borders, because the server's executor keeps all of these per cell
  (`server/app/folder_workbooks.py:5302-5347`). They are not enough for sizes: a height belongs to a whole
  row and a width to a whole column (`server/app/folder_workbooks.py:5352-5359`), so a height set for A1 and then
  another for B1 make the first criterion false (`FormatCriteria.NeighboursCollide`). In a plan of equal or
  disjoint ranges a criterion holds exactly when no later action ends up sizing one of its rows or columns
  otherwise (`FormatCriteria.DisjointPlansFailOnlyBySizes`).
- **Recovery deadline.** The deadline survives clean-up only because the caller passes the
  registered one back. A caller that never registers one gets a second, later deadline after the first package
  was cleaned up (`RecoveryStore.UnregisteredDeadlineRenews`).
- **Recovery quota.** The quota check counts the incoming body, not its header line, so the total can
  pass the configured size: a body of just that size is saved into an empty store
  (`RecoveryStore.HeaderPassesTheQuota`, with a complete run in `RecoveryCodec.QuotaIsPassed`). It never passes it by
  more than one header line and its newline (`RecoveryStore.RunKeepsQuota`).
- **Resuming a planning run.** A resumed run judges the stop condition again and refuses a dialogue
  whose tool receipts it cannot attribute, so it reaches the saved batch exactly when neither happens. It reaches it
  with the saved dialogue exactly when no notice is given; on the warning turn with a warning to give,
  the notice is appended a second time (`server/app/excel_agent.py:2654-2659`,
  `PlanningLoop.ResumeContinuesTheBatch`). A model that leaves out a call id makes its
  own checkpoint refused (`PlanningLoop.ResumeAcceptsExactly`).
- **Submitted criteria.** Re-deriving after dropping the criteria gives the plan back exactly when the
  submitted criteria were the first derived ones (`PlanValidation.DroppedCriteriaComeBack`).
- **Registry index.** A task is listed before its result's digest is taken
  (`server/app/local_results.py:284-294`). When the digest cannot be taken, a task without results stays
  listed with none. `ResultRegistry.LocalResultRegistry.Register` says that this is the only way such an entry arises,
  and every other operation says which of them it removes.
- **Registry revision guard.** A result registered under a claim is dropped whenever the claim changes,
  so the revision comparison on resolution never decides anything; `Backed` in the invariant of
  `ResultRegistry.LocalResultRegistry` says so for every reachable state.

## Model

| member | source | states |
|---|---|---|
| A1Notation.ColumnNumber | server/app/models.py:1118-1122 | the loop computes the base-26 value whose inverse is the column text |
| A1Notation.ColumnLetter | server/app/column_mapping.py:510-518 | on every index from 1 it prints the column text; below 1 it prints a single letter, as the loop does |
| A1Notation.ColumnName | server/app/models.py:1125-1130 | prints the same text as the other printer on every positive number |
| A1Notation.ColumnValueOfText | server/app/excel_agent.py:262-274 | reading a printed column gives back its number |
| A1Notation.ColumnTextOfValue | server/app/excel_agent.py:262-274 | printing the value of any letters gives the letters back in upper case |
| A1Notation.BoxTextRoundTrip | server/app/column_mapping.py:177-188 | a printed range parses to its own box, and to the reversed-range error exactly when its corners are reversed |
| A1Notation.MatrixRangeDimensions | server/app/models.py:1133-1157 | for every parsable start cell the range printed for r rows and c columns has dimensions (r, c) when both are at least 1, and does not parse otherwise |
| A1Grammar.ParsesExactly | server/app/column_mapping.py:177-188 | a text has a rectangle exactly when, trimmed, it is one or two cell references, with or without dollar signs, whose corners are in order; it is reversed exactly when they are not, and any other text does not parse |
| A1Grammar.MatrixRangeIsTheBlock | server/app/models.py:1133-1141 | the printed range starts at the start cell and spans the requested rows and columns |
| A1Grammar.MatrixRangeNeedsACell | server/app/models.py:1133-1141 | a range is printed exactly when the start is one cell reference |
| MappingCells.SplitJoins | server/app/column_mapping.py:384-385 | splitting at a delimiter loses nothing: joining gives the text back, and no piece still holds the delimiter |
| MappingCells.ChooseDelimiter | server/app/column_mapping.py:350-358 | the loop picks the delimiter whose first occurrence is earliest, the first listed on a tie, and none exactly when none occurs |
| MappingCells.CompareRankIsTotalOrder | server/app/column_mapping.py:437-455 | on declared categories the comparison is antisymmetric, transitive and zero only on equal values |
| MappingCells.WinnerIsTop | server/app/column_mapping.py:419-434 | the winner is one of the items and no item outranks it |
| MappingCells.WinnerIgnoresOrder | server/app/column_mapping.py:419-434 | two lists with the same members have the same winner, whatever their order and repetitions, and it is the only top item |
| MappingCells.PickHighestRank | server/app/column_mapping.py:419-434 | the loop returns that winner |
| MappingLaws.PrioritiesExactly | server/app/column_mapping.py:437-455 | a category has priority over another exactly with the higher rank, with a rank where the other has none, or with the same standing and the earlier declaration |
| MappingLaws.WinnerHasPriority | server/app/column_mapping.py:419-434 | the winner is the item with priority over every other item |
| MappingLaws.DelimitersExactly | server/app/column_mapping.py:350-358 | the delimiter split on is the declared one that occurs first in the text, the first declared at that place, and there is none exactly when none occurs |
| MappingCells.LandsExactlyWhenResolvable | server/app/column_mapping.py:315-407 | a cell gets an outcome exactly when it is blank under a known policy, matches whole, or splits at its earliest delimiter into declared categories only |
| MappingCells.JudgeIsTheMeaning | server/app/column_mapping.py:315-407 | the branch-by-branch decision agrees, in both directions, with a meaning without scan order that spells out each blank policy: which outcome, which gap, which failure |
| MappingCells.MapCell | server/app/column_mapping.py:315-407 | the cell body, branch by branch, computes that decision |
| MappingCells.FirstSeenReportsEachOnce | server/app/column_mapping.py:343-401 | the reported gaps are the first occurrences, in order, of every distinct key and nothing else |
| MappingCells.RecordGaps | server/app/column_mapping.py:396-401 | the list and the seen set together record exactly the first occurrences |
| MappingCells.RecordVerdict | server/app/column_mapping.py:343-401 | recording one more verdict keeps both logs equal to the first occurrences among the visited cells |
| MappingCells.MapColumnCells | server/app/column_mapping.py:249-416 | the nested loop returns the specified result: values and outcomes, or every gap once with unresolved cells before missing categories, or the policy failure |
| MappingCells.MappingSucceedsExactlyWhenResolvable | server/app/column_mapping.py:249-416 | a region maps exactly when every cell is resolvable |
| MappingSplit.UniformStaysInRun | server/app/column_mapping.py:594-603 | a one-kind segment that meets the start of a maximal run begins there and stays inside it |
| MappingSplit.RunDecompositionIsMinimal | server/app/column_mapping.py:557-607 | no cover of the non-skip cells by one-column, one-kind segments has fewer segments than the run decomposition |
| MappingSplit.CloseRun | server/app/column_mapping.py:563-603 | closing a run where the kind changes appends a maximal run and keeps the scanned part exactly covered |
| MappingSplit.Flush | server/app/column_mapping.py:563-592 | flushing appends the one action of the closed run and nothing when no run is open |
| MappingSplit.ScanColumn | server/app/column_mapping.py:594-603 | scanning a column adds exactly its maximal runs, in order, rendered as actions |
| MappingSplit.SplitTargetActions | server/app/column_mapping.py:521-607 | one block write when nothing is skipped; otherwise the run decomposition rendered as actions, or the limit error with its exact size |
| MappingMeaning.RunOfAgreeing | server/app/column_mapping.py:521-607 | actions that agree on a cell leave the agreed content there in any order, and an untouched cell as it was |
| MappingMeaning.SegmentActionMeaning | server/app/column_mapping.py:563-592 | the action of a segment touches exactly its cells and puts there what the outcome says |
| MappingMeaning.SplitMeansOutcomes | server/app/column_mapping.py:521-607 | in any order, on any sheet: write cells get their value, clear cells are emptied, skip cells and all other cells keep their content |
| MappingMeaning.SplitRangesPartition | server/app/column_mapping.py:557-607 | the action ranges are pairwise disjoint and their union is exactly the non-skip cells |
| MappingMeaning.BlockMeansOutcomes | server/app/column_mapping.py:544-555 | the single block write has the same meaning and the same partition |
| ColumnMapping.ValidateShape | server/app/column_mapping.py:458-507 | accepts two ranges of equal size that share no cell on one sheet and returns their boxes; each refusal says what is wrong: a blank sheet name, a range that does not parse, unequal sizes, or a shared cell |
| ColumnMapping.LimitIsAboutEveryCover | server/app/column_mapping.py:605-607 | the run count exceeds the limit exactly when every cover of the non-skip cells does |
| ColumnMapping.SourceIsSafe | server/app/column_mapping.py:610-671 | delivered actions in any order change no source cell |
| ColumnMapping.DeliveredCell | server/app/column_mapping.py:610-671 | running the built actions in any order gives the target of each source cell the outcome that cell means |
| ColumnMapping.BuildColumnMappingActions | server/app/column_mapping.py:610-671 | the build returns the preparation error, or actions that deliver with the least possible number of them, or the limit error exactly when every cover exceeds the limit, carrying the least number |
| MappingLaws.ExactCellsLand | server/app/column_mapping.py:315-319 | built actions in any order give a cell whose very text is a category that category's label |
| MappingLaws.BlankCellsLand | server/app/column_mapping.py:153-164 | for a blank cell that is no category, in any order of the actions: keep leaves the target's content, clear empties it, a value fills it in, and no build succeeds while the policy is undecided or unknown |
| MappingLaws.WholeCellsLand | server/app/column_mapping.py:338-381 | any other cell holding no declared delimiter is a category as a whole in every successful build, and gets its label |
| MappingLaws.SplitCellsLand | server/app/column_mapping.py:383-407 | a cell split at its first delimiter has items, all of them categories, and gets the label of the one with priority |
| MappingLaws.NothingElseChanges | server/app/column_mapping.py:610-671 | every cell outside the target block, on any sheet, keeps its content |
| MappingLaws.BlankPolicyIsAskedFor | server/app/column_mapping.py:655-662 | the build asks for a policy only while none is decided and with the exact number of blank cells, and never succeeds over blank cells without one |
| MappingLaws.LimitsAreKept | server/app/column_mapping.py:539-607 | a build that splits its block stays within the request's limit, sixty-four when none is given, and a refusal names it |
| SnapshotRegion.ReadRange | server/app/excel_agent.py:318-361 | the lenient loop returns the requested matrix, with nothing where the snapshot has no value |
| SnapshotRegion.StrictRowAgrees | server/app/excel_agent.py:405-443 | on a captured row the strict slice and padding equal the lenient row |
| SnapshotRegion.ReadRegion | server/app/excel_agent.py:364-443 | the strict read succeeds exactly when rows and columns lie in the capture, then equals the lenient read; otherwise it names the first side that is outside |
| SnapshotRegion.EmptyMeansStoredOrTrimmed | server/app/excel_agent.py:405-443 | in an accepted region a missing value stands only for a stored missing value or the end of a short captured row |
| SnapshotRegion.OriginIsTheFirstCell | server/app/excel_agent.py:277-284 | the capture starts at the column and row of the first cell after the sheet prefix of the used range, and at A1 when there is none to read |
| SnapshotRegion.OriginOfCorners | server/app/excel_agent.py:277-284 | for every printed used range, with any sheet prefix or none, that is the column and row of its first corner |
| SnapshotRegion.RequestExactly | server/app/excel_agent.py:383-400 | the requested rectangle is the one the address spells, refused exactly when a column has more than three letters, the corners are out of order, or a limit is passed |
| SnapshotRegion.MatrixHoldsTheCapture | server/app/excel_agent.py:336-361 | both readers return the header row at the capture's first row and the data rows below it, counted from its first column, and nothing elsewhere |
| SnapshotRegion.CaptureBounds | server/app/excel_agent.py:402-430 | the strict read accepts exactly the rectangles inside the captured rows and declared columns counted from there |
| PlanningLoop.NotifyKeepsPairing | server/app/excel_agent.py:2256-2273 | appending a notice to the last user message keeps every call paired with its receipt |
| PlanningLoop.ShapeStep | server/app/excel_agent.py:2625-3186 | every step keeps checkpoint and process dialogues well-formed: complete batches, and at most the tail open |
| PlanningLoop.LinkStep | server/app/excel_agent.py:2527-2553 | every step keeps the process ahead of the last checkpoint and records what it saves |
| PlanningLoop.HistoryStep | server/app/excel_agent.py:2527-2553 | the saved checkpoints stay a chain in which each follows the one before |
| PlanningLoop.AccountedStep | server/app/excel_agent.py:2882-3186 | every step keeps each saved position justified by the tool runs logged before it |
| PlanningLoop.ReachableIsInvariant | server/app/excel_agent.py:2625-3206 | every run of steps, with crashes anywhere, keeps all of these |
| PlanningLoop.SavedDialoguesArePaired | server/app/excel_agent.py:2834-3160 | in every checkpoint ever saved each assistant call is answered by one receipt per call in call order; only the tail may be an open prefix of the pending batch, of the saved length |
| PlanningLoop.NoSavedToolRunsAgain | server/app/excel_agent.py:2879-3170 | no tool whose completion was saved runs again, over crashes and resumptions |
| PlanningLoop.NoToolIsSkipped | server/app/excel_agent.py:2879-3186 | every saved position was reached by running every tool before it, and a saved batch end by running the whole batch |
| PlanningLoop.SavedStateOnlyAdvances | server/app/excel_agent.py:2527-2553 | between saves the tool set only narrows, the turn never goes back, and within a turn the pending response is kept and the position advances |
| PlanningLoop.AtMostMaxTurnsResponses | server/app/excel_agent.py:2626-2744 | over a whole run at most the maximum number of turns many responses are saved, each turn having one |
| PlanningLoop.ResumeAcceptsExactly | server/app/excel_agent.py:1813-1919 | a saved dialogue is accepted on resume exactly when no id serves two tool names and every answered call can be found by its receipt's id |
| PlanningLoop.ResumeContinuesTheBatch | server/app/excel_agent.py:2654-2744 | crashing after a saved tool and resuming reaches the same batch without running a tool, exactly when the dialogue is attributable and the stop condition does not hold; the dialogue is the saved one exactly unless the warning notice is appended again |
| PlanningHistory.HistoryTellsTheState | server/app/excel_agent.py:2625-3186 | over every run, with crashes rolling the history back to the last save, the dialogue, tool set, error and token counts, turn, batch index and batch flags are those of the history, and so are the checkpoint's |
| PlanningHistory.StopsExactlyAtTheLimits | server/app/agent_loop_protection.py:167-195 | at the head of a turn a run is stopped exactly when the failed tools and refused texts since the last success reach their limit, or the tokens heard theirs, and otherwise goes on |
| PlanningHistory.OnlyFailuresInARowStop | server/app/agent_loop_protection.py:183-189 | without a token limit a run is stopped only after the allowed number of failures with no successful tool among or after them |
| PlanningHistory.StepsExactly | server/app/excel_agent.py:2625-3186 | in every reachable state just the listed steps can be taken: which responses are accepted, refused, given up or dispatched, and when a batch runs or ends |
| PlanningHistory.ResponseIsKept | server/app/excel_agent.py:2678-2744 | an answer is taken up as it is, or without its calls if it was cut, and is the one under way and saved until its turn ends |
| PlanningHistory.EndsExactly | server/app/excel_agent.py:2746-2790 | which steps end a run, take it down or refuse it, and that only saving steps change the checkpoint |
| PlanningResume.BuildAssociation | server/app/excel_agent.py:1813-1853 | the loop over all calls records exactly their ids and names, or finds an id with two names |
| PlanningResume.ResumeCheck | server/app/excel_agent.py:1868-1919 | the check passes exactly the attributable dialogues |
| AtomicFile.FilePair.WriteTemporary | server/app/execution_recovery.py:148-158 | while the temporary file is written the target keeps its content at every moment |
| AtomicFile.FilePair.AtomicWrite | server/app/execution_recovery.py:144-176 | at every moment the target holds its previous content or the whole new payload; it holds the new one on return exactly when the write is reported done, and that is when some attempt replaces after denied ones only |
| RecoveryStore.DecodeOfPayload | server/app/execution_recovery.py:179-194 | decoding what was written returns exactly its header and body |
| RecoveryStore.ReadHeaderOfPayload | server/app/execution_recovery.py:197-206 | the clean-up read finds the header exactly when it fits the read |
| RecoveryStore.PruneSparesExactly | server/app/execution_recovery.py:245-288 | an unexpired package is spared exactly when its header fits the read or its folder is young |
| RecoveryStore.StepKeepsDeadline | server/app/execution_recovery.py:321-439 | no operation changes the deadline in force, and material is handed out only before it |
| RecoveryStore.DeadlineIsNeverExtended | server/app/execution_recovery.py:321-439 | over any run that passes the registered deadline back, with clean-ups and removals in between, all material carries it and none is handed out once it is reached |
| RecoveryStore.UnregisteredDeadlineRenews | server/app/execution_recovery.py:375-379 | without a registered deadline, saving again after clean-up starts a later one |
| RecoveryStore.StepKeepsSaved | server/app/execution_recovery.py:245-402 | no operation but its own removal changes an unexpired saved package |
| RecoveryStore.SavedStaysIdentical | server/app/execution_recovery.py:245-439 | over any run before its deadline a saved package stays byte-identical through clean-ups and rejected saves |
| RecoveryStore.SaveThenLoad | server/app/execution_recovery.py:321-439 | a saved package loads and saves again as the same material until its deadline, and both say expired from then on |
| RecoveryStore.TotalWithout | server/app/execution_recovery.py:291-302 | the total is the removed package's size plus the total of the rest |
| RecoveryStore.StepKeepsQuota | server/app/execution_recovery.py:316-402 | every operation keeps the count within its limit and the bytes within theirs plus one header line |
| RecoveryStore.RunKeepsQuota | server/app/execution_recovery.py:316-402 | so does every run |
| RecoveryStore.HeaderPassesTheQuota | server/app/execution_recovery.py:381-401 | a body of exactly the configured total is saved into an empty store, and the total then passes it |
| RecoveryStore.LoadsExactlyWhatStands | server/app/execution_recovery.py:405-439 | of a written file loading returns the package exactly when header, digest, size, operation, deadline and package are in order, and whatever it returns stands in the file behind a header line that vouches for it |
| RecoveryLaws.DecodeExactly | server/app/execution_recovery.py:179-194 | a file reads as a package exactly when it is a header line, a newline and that package, and the header is current and has its digest and size |
| RecoveryLaws.SaveHandsOutWhatStands | server/app/execution_recovery.py:321-402 | from every directory a save hands out its own bytes, and only when just these stand in the operation's file behind the returned header, before the deadline |
| RecoveryLaws.SaveOverAFile | server/app/execution_recovery.py:353-373 | saving onto an operation that has a file changes nothing; other bytes are a conflict, the same bytes their own material until they expire, and a file in which nothing stands is corrupt |
| RecoveryLaws.FirstSaveExactly | server/app/execution_recovery.py:375-402 | when a first save is refused as expired, beyond the calendar or over quota, when it fails to persist, and otherwise the header and the file it leaves |
| RecoveryLaws.IllFormedSave | server/app/execution_recovery.py:338-351 | a request with a bad identifier, an invalid or foreign package, too many bytes or an unreadable deadline changes nothing and is answered as such |
| RecoveryLaws.LoadExactly | server/app/execution_recovery.py:405-439 | every refusal of a load has its exact condition on the bytes on disk |
| RecoveryLaws.HeaderReadExactly | server/app/execution_recovery.py:197-206 | clean-up reads the header in the first line of the file, cut at the reading limit |
| RecoveryLaws.CleanUpExactly | server/app/execution_recovery.py:257-282 | a folder is taken exactly when its readable deadline has come, or no header is readable and it is a retention old |
| RecoveryLaws.PrunedExactly | server/app/execution_recovery.py:259-288 | a clean-up removes just the folders it takes whose removal works, and leaves all others |
| RecoveryLaws.IdentifiersExactly | server/app/execution_recovery.py:43-43 | which identifiers are valid, a trailing line break included |
| RecoveryStore.Store.Usage | server/app/execution_recovery.py:291-302 | the loop returns the number of packages and their total bytes |
| RecoveryStore.Store.PruneExpired | server/app/execution_recovery.py:245-288 | visiting the folders in any order removes exactly those to be cleaned whose removal works, and counts exactly the removed, the failed and those with an unreadable deadline |
| RecoveryStore.Store.Save | server/app/execution_recovery.py:321-402 | the directory and the reply after a save are the specified ones, error branches included |
| RecoveryStore.Store.Remove | server/app/execution_recovery.py:467-486 | removal deletes the folder, or reports what a failing deletion left |
| ResultRegistry.HandlesOfMinus | server/app/local_results.py:363-371 | discarding commutes with listing a task's handles |
| ResultRegistry.MinusTwice | server/app/local_results.py:363-380 | two removals are one removal of the union |
| ResultRegistry.IndexAfterRemoval | server/app/local_results.py:363-380 | removing one task's handles keeps the two indexes mutually inverse |
| ResultRegistry.IndexAfterAppend | server/app/local_results.py:300-314 | registering keeps the two indexes mutually inverse |
| ResultRegistry.RetainedInTwoSteps | server/app/local_results.py:250-266 | dropping expired results and then the results of expired claims is one removal |
| ResultRegistry.OrphanStep | server/app/local_results.py:256-262 | visiting one more expired claim removes exactly its task's remaining results |
| ResultRegistry.NoResultOutlivesItsClaim | server/app/local_results.py:250-266 | after a prune no result remains of a claim that expired, and a live claim is unchanged |
| ResultRegistry.BackedAppend | server/app/local_results.py:281-314 | a result registered now is backed by the claim in force |
| ResultRegistry.BackedElsewhere | server/app/local_results.py:190-220 | changing one task's claim keeps all results backed when that task's results carry no revision |
| ResultRegistry.StaleStep | server/app/local_results.py:388-397 | visiting one handle discards it exactly when its source differs |
| ResultRegistry.LocalResultRegistry.Bind | server/app/local_results.py:164-220 | the claim carries the given host, workbook name, key and identity, or the name behind `name:` when none is given; the same four keep claim and results, any other raises the revision, drops the task's results and re-prunes |
| ResultRegistry.LocalResultRegistry.Claim | server/app/local_results.py:222-225 | returns the task's claim after pruning |
| ResultRegistry.LocalResultRegistry.Prune | server/app/local_results.py:246-272 | keeps exactly the newest unexpired results of live claims, at most the cap |
| ResultRegistry.LocalResultRegistry.Register | server/app/local_results.py:274-314 | each refusal has its exact condition: a bad matrix, else a full task, else a digest that cannot be taken; a refusal changes nothing but pruning, except that the last leaves a task without results listed; otherwise appends a result carrying the revision of the claim in force |
| ResultRegistry.LocalResultRegistry.Resolve | server/app/local_results.py:316-334 | finds exactly the retained result of that task and handle; a result registered under a claim is resolved only while that very claim is in force and both are within their lifetime |
| ResultRegistry.LocalResultRegistry.ResolveOwned | server/app/local_results.py:336-357 | returns a result exactly when the claim in force has the caller's host, workbook name and identity and the result is retained at the second clock reading; the claim is then still the one it was registered under |
| ResultRegistry.ResolveAfterBind | server/app/local_results.py:350-357 | after a bind no caller with another host, another workbook name or another identity gets a result of the task |
| ResultRegistry.RetainedExactly | server/app/local_results.py:250-272 | a prune keeps the results within their own and their claim's lifetime, in their order, and of these the last ones up to the cap |
| ResultRegistry.ValidateMatrix | server/app/local_results.py:119-148 | the cell-by-cell check accepts exactly the matrices within the row, column, cell and text limits whose rows have the headers' width and whose floats are finite |
| ResultRegistry.LocalResultRegistry.Discard | server/app/local_results.py:359-371 | removes exactly that handle from both indexes |
| ResultRegistry.LocalResultRegistry.DiscardTask | server/app/local_results.py:373-380 | removes exactly that task's results |
| ResultRegistry.LocalResultRegistry.Release | server/app/local_results.py:382-386 | removes the claim and every result of the task |
| ResultRegistry.LocalResultRegistry.InvalidateSource | server/app/local_results.py:388-397 | removes exactly the task's results from another source and counts them |
| FormatCriteria.ClaimIsLastWriter | server/app/models.py:1376-1514 | an action's derived criterion claims a property exactly when the action sets it and no later action with the same target does, and then claims the value set |
| FormatCriteria.OnlyTheLastClaims | server/app/models.py:1246-1278 | for each target and property the last action that sets it claims it, and at most one claims it |
| FormatLaws.ClaimsExactly | server/app/models.py:1376-1514 | a property is claimed, with the value set, exactly when no later action on the same sheet and range sets it again |
| FormatLaws.DerivesExactly | server/app/models.py:1376-1514 | an action derives a criterion exactly when it claims some property, about its own sheet and range |
| FormatLaws.DollarsDoNotMatter | server/app/models.py:1264-1278 | a dollar sign anywhere in a range text leaves its target the same |
| FormatLaws.SpacesDoNotMatter | server/app/models.py:1264-1278 | so does a space at either end |
| FormatLaws.CaseDoesNotMatter | server/app/models.py:1264-1278 | so does the case of the letters |
| FormatLaws.TheRestMatters | server/app/models.py:1264-1278 | a text in capitals without these is its own target, so any two different ones differ |
| FormatLaws.SheetsExactly | server/app/models.py:1272-1272 | sheet names are the same target exactly when they differ in the case of letters only |
| FormatCriteria.LastWriteStays | server/app/folder_workbooks.py:5302-5359 | after all actions a place (a property or border side of a cell, the height of a row, the width of a column) holds what the last action that writes it wrote |
| FormatLaws.WritesExactly | server/app/folder_workbooks.py:5302-5359 | running an action writes what it sets into every cell of its range, or into every row or column it spans, on its own sheet and nowhere else |
| FormatCriteria.HoldsExactlyWhenNotClobbered | server/app/folder_workbooks.py:2574-2652 | read to the letter or as the verifier reads it, a derived criterion is true after the whole plan exactly when no later action is the last to write a place it speaks of with a value that does not pass |
| FormatLaws.PassesExactly | server/app/folder_workbooks.py:2574-2627 | which values pass the verifier, property by property |
| FormatLaws.LinesPassExactly | server/app/folder_workbooks.py:2630-2652 | border lines pass when they look the same and, unless absent, have the same colour |
| FormatLaws.LinesExactly | server/app/folder_workbooks.py:2555-2571 | which styles and weights look the same |
| FormatCriteria.IndependentPlansMeetTheirCriteria | server/app/models.py:1376-1514 | when any two actions have the same target or write no common place, every derived criterion is true after the plan, under both readings |
| FormatCriteria.DisjointPlansFailOnlyBySizes | server/app/folder_workbooks.py:5302-5359 | with equal or disjoint ranges every fill, font, number format, alignment and border criterion is true after the plan, and a size criterion exactly when no later action ends up sizing one of its rows or columns otherwise |
| FormatCriteria.EqualOrApartPlansMeetTheirCriteria | server/app/models.py:1246-1514 | equal or disjoint ranges that size no common row or column make every derived criterion true |
| FormatCriteria.SharedRowBreaksHeight | server/app/folder_workbooks.py:5352-5359 | for any two disjoint ranges side by side, setting two heights that differ by more than the verifier tolerates makes the first criterion false |
| FormatCriteria.NeighboursCollide | server/app/folder_workbooks.py:5352-5359 | the plan that sizes A1 and then B1 has disjoint ranges, derives a criterion for A1, and leaves it false |
| PlanValidation.CollectCriteria | server/app/models.py:1203-1278 | the loop appends, in action order, exactly the contributed criteria not yet present |
| PlanValidation.CollectWarnings | server/app/models.py:1567-1587 | the loop computes the capped fold over the candidate warnings |
| PlanValidation.SheetsKnown | server/app/models.py:1195-1201 | the check passes exactly when every submitted criterion is about a sheet some action works on |
| PlanValidation.ContributedExactly | server/app/models.py:1279-1566 | which criteria an action contributes |
| PlanValidation.PlanClaimsExactly | server/app/models.py:1376-1514 | in a whole plan a formatting action claims a property exactly when it sets it and no later formatting action on the same sheet and range does |
| PlanValidation.LastPlaceIsLastOutside | server/app/models.py:1575-1587 | once the list is full only its last place changes and ends as the last candidate outside the first nineteen |
| PlanValidation.AddWarningsTwice | server/app/models.py:1567-1587 | folding the same candidates again changes nothing, also at the cap |
| PlanValidation.ValidatePlan | server/app/models.py:1193-1591 | for plans with actions of every type, the validator refuses foreign sheets first and too many criteria last, otherwise returns the completed plan |
| PlanValidation.AcceptedPlansAreStable | server/app/models.py:1193-1591 | validating an accepted plan again returns it unchanged, criteria and warnings |
| PlanValidation.DroppedCriteriaComeBack | server/app/models.py:1193-1591 | dropping an accepted plan's criteria and validating again gives the plan back exactly when the submitted criteria were a prefix of the derived ones, in particular when there were none |
| PlanValidation.AddedCriteriaHold | server/app/models.py:1376-1591 | every formatting criterion the validator adds to a plan of equal or apart ranges is true to the letter after the plan's formatting actions have run |
| SeccompFilter.BuildRules | server/app/docker_worker.py:46-55 | the built list is the filter program, and running it gives every call the specified decision |
| SeccompFilter.TailDecides | server/app/docker_worker.py:53-55 | from any pair on, the list decides by membership among the numbers still ahead |
| SeccompFilter.ProgramDecides | server/app/docker_worker.py:46-55 | for every list and every architecture and number: kill on a foreign architecture, refuse the reserved ranges and the listed numbers, allow the rest, always at a return |
| SchemaInlining.Inliner.ResolveNode | server/app/agent_tools.py:107-121 | terminates on every schema, computes the resolved node and leaves the shared set as it found it |
| SchemaInlining.Inliner.ResolveEntries | server/app/agent_tools.py:107-121 | so does each object, entry by entry, without the definition table |
| SchemaInlining.Inliner.ResolveElements | server/app/agent_tools.py:107-121 | so does each list |
| SchemaInlining.ResolvedIsRefFree | server/app/agent_tools.py:102-123 | over definitions that are no bare reference strings no node of the output is a reference, cyclic tables included |
| SchemaInlining.BareRefEscapes | server/app/agent_tools.py:107-121 | a definition that is a bare reference string yields an output that refers to a definition |
| SchemaInlining.SafeOutputExactlyWhenNoBareRefs | server/app/agent_tools.py:102-123 | a definition table is safe for every schema exactly when it holds no bare reference string |
| SchemaInlining.ExpandAgrees | server/app/excel_agent.py:925-955 | below any rank the agent loop's inliner succeeds with the cycle-safe inliner's node |
| SchemaInlining.InlinersAgree | server/app/excel_agent.py:925-955 | on acyclic schemas whose references are known, sibling-free and lead to objects the two inliners agree |
| SchemaInlining.SelfReferenceSeparatesThem | server/app/excel_agent.py:925-955 | on a definition that refers to itself one never ends and the other cuts the cycle with an empty object |
| SchemaInlining.MergeGets | server/app/excel_agent.py:947-947 | in a merge the second object's value stands for each of its keys and the first one's for every other |
| SchemaInlining.SiblingsOverride | server/app/excel_agent.py:935-947 | the siblings of a reference override what its definition expands to, key by key, and a reference to nothing or to a null fails with the reference |
| FolderMutex.Locks.FolderWriteGuard | server/app/folder_mutex.py:65-94 | the body is entered exactly when both locks are free and the set-up steps work; which exits leave exactly the locks they found, and what the others leave behind |
| FolderMutex.GuardIsARun | server/app/folder_mutex.py:65-94 | the guard taken step by step among the other processes ends with the same locks as the guard as a method, in all surroundings |
| FolderMutex.ReachableIsSound | server/app/folder_mutex.py:26-94 | over every interleaving of processes and threads each held lock belongs to one live attempt or to a leak |
| FolderMutex.MutualExclusion | server/app/folder_mutex.py:65-94 | at most one thread of any process is inside the guarded body of a folder |
| FolderMutex.QuiescentLocksAreTheLeaks | server/app/folder_mutex.py:65-94 | when no attempt is live the locks still held are exactly the leaked ones |
| FolderMutex.NextAttemptEntersUnlessLeaked | server/app/folder_mutex.py:65-94 | from a quiescent state the next attempt enters exactly when its locks were not leaked, and leaves the locks as it found them |
| FolderMutex.LeakIsPermanent | server/app/folder_mutex.py:71-77 | over any further run in which its process does not end, a leaked thread lock stays, and every attempt on its folder in that process is turned away with nothing changed |
| FolderMutex.NoLeakWithoutFailure | server/app/folder_mutex.py:65-94 | a run in which set-up, unlocking and closing never fail leaks nothing |
| FolderMutex.ReleasedLast | server/app/folder_mutex.py:89-94 | while its process lives an attempt gives its thread lock back only when it has neither file lock nor open handle any more |
| FaultArming.SeenTargets.NoteTarget | server/app/dev_fault_target.py:69-87 | the list stays the most-recent-first history of trusted targets without repeats, cut to sixteen |
| FaultArming.DropOfCut | server/app/dev_fault_target.py:69-87 | keeping only sixteen loses nothing a later update needs |
| FaultArming.MostRecentIsDistinct | server/app/dev_fault_target.py:69-87 | the most-recent-first history names each target once |
| FaultArming.ResolvesExactlyWhenUnambiguous | server/app/dev_fault_target.py:110-146 | an identity is resolved exactly when a trusted one is declared, or none is declared and exactly one seen target matches |
| FaultArming.TrustedExactly | server/app/dev_fault_target.py:51-60 | an identity is trusted exactly when, trimmed, it starts with a trusted prefix, so a workbook's name never is |
| FaultArming.ResultRunIsOrdered | server/app/dev_result_ref_fault.py:90-189 | over every history the events come in the order arm, bind, doom, take, and the state mirrors them |
| FaultArming.SourceRunIsOrdered | server/app/dev_source_changed_fault.py:79-249 | over every history the events come in the order arm, bind, take, and the state mirrors them |
| FaultArming.ResultTakeIsTheBoundOne | server/app/dev_result_ref_fault.py:126-189 | each take is for the task bound since the latest arm, with the armed host, workbook name and identity, no cancel between, and for its first bound handle, bound before the arm expired |
| FaultArming.SourceTakeIsTheBoundOne | server/app/dev_source_changed_fault.py:193-249 | each take is for the task bound since the latest arm, with the armed host, workbook name and identity, no cancel between, before the arm expired |
| FaultArming.TakesNeverExceedArms | server/app/dev_source_changed_fault.py:79-249 | in every history, of either fault, takes never exceed arms |
| FaultArming.NothingIsTakenAfterCancel | server/app/dev_result_ref_fault.py:90-189 | in every history, of either fault, nothing is taken after a cancel until a new arm has succeeded |
| FaultArming.ResultRefFault.BindTask | server/app/dev_result_ref_fault.py:126-155 | binds the first matching task before the arm expires, and reports whether it did |
| FaultArming.ResultRefFault.BindPythonResult | server/app/dev_result_ref_fault.py:158-170 | binds the bound task's first handle, and reports whether it did |
| FaultArming.ResultRefFault.TakeExpiry | server/app/dev_result_ref_fault.py:173-189 | reports a take exactly when enabled and asked for the bound pair, and then ends the fault |
| FaultArming.SourceChangedFault.BindTask | server/app/dev_source_changed_fault.py:193-226 | binds the first matching task before the arm expires, and reports whether it did |
| FaultArming.SourceChangedFault.Take | server/app/dev_source_changed_fault.py:229-249 | reports a take exactly when enabled, armed, asked for the bound task and before the deadline, and then ends the fault; a late ask disarms |
| LoopProtection.RestoreIsIdentityExactlyWhenRegular | server/app/agent_loop_protection.py:48-98 | restoring a checkpoint gives the state back exactly when its counters are nonnegative and it has no empty messages, and restoring twice is restoring once |
| LoopProtection.WarnsAtTheThreshold | server/app/agent_loop_protection.py:122-164 | a call warns exactly when it is its key's threshold-th hit |
| LoopProtection.EachKeyWarnsOnce | server/app/agent_loop_protection.py:122-164 | over any calls a key warns exactly when its hits cross the threshold, and never twice |
| LoopProtection.LoopState.DetectPathLoop | server/app/agent_loop_protection.py:322-364 | reports the least block length from two to the maximum that the history repeats at its end, exactly when that pattern differs from the last reported |
| LoopProtection.RepeatsExactly | server/app/agent_loop_protection.py:344-352 | a history repeats a block exactly when it ends in that block written twice |
| LoopProtection.ArrowsBetween | server/app/agent_loop_protection.py:354-354 | the reported pattern names the block's calls in order with arrows between them |
| LoopProtection.LoopState.DetectActionConflict | server/app/agent_loop_protection.py:122-164 | counts one hit and warns as the counting specification says |

## Left out

- Text beyond ASCII: letters, digits, blanks and case folding are the ASCII ones, so wider regular-expression digits and full Unicode case folding are not captured.
- Cell values arrive with their text; how Python prints a number or a date is an input of the cell model.
- Addresses outside the two cell grammars (whole columns such as `A:A`, sheet-qualified multi-area references) are unparsable in the model.
- FormatCriteria: covers the six formatting actions, the two criteria they derive and the server's executor and verifier; other hosts, sheet creation and renaming, autofit, merging and structural edits in between are left out, and sheet references are compared to the letter on execution, as the executor does.
- PlanValidation: the criteria of the other actions are given with the action, as texts, because validation compares them only; what they say about values, formulas, sorting, filters, tables, charts, pivots, data validation and frozen panes would only add members of the same form.
- PlanValidation.AddedCriteriaHold: speaks of the plan's formatting actions; other actions of the plan may change formats too.
- PlanningLoop: message contents, tool arguments and results, the Python-code projection, the progress events, the tool cache and the loop detection it feeds are not in the state; whether a tool fails, ends the run or a prompt is added is an arbitrary choice of the step.
- PlanningLoop: wall-clock limits and reminders appear only as a pause that may happen at a saved boundary.
- That a resumed run ends as an uninterrupted one would is not claimed: on the warning turn the two dialogues differ.
- RecoveryStore: the header's JSON text and SHA-256 are parameters with stated laws (`Lawful`); instants are bounded integers; temporary files of other writers, symbolic links, unexpected exceptions during clean-up, the raw digest and the status listing are left out. `RecoveryCodec` only shows that the laws can be met together.
- RecoveryStore.Store.Save: concurrent writers are excluded, as the source's lock does.
- ResultRegistry: random handles are fresh parameters, clock readings are integers, whether a payload can be encoded and its digest are inputs; `reset`, `count` and `structure_of` are left out.
- FolderMutex: the Windows and POSIX file locks are one lock per folder identity held by an open handle; path resolution and hashing are a given key.
- FaultArming: the status reports, the feature flags' source and the error messages are left out; time is an integer.
- LoopProtection: stop decisions, stuck-state classification and warning texts are left out.
- SeccompFilter: only construction and meaning of the program; the system calls that install it, and what the kernel accepts, are not modelled.
- SchemaInlining: numbers and booleans are opaque atoms, object keys keep their order, and metadata stripping is left out.
- Validation by the data-transfer types, HTTP, model clients, the task ledger, spreadsheet windows, archives, pandas queries and all scripts are not part of this model.
