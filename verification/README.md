# Atlas ROS: verified models of its exact-transaction and governance components

Atlas ROS plans, authorises and executes exact changes on outside providers, and keeps governed
evidence about its user. This project models six of its components in Dafny and proves what they
promise over whole runs, over every input graph or tree, and over every call sequence.

| component | modules |
|---|---|
| exact cleanup transactions | `HistoricalCleanup`, `CleanupGuarantees`, `CleanupAuthority` |
| Drive folder trees | `FolderTraversal`, `FolderReachability`, `FolderTree`, `FolderTreeGuarantees`, `FolderReport`, `FolderReview`, `FolderRegrowth` |
| execution journal, attended execution, Todoist adapter | `ExecutionJournal`, `JournalGuarantees`, `JournalTransitions`, `AttendedExecution`, `ExecutionMeaning`, `TodoistTarget`, `TodoistAdapter` |
| migration ledger and retirement guard | `MigrationLedger`, `LedgerAcceptance`, `DriveRetirement` |
| governed intent evidence | `IntentMigration`, `IntentSelection`, `IntentBatches`, `IntentMemory`, `IntentControls`, `IntentIndex`, `IntentEligibility` |
| communication policy and text replacement | `CommunicationPolicy`, `CommunicationMeaning`, `CareerLanguage`, `CareerReport` |

`Common`, `Ordering` and `Substrings` hold optional values, counting, a stable sort and text search, each
with its theory.

Code that changes state step by step is a class or a method with a loop, proved equal to a
specification function (`Store.Next`, `StoreAfter`, `Begin`, `RecordWrite`, `TraverseFrom`, `Visit`,
`Propose`, `CompiledPolicy`, `ReplaceAll`, …); the guarantees are lemmas about those functions. `CleanupAuthority`, `FolderReport`,
`JournalTransitions`, `ExecutionMeaning`, `LedgerAcceptance`, `IntentSelection`, `IntentEligibility`,
`CommunicationMeaning` and `CareerReport` say once more what every gate admits and what every result
carries, in the fields of the inputs alone and without the functions that decide it.
Digests are uninterpreted function parameters. Injectivity is assumed only of the digest-derived
evidence ids, only on the records at hand, and only where a theorem about batches says so.
Timestamps are integers and confidences are reals; what the outside world answers (a provider's
response, a Todoist server's task, whether a text is a timestamp) is a parameter of the operation
that asks.

## Where the code and its promises part

Each of these is proved, with the exact condition where there is one.

- A completed journal transaction is not final: a failure recorded on it, or a receipt naming one of
  its operations, takes it out of that state (`JournalGuarantees.CompletionLeftExactlyBy`), after
  which it can be begun again (`AttendedExecution.CompletedExecutionReopens`).
- The cycle error of the folder traversal cannot be raised by any input
  (`FolderReachability.CycleErrorIsUnreachable`).
- The count of unresolved authoritative items is zero in every compiled ledger, so the two guards
  that read it never fire on derived evidence (`MigrationLedger.LedgerCollapses`).
- A ledger file whose zero count is `false` loads although it is not what `write_ledger` writes
  (`MigrationLedger.FalseLoadsAsZero`, `MigrationLedger.AcceptedIsExactIff`).
- An authorised cleanup builds its receipt exactly when no operation id repeats, which the plan's
  contract does not check (`CleanupGuarantees.ReceiptExistsIff`); without one the run has happened all
  the same (`CleanupGuarantees.FinalStoreForetold`, `CleanupGuarantees.RepeatedIdLosesReceipt`).
- Destructive actions number the items removed exactly when no deletion with an unused key meets an
  item stored as "deleted" under the expected digest (`CleanupGuarantees.RemovalsCountedIff`,
  `CleanupGuarantees.UncountedRemoval`).
- Two Todoist destinations share a target exactly when the target reads back as one destination
  (`TodoistTarget.TargetsEqualIff`). Canonical destinations, whose earlier ids contain no mark of a
  later place, are told apart; every other one shares its target with a canonical one
  (`TodoistTarget.NonCanonicalShares`), and the adapter writes to either
  (`TodoistAdapter.SharedTargetAccepted`, `TodoistAdapter.AcceptedCollision`).
- Migration "creates no duplicates" (`docs/releases/V760_FEATURE_IMPLEMENTATION_CONTRACT.md:83`)
  exactly when no two records that create evidence share an id (`IntentBatches.NoDuplicatesIff`,
  `IntentBatches.RepeatedRecordCreatedTwice`); two proposals with ids fed forward agree with one
  exactly when no id is shared between them (`IntentBatches.TwoProposalsIff`).
- The same contract, line 81, says active indexes exclude stale and contradictory evidence: true
  exactly when all three clarification switches of the freshness policy are on
  (`IntentControls.ExclusionPromiseIff`). No decision consults `max_inference_age_days`, which only
  the policy's own contract compares (`IntentControls.AgeLimitIff`).
- The same line promises that retired and forgotten evidence stays out of active indexes. A correction
  may take the id of the record it corrects, and an index keeps the last record of an id: the id is then
  active wherever the correction is usable (`IntentIndex.ReusedIdComesBack`). An id whose last record is
  withdrawn stays out of every index of a run exactly when no accepted correction in the run takes the
  id (`IntentIndex.ExcludedThroughoutIff`). Active ids are exactly the evidence that may be inferred from
  if and only if records of one id are judged alike (`IntentIndex.ActiveIffMayInfer`).
- Whether a correction's successor may be inferred from does not depend on the state of the record it
  corrects (`IntentControls.SuccessorInferredIff`); nothing withdrawn comes back exactly when no
  correction meets a withdrawn record (`IntentControls.NothingRevivedIff`,
  `IntentControls.RevivalForetoldIff`). Retiring or correcting a record drops a pending forgetting request (`IntentControls.RequestStaysIff`).
- The memory index asks for "exactly one" decision per record but exists exactly when the id sets are
  equal (`IntentIndex.IndexExistsIff`), and it is independent of the order of its inputs exactly when
  records of one id have one digest and decisions of one id are equal (`IntentIndex.OrderFreeIff`).
- The profile bundle's disabled contexts and preferences are validated and then ignored: nothing
  disabled is ever applied exactly when nothing some request could apply is disabled
  (`CommunicationPolicy.DisabledStaysOutIff`, `CommunicationPolicy.DisabledPreferenceApplied`).
- Replacing a weak verb can leave the verb in the text although the replacement does not contain it:
  "supportesupported" with "directed" for "supported" becomes "supportedirected"
  (`CareerLanguage.DirectedLeavesSupported`). No text does so exactly when the replacement contains the
  verb or no placement of the verb overlaps the replacement's ends (`CareerLanguage.SurvivesOnlyIff`);
  "led" for "helped" is such a replacement (`CareerLanguage.LedSetApart`).

## Model

| member | source | states |
|---|---|---|
| HistoricalCleanup.InMemoryHistoricalStore.constructor | tools/release/historical_cleanup.py:40-44 | The store starts with exactly the given items and idempotency records. |
| HistoricalCleanup.InMemoryHistoricalStore.Read | tools/release/historical_cleanup.py:46-50 | An absent item reads as deleted without a digest, a stored one as its state and digest. |
| HistoricalCleanup.InMemoryHistoricalStore.Apply | tools/release/historical_cleanup.py:52-81 | The whole new store and the result or exception of one operation: replayed keys change nothing, failures record no key, an accepted operation removes or re-states its one item. |
| HistoricalCleanup.ExecuteOne | tools/release/historical_cleanup.py:98-185 | One turn of the loop: a dry run leaves the store alone, a live turn applies once, reads back, and turns an exception into an unverified result. |
| HistoricalCleanup.ExecuteCleanup | tools/release/historical_cleanup.py:84-212 | The loop over in-place changes leaves the store and returns the receipt (or refusal) that the recursive run over immutable stores gives, failure count included. |
| CleanupAuthority.RunsExactlyWhenPermitted | tools/release/historical_cleanup.py:84-240 | Live or dry, the operations run exactly when there are no blockers, transaction, inventory and plan match, the id sets are equal, every action is allowed, both budgets hold and deletions are authorised; otherwise the store is left alone and the refusal raised. |
| CleanupAuthority.UnauthorisedDeletionRefused | tools/release/historical_cleanup.py:239-240 | A plan that deletes anything without destructive authorisation is refused with the store untouched. |
| CleanupAuthority.AppliedMeaning | tools/release/historical_cleanup.py:52-81 | When `apply` raises, when it changes the item, what it records under the key and returns, on items and keys alone. |
| CleanupAuthority.LiveTurnReported | tools/release/historical_cleanup.py:131-185 | Each live result and readback tells the outcome of its apply and the item as it then stands, and verifies exactly at the target. |
| CleanupAuthority.DryTurnReported | tools/release/historical_cleanup.py:98-131 | Each dry result and readback tells the untouched item and verifies exactly when it is stored under the expected digest in a known state. |
| CleanupAuthority.ReceiptNames | tools/release/historical_cleanup.py:202-212 | The receipt names the plan and the authorisation and lists every operation once, in order. |
| CleanupAuthority.StatusMeaning | tools/release/historical_cleanup.py:187-196 | The status is decided by the readbacks the receipt lists: all, none or some verified, live or dry. |
| CleanupGuarantees.RunEvolves | tools/release/historical_cleanup.py:52-81 | Between any two points of a run idempotency records only grow, items only disappear and digests never change. |
| CleanupGuarantees.ReplayWritesNothing | tools/release/historical_cleanup.py:52-81 | After any live run, whatever the plan and the store, executing again changes no item and reports no write and no destructive action. |
| CleanupGuarantees.CompletedIffVerified | tools/release/historical_cleanup.py:187-196 | A live run is completed exactly when it has operations and each one's item was at its target right after its turn. |
| CleanupGuarantees.ReceiptSoundAndComplete | tools/release/historical_cleanup.py:131-196 | The receipt says completed exactly when the final store has every deleted item absent and every archived or migrated item in that state with the expected digest, whatever keys the store already held. |
| CleanupGuarantees.CompletionForetold | tools/release/historical_cleanup.py:52-81 | Whether a run completes, decided from the starting store alone, operation by operation. |
| CleanupGuarantees.ReceiptExistsIff | tools/release/historical_cleanup.py:202-212 | The authorisation accepted, live or dry, a receipt is built exactly when no operation id repeats; the contract of the receipt refuses the rest. |
| CleanupGuarantees.FinalStoreForetold | tools/release/historical_cleanup.py:92-185 | Receipt or none, an accepted live run leaves the store of all its operations, with exactly the foretold items at their targets. |
| CleanupGuarantees.RepeatedIdLosesReceipt | tools/release/historical_cleanup.py:197-212 | A valid, fully authorised plan of two deletions sharing an operation id raises with both items gone. |
| CleanupGuarantees.CompletedReplaysAsCompleted | tools/release/historical_cleanup.py:131-201 | A completed run of a valid plan replays as completed. |
| CleanupGuarantees.SimulatedIff | tools/release/historical_cleanup.py:115-128 | A dry run simulates exactly when every item reads back in a known state with its inventoried digest. |
| CleanupGuarantees.DryRunPredictsLiveRun | tools/release/historical_cleanup.py:98-129 | A dry run changes nothing, and on unused keys it says simulated exactly when the live run would complete and every item is present in a known state. |
| CleanupGuarantees.ReplayedPrefixAgrees | tools/release/historical_cleanup.py:52-81 | Running an executed prefix again, on the store it left or any evolved from it, changes no item and leaves the remaining keys as they were. |
| CleanupGuarantees.HalfStepCatchesUp | tools/release/historical_cleanup.py:70-81 | An operation stopped between changing its item and recording its key ends, applied again, with the items of one application. |
| CleanupGuarantees.CrashResume | tools/release/historical_cleanup.py:97-185 | However many runs were cut short, between operations or inside one, running the whole plan ends with the items of one uninterrupted run. |
| CleanupGuarantees.ResumedReceiptAgrees | tools/release/historical_cleanup.py:187-212 | The run that gets through after crashes reports completed exactly when an uninterrupted run would. |
| CleanupGuarantees.ItemBalanceKept | tools/release/historical_cleanup.py:65-81 | Stored items plus counted and uncounted removals is constant along a run. |
| CleanupGuarantees.UnauthorisedItemsSurvive | tools/release/historical_cleanup.py:229-231 | An item outside the authorised id set is as it was. |
| CleanupGuarantees.WithinBudgets | tools/release/historical_cleanup.py:235-240 | Destructive actions are at most the writes, the writes at most the object budget, and the bytes of changed items at most the byte budget. |
| CleanupGuarantees.ConservationAndBudgets | tools/release/historical_cleanup.py:197-201 | Items removed equal the destructive actions (plus removals of items already stored as deleted), budgets hold and unauthorised items are untouched. |
| CleanupGuarantees.RemovalsCountedIff | tools/release/historical_cleanup.py:65-81 | On the starting store alone: the receipt counts every removal exactly when no deletion has an unused key and an item stored as deleted under the expected digest. |
| CleanupGuarantees.UncountedRemoval | tools/release/historical_cleanup.py:70-79 | One item stored as deleted: its removal completes and is not counted. |
| FolderTraversal.CollectFolders | scripts/validate_v700_drive_folder_traversal.py:52-109 | The loop that fills the dictionary raises the first record's fault in order, or gives the map of all records. |
| FolderTraversal.CheckLinks | scripts/validate_v700_drive_folder_traversal.py:117-137 | The nested loops raise the first parent or child disagreement, if there is one. |
| FolderTraversal.Traverse | scripts/validate_v700_drive_folder_traversal.py:139-153 | The stack loop terminates and computes the recursive depth-first traversal: the same reached set, depth, or revisited folder. |
| FolderTraversal.ValidateFolderTraversal | scripts/validate_v700_drive_folder_traversal.py:28-236 | The whole validator: the same first error in the same order, or the same report. |
| FolderTraversal.StructureAcceptedIffClosed | scripts/validate_v700_drive_folder_traversal.py:111-137 | The closure checks pass exactly when parent pointers and child lists are inverse to each other and only the root has no parent. |
| FolderReachability.ChainUnique | scripts/validate_v700_drive_folder_traversal.py:117-137 | In closed records a folder has one distance from the root. |
| FolderReachability.InvariantStep | scripts/validate_v700_drive_folder_traversal.py:142-153 | Popping a folder and pushing its children keeps the traversal invariant: nothing pending is reached, and every pending or reached folder has its recorded depth. |
| FolderReachability.TraversalFinishes | scripts/validate_v700_drive_folder_traversal.py:142-153 | From any invariant state the traversal ends without meeting a folder twice. |
| FolderReachability.TraversalIsExact | scripts/validate_v700_drive_folder_traversal.py:139-158 | It reaches exactly the root's descendants, its depth is the longest parent chain, and it reaches every record exactly when the records form a rooted tree. |
| FolderReachability.CycleErrorIsUnreachable | scripts/validate_v700_drive_folder_traversal.py:144-147 | No evidence whatever makes the validator raise its cycle error. |
| FolderReachability.GraphAcceptedIff | scripts/validate_v700_drive_folder_traversal.py:111-158 | On well-formed records the closure checks and the traversal together accept exactly the rooted trees. |
| FolderReachability.AcceptedIffRootedTree | scripts/validate_v700_drive_folder_traversal.py:28-236 | Evidence is accepted exactly when header, records, flags and digest are in order and the records form a rooted tree; the report then counts the records and gives the longest chain. |
| FolderReport.AcceptedExactly | scripts/validate_v700_drive_folder_traversal.py:28-203 | The whole validator in the payload's own fields: every record's texts, lists and tokens, distinct ids, a rooted tree, what each flag may claim of the records and of the others, and the digest. |
| FolderReport.ReportMeaning | scripts/validate_v700_drive_folder_traversal.py:160-236 | Readiness exactly when all three flags hold, status by the flags, tokens, counts and both id sets those of the records. |
| FolderReport.CompleteMeansNothingOpen | scripts/validate_v700_drive_folder_traversal.py:176-194 | A report of a complete traversal has no tokens, inaccessible children or incomplete listings, and is ready exactly when the inventory is complete. |
| FolderTree.CompactTreeExpander.VisitNode | scripts/validate_v700_drive_folder_tree.py:33-65 | The recursion that mutates the shared seen set and record list leaves the set, list and result (or error) of the functional visit. |
| FolderTree.ExpandTree | scripts/validate_v700_drive_folder_tree.py:18-88 | Expansion of a compact payload: digest check, visit, root check, and the signed explicit evidence. |
| FolderTree.ExpandAndValidate | scripts/validate_v700_drive_folder_tree.py:91-114 | Expanding, validating, and taking the answer of the file-inventory validator when an inventory stands beside the tree, as one result. |
| FolderTreeGuarantees.VisitMeaning | scripts/validate_v700_drive_folder_tree.py:33-65 | A visit succeeds exactly on well-formed trees with new, pairwise different ids, and then appends the tree's records and adds its ids. |
| FolderTreeGuarantees.TreeChains | scripts/validate_v700_drive_folder_tree.py:50-64 | Every folder of a subtree hangs below the subtree's root by a parent chain no longer than the subtree's height. |
| FolderTreeGuarantees.DeepestFolder | scripts/validate_v700_drive_folder_tree.py:50-64 | Some folder lies exactly as deep as the tree is high. |
| FolderTreeGuarantees.RecordLeaves | scripts/validate_v700_drive_folder_traversal.py:222-224 | The records without children number the tree's leaves. |
| FolderTreeGuarantees.ExpansionIsRootedTree | scripts/validate_v700_drive_folder_tree.py:33-65 | The records of a tree with distinct ids form a rooted tree. |
| FolderTreeGuarantees.ExpansionValidates | scripts/validate_v700_drive_folder_tree.py:67-88 | Expanded evidence of a distinct-id tree always passes the structural checks and reports the tree's size, leaves and height. |
| FolderTreeGuarantees.CompactAcceptedIff | scripts/validate_v700_drive_folder_tree.py:91-114 | A compact payload is accepted exactly when its tree is well formed with distinct ids and rooted at the source root, the header, flags and digests are in order, and a file inventory beside it is accepted. |
| FolderReport.CompactReport | scripts/validate_v700_drive_folder_tree.py:91-114 | The report of a compact tree has nothing open, and its readiness and status are decided by the flags. |
| FolderReview.FlattenTree | scripts/validate_v700_pre_v6_deletion_plan.py:75-80 | The loop that extends a local list computes the preorder listing or the malformed-node error. |
| FolderReview.FindMeaning | scripts/validate_v700_pre_v6_deletion_plan.py:64-72 | On a distinct-id tree the search returns nothing exactly when the id is absent, otherwise the subtree at the id. |
| FolderReview.SubtreeIsDescendants | scripts/validate_v700_drive_folder_tree.py:33-65 | The ids of a subtree are the folders whose parent chain in the records passes through its root. |
| FolderReview.FindThenFlatten | scripts/validate_v700_pre_v6_deletion_plan.py:64-80 | Flattening what was found lists, each once, exactly the folders whose parent chain in the expanded records passes through the id. |
| FolderReview.UnreviewedCount | scripts/validate_v700_pre_v6_exclusion_review.py:255-263 | Unreviewed candidates and reviewed ids in scope together number the candidates. |
| FolderReview.ReviewAccounts | scripts/validate_v700_pre_v6_exclusion_review.py:196-273 | The review passes exactly when the reviewed ids are unique, nonempty and below the target; candidates are its descendants, each once, and the pending count is the number of unreviewed ones. |
| FolderReview.CandidatesMeaning | scripts/validate_v700_pre_v6_exclusion_review.py:255-273 | Candidates stand in order of id and title and are marked reviewed exactly when their id is among the reviewed ones. |
| FolderReview.CandidateTitles | scripts/validate_v700_pre_v6_exclusion_review.py:255-263 | A candidate shows the title of its own folder. |
| FolderRegrowth.ChainCompose | scripts/validate_v700_drive_folder_traversal.py:117-137 | Parent chains compose and their lengths add. |
| FolderRegrowth.GrownIds | scripts/validate_v700_drive_folder_traversal.py:139-153 | A tree grown back from the records below a folder holds exactly that folder's descendants. |
| FolderRegrowth.GrownIsDistinct | scripts/validate_v700_drive_folder_traversal.py:139-153 | The grown tree has no id twice. |
| FolderRegrowth.RecordsGrow | scripts/validate_v700_drive_folder_tree.py:33-65 | Expanding the grown tree gives back the records it was grown from. |
| FolderRegrowth.RootedTreeIffExpansion | scripts/validate_v700_drive_folder_tree.py:33-88 | Well-formed records form a rooted tree exactly when they are, up to order and listing bookkeeping, the expansion of some compact tree with distinct ids and that root. |
| ExecutionJournal.SQLiteExecutionJournal.constructor | src/atlas_ros/adapters/local_sqlite.py:272-309 | A new journal has no rows. |
| ExecutionJournal.SQLiteExecutionJournal.BeginTransaction | src/atlas_ros/adapters/local_sqlite.py:68-119 | New rows, or the same transaction prepared again, or the exact refusal; a key already used anywhere rolls every insert back. |
| ExecutionJournal.SQLiteExecutionJournal.RecordProviderWrite | src/atlas_ros/adapters/local_sqlite.py:121-165 | The named row is written with its receipt and one more attempt and the transaction is executing, or nothing changes. |
| ExecutionJournal.SQLiteExecutionJournal.RecordProviderReadback | src/atlas_ros/adapters/local_sqlite.py:167-191 | A written row whose record and digest match is verified, or nothing changes. |
| ExecutionJournal.SQLiteExecutionJournal.FailTransaction | src/atlas_ros/adapters/local_sqlite.py:193-211 | The transaction, and the named operation if any, are failed with the truncated reason; unknown ids are ignored. |
| ExecutionJournal.SQLiteExecutionJournal.CompleteTransaction | src/atlas_ros/adapters/local_sqlite.py:213-246 | Completion is recorded exactly when identity matches, every row is verified and the receipt names the rows in order. |
| JournalGuarantees.RaisingCallRollsBack | src/atlas_ros/adapters/local_sqlite.py:355-373 | A raising call leaves both tables as they were. |
| JournalGuarantees.StepKeeps | src/atlas_ros/adapters/local_sqlite.py:68-246 | Any call on any consistent journal keeps it consistent and keeps every transaction's identity and operation metadata. |
| JournalGuarantees.EveryRunIsConsistent | src/atlas_ros/adapters/local_sqlite.py:68-246 | Every journal reachable by any call sequence is consistent, with provider and idempotency key unique across all transactions. |
| JournalGuarantees.CompletedMeansVerified | src/atlas_ros/adapters/local_sqlite.py:213-246 | After any calls a completed transaction has operations, all verified, each with its readback digest equal to its write digest, and no failure reason. |
| JournalGuarantees.IdentityNeverChanges | src/atlas_ros/adapters/local_sqlite.py:68-246 | No later calls change a recorded transaction's authorisation, plan digest or operation metadata. |
| JournalGuarantees.WriteAcceptedIff | src/atlas_ros/adapters/local_sqlite.py:121-165 | A write is accepted exactly when its receipt names the operation in all three fields and the journal knows the operation as planned. |
| JournalGuarantees.CompletionLeftExactlyBy | src/atlas_ros/adapters/local_sqlite.py:121-211 | A completed transaction stops being completed exactly by a failure recorded on it or by a receipt that names an operation it knows. |
| JournalGuarantees.ReopeningRefusedIffCompleted | src/atlas_ros/adapters/local_sqlite.py:73-91 | Whatever happened since, beginning a transaction again with its own plan is refused exactly when it is completed. |
| JournalTransitions.BeginAcceptedIff | src/atlas_ros/adapters/local_sqlite.py:68-119 | A new transaction is accepted exactly with unused keys, a known one exactly with its own identity and operations and not completed. |
| JournalTransitions.BeginLeaves | src/atlas_ros/adapters/local_sqlite.py:86-119 | A new transaction is prepared with untried operations, a known one only prepared again; other transactions are untouched. |
| JournalTransitions.WriteLeaves | src/atlas_ros/adapters/local_sqlite.py:148-165 | An accepted write fills the columns of its own row, counts the attempt and puts the transaction under execution, and changes nothing else. |
| JournalTransitions.ReadbackAcceptedIff | src/atlas_ros/adapters/local_sqlite.py:167-186 | A readback is accepted exactly for a written row of the same record and digest. |
| JournalTransitions.ReadbackLeaves | src/atlas_ros/adapters/local_sqlite.py:187-191 | It verifies its own row and changes nothing else. |
| JournalTransitions.FailLeaves | src/atlas_ros/adapters/local_sqlite.py:193-211 | A failure marks the transaction and the named operation and keeps every other column. |
| JournalTransitions.ReasonKept | src/atlas_ros/adapters/local_sqlite.py:204 | The reason kept is the reason given, cut at four thousand characters. |
| JournalTransitions.CompleteAcceptedIff | src/atlas_ros/adapters/local_sqlite.py:213-235 | Completion is accepted exactly for the recorded identity, all rows verified, and receipts naming the rows in order. |
| JournalTransitions.CompleteLeaves | src/atlas_ros/adapters/local_sqlite.py:236-246 | It records the receipt and its write count, clears the reason and leaves the rows alone. |
| JournalTransitions.AttemptsAreWrites | src/atlas_ros/adapters/local_sqlite.py:148-160 | Over any run of calls a row's attempts are the writes accepted for it. |
| AttendedExecution.ExecuteOne | src/atlas_ros/application/execution.py:80-115 | One turn: write, check, record, read back, check, record; the first failure is returned with the journal as it then is. |
| AttendedExecution.ExecutePlan | src/atlas_ros/application/execution.py:63-134 | The loop over the journal object leaves the journal and returns the receipt or error of the functional execution, the failure recorded included. |
| AttendedExecution.OperationGoesThrough | src/atlas_ros/application/execution.py:79-115 | On a registered transaction in any state an operation goes through exactly when the provider's two answers conform, verifies its own row only, and the journal never refuses it. |
| AttendedExecution.ConformingPrefix | src/atlas_ros/application/execution.py:79-115 | The first operations go through exactly when their answers conform; their rows are then verified and the others untouched. |
| AttendedExecution.VerifiedCompletes | src/atlas_ros/adapters/local_sqlite.py:213-246 | Completion is accepted once every row of the transaction is verified. |
| AttendedExecution.ConformingExecution | src/atlas_ros/application/execution.py:63-134 | With conforming answers a begun execution completes with the receipt of exactly those answers. |
| AttendedExecution.CompletedExecutionReopens | src/atlas_ros/application/execution.py:63-134 | After any completed execution a receipt naming one of its operations is recorded, the transaction is no longer completed, and begin accepts it again. |
| AttendedExecution.MisconformingExecution | src/atlas_ros/application/execution.py:116-123 | When answers first go wrong at one operation, earlier rows stay verified, that row and the transaction are failed with the error's text, later rows are untouched. |
| AttendedExecution.ExecutionOutcome | src/atlas_ros/application/execution.py:63-134 | A begun execution succeeds exactly when every answer conforms, exactly then is the transaction completed, and otherwise it is failed and never by the journal's refusal. |
| AttendedExecution.RetryCompletes | src/atlas_ros/application/execution.py:63-134 | After any number of failed attempts one conforming attempt completes the transaction. |
| AttendedExecution.EveryOpenTransactionCanFinish | src/atlas_ros/adapters/local_sqlite.py:78-91 | The same from every call history in which the transaction was begun and is not completed. |
| ExecutionMeaning.RefusedChangesNothing | src/atlas_ros/application/execution.py:70-74 | Without an id, the guard's permission or the journal's acceptance the execution raises and the journal is unchanged. |
| ExecutionMeaning.SucceedsExactly | src/atlas_ros/application/execution.py:63-160 | An execution succeeds exactly when it is permitted and accepted and every answer names its operation, provider, key, record and digest; otherwise a begun one is failed. |
| ExecutionMeaning.ReceiptMeaning | src/atlas_ros/application/execution.py:105-131 | The receipt lists every operation with the answers given for it and counts the writes that changed something; the journal keeps that receipt. |
| TodoistTarget.ParseJoins | src/atlas_ros/adapters/exact_todoist.py:30-42 | Every text is the target of the destination it reads back as. |
| TodoistTarget.CanonicalIff | src/atlas_ros/adapters/exact_todoist.py:30-42 | A destination reads back from its own target exactly when its project id contains no section or parent mark and its section id no parent mark. |
| TodoistTarget.TargetsEqualIff | src/atlas_ros/adapters/exact_todoist.py:30-42 | Any two destinations share a target exactly when their targets read back as the same destination. |
| TodoistTarget.CanonicalInjective | src/atlas_ros/adapters/exact_todoist.py:30-42 | Among canonical destinations the target determines project, section and parent. |
| TodoistTarget.NonCanonicalShares | src/atlas_ros/adapters/exact_todoist.py:30-42 | Every destination that is not canonical shares its target with exactly one canonical destination, a different one. |
| TodoistTarget.TargetInjective | src/atlas_ros/adapters/exact_todoist.py:30-42 | In particular project and section ids without a slash are told apart, whatever the parent. |
| TodoistTarget.TargetCollision | src/atlas_ros/adapters/exact_todoist.py:30-42 | A section mark inside a project id gives the target of the section. |
| TodoistAdapter.Write | src/atlas_ros/adapters/exact_todoist.py:52-105 | A refused write asks the client for nothing and leaves it alone; an accepted one asks once for exactly the payload's fields under the operation's key and returns the receipt of whatever task the server made. |
| TodoistAdapter.WriteGoesAheadIff | src/atlas_ros/adapters/exact_todoist.py:59-97 | A write goes ahead with given fields exactly when ids, provider and action are right, the payload is bound by operation id and digest and carries exactly these fields and no others, and the target names their place. |
| TodoistAdapter.OtherPayloadRefused | src/atlas_ros/adapters/exact_todoist.py:72-89 | A payload for another place, another digest or another operation is refused. |
| TodoistAdapter.Readback | src/atlas_ros/adapters/exact_todoist.py:107-117 | The readback receipt of the task now stored, or the error; the client is unchanged. |
| TodoistAdapter.AdapterMeetsJournal | src/atlas_ros/adapters/exact_todoist.py:52-117 | For an operation the journal knows, the write receipt of any task the server made is recorded, and readback then verifies the operation exactly when it finds that task with the digest it was made with. |
| TodoistAdapter.TodoistExecutionCompletesIff | src/atlas_ros/adapters/exact_todoist.py:46-117 | A begun Todoist execution completes exactly when every payload is exact and every task the server made is read back with the digest it was made with. |
| TodoistAdapter.TodoistReceipt | src/atlas_ros/adapters/exact_todoist.py:90-117 | A successful execution's receipt counts every created task as a write and gives the digests of what was made and what was read. |
| TodoistAdapter.SharedTargetAccepted | src/atlas_ros/adapters/exact_todoist.py:59-97 | The adapter accepts any destination with non-blank ids whose target is the operation's, so one target creates in different places. |
| TodoistAdapter.AcceptedCollision | src/atlas_ros/adapters/exact_todoist.py:30-42 | Two different destinations with non-blank ids and one target. |
| MigrationLedger.ValidItem | tools/release/drive_migration_ledger.py:332-383 | On a validated item being promotion ready is being verified or staged, and no authoritative item is unresolved. |
| MigrationLedger.LedgerCollapses | tools/release/drive_migration_ledger.py:128-155 | Unresolved is always zero; promotion readiness is a complete inventory with every historical-evidence item resolved; retirement readiness adds only that no item is current. |
| LedgerAcceptance.ItemAcceptedIff | tools/release/drive_migration_ledger.py:317-373 | An item is accepted exactly under the rules for its texts, size, checksums, target, status, classification and disposition, in its own fields. |
| LedgerAcceptance.SafeTargetIff | tools/release/drive_migration_ledger.py:386-391 | A target is safe exactly when it is relative and cannot be split around a component that steps up. |
| LedgerAcceptance.CompilesIff | tools/release/drive_migration_ledger.py:82-109 | An inventory compiles exactly for the release, with a visited root, named-once folders and inaccessible items, accepted items with different ids, and no target shared by two resolved items. |
| LedgerAcceptance.LedgerRecords | tools/release/drive_migration_ledger.py:116-190 | The ledger keeps what it was given, counts the GitHub representations, and hashes the inventory and itself. |
| LedgerAcceptance.ReadinessExactly | tools/release/drive_migration_ledger.py:111-155 | The three readiness figures on the given items and traversal facts alone. |
| MigrationLedger.CompiledIsFixed | tools/release/drive_migration_ledger.py:71-190 | A compiled ledger is what its own base fields compile to. |
| MigrationLedger.LoadIff | tools/release/drive_migration_ledger.py:240-273 | Loading gives a ledger exactly when it is a compiled one, the payload equals its serialisation under Python equality, and the two kind-sensitive fields have their kind. |
| MigrationLedger.RoundTrip | tools/release/drive_migration_ledger.py:240-281 | Writing a compiled ledger and loading it gives the same ledger. |
| MigrationLedger.AcceptedIsExactIff | tools/release/drive_migration_ledger.py:269-272 | An accepted payload is exactly the serialisation if and only if its own four flags are booleans and its four counts integers. |
| MigrationLedger.FalseLoadsAsZero | tools/release/drive_migration_ledger.py:269-272 | A boolean in place of the zero count is accepted although it was not written. |
| DriveRetirement.PhaseSucceedsIff | tools/release/drive_retirement.py:77-176 | On evidence derived from a compiled ledger each phase succeeds exactly under the inventory's own condition for that mode, a named transaction and a well-formed digest. |
| DriveRetirement.SucceedsOnEvidenceIff | tools/release/drive_retirement.py:77-176 | On any evidence at all, each phase succeeds exactly when the transaction is named, the digest well formed and the mode's own facts hold, counts of unresolved items and dependencies included. |
| DriveRetirement.ReceiptMeaning | tools/release/drive_retirement.py:90-142 | A receipt names mode, transaction and ledger, has the status of its mode and performs nothing destructive. |
| IntentMigration.BuildMigrationProposal | src/atlas_ros/intent_memory_migration_v760.py:176-254 | The loop over sorted records builds the specified proposal with its id and sorted sources and targets, or fails when a record about to be created has an unusable timestamp. |
| IntentSelection.ProposalMeaning | src/atlas_ros/intent_memory_migration_v760.py:193-272 | One item for every record in identity order: a creation exactly for attributable, confirmed, current, complete records whose id is not known, with the first reason that holds and evidence in the record's own fields. |
| IntentSelection.ExistsExactly | src/atlas_ros/intent_memory_migration_v760.py:200-228 | A proposal exists exactly when every record to be migrated has a usable timestamp. |
| IntentSelection.NeverMigrated | src/atlas_ros/intent_memory_migration_v760.py:257-269 | Speculative, unattributable, unconfirmed, stale, contradictory and retired records never become evidence. |
| IntentSelection.ListsMeaning | src/atlas_ros/intent_memory_migration_v760.py:184-190 | The snapshot has an entry for every record and no other, and the known ids are kept, both sorted. |
| IntentMigration.ContributionPermuted | src/atlas_ros/intent_memory_migration_v760.py:193-241 | What records contribute does not depend on their order. |
| IntentMigration.ProposalCreates | src/atlas_ros/intent_memory_migration_v760.py:242-253 | Creates plus skips are the records, and the created evidence is exactly what the records contribute, sorting notwithstanding. |
| IntentMigration.ProposalExistsIff | src/atlas_ros/intent_memory_migration_v760.py:211-228 | A proposal exists exactly when every record about to be created has a valid timestamp. |
| IntentMigration.SecondProposalCreatesNothing | src/atlas_ros/intent_memory_migration_v760.py:208-209 | Feeding the created ids back as existing leaves nothing to create. |
| IntentMigration.OrderDoesNotMatter | src/atlas_ros/intent_memory_migration_v760.py:184-254 | With unique identities every order of the records gives the same proposal. |
| IntentMigration.OrderFreeIff | src/atlas_ros/intent_memory_migration_v760.py:184-254 | Every order of the records gives one result exactly when there is no proposal or records of one identity come out as one item. |
| IntentBatches.NoDuplicatesIff | src/atlas_ros/intent_memory_migration_v760.py:193-241 | The created evidence ids of a proposal are pairwise different exactly when no two records it creates from share one. |
| IntentBatches.RepeatedRecordCreatedTwice | src/atlas_ros/intent_memory_migration_v760.py:193-241 | Any record that creates evidence, given twice, is created twice under one id. |
| IntentBatches.TwoProposalsExist | src/atlas_ros/intent_memory_migration_v760.py:184-254 | One proposal for two batches exists exactly when each has one by itself; then the second has one after the first, and conversely when they share no id. |
| IntentBatches.TwoProposalsIff | src/atlas_ros/intent_memory_migration_v760.py:184-254 | Two proposals, the second told of the ids the first created, create the evidence of one exactly when they share no id. |
| IntentBatches.ProposalsInTurnAgree | src/atlas_ros/intent_memory_migration_v760.py:184-254 | With pairwise different evidence ids, any series of proposals fed forward exists exactly when the single one does, and creates the same evidence. |
| IntentMemory.AppliesTo | src/atlas_ros/intent_memory_v760.py:69-77 | The loop over the five optional attributes decides whether every attribute the scope names is the same in the request. |
| IntentMemory.DecideIntentEligibility | src/atlas_ros/intent_memory_v760.py:363-464 | The accumulating decision meets a declarative reading: overrides first, then exactly the reasons that hold, clarification exactly when one of them asks, eligible exactly when none holds. |
| IntentMemory.ReviewRecord | src/atlas_ros/intent_memory_v760.py:413-440 | The second half of the decision gathers exactly the reasons about recency, contradiction, mark, confidence and source. |
| IntentEligibility.UsableIff | src/atlas_ros/intent_memory_v760.py:399-464 | When evidence may be used, in the fields of the evidence, the request and the policy, thresholds and windows as numbers. |
| IntentEligibility.DecisionMeaning | src/atlas_ros/intent_memory_v760.py:363-464 | Status, clarification, context match, overrides and precedence of every decision, in those fields. |
| IntentEligibility.ReasonsMeaning | src/atlas_ros/intent_memory_v760.py:399-464 | Exactly which reason codes a decision carries, each in the fields it is about. |
| IntentEligibility.RecencyMeaning | src/atlas_ros/intent_memory_v760.py:348-360 | The four recency states as intervals of the evidence's age. |
| IntentControls.ExclusionPromiseIff | src/atlas_ros/intent_memory_v760.py:418-432 | Only current, uncontradicted evidence is ever eligible exactly when all three clarification switches of the policy are on. |
| IntentControls.AgeLimitIff | src/atlas_ros/intent_memory_v760.py:204-217 | The longest inference age bounds eligible evidence exactly when the stale switch is on. |
| IntentControls.InferenceWindowIsConvex | src/atlas_ros/intent_memory_v760.py:348-360 | Evidence eligible at two times is eligible at every time between. |
| IntentEligibility.CorrectionMeaning | src/atlas_ros/intent_memory_v760.py:525-587 | When a correction is accepted, what it marks on the original, and that the successor says what the correction says in the original's scope. |
| IntentEligibility.MarkingMeaning | src/atlas_ros/intent_memory_v760.py:590-639 | Retirement and forgetting requests change the state and the mark of the record and nothing else. |
| IntentControls.ControlsKeepGovernance | src/atlas_ros/intent_memory_v760.py:525-639 | Over any run of corrections, retirements and forgetting requests, made by unvalidated copies, every record still meets its contract, keeps its content, and once withdrawn is never eligible again for any request. |
| IntentControls.ActiveBalance | src/atlas_ros/intent_memory_v760.py:525-639 | Active records plus withdrawals equal the initial ones plus corrections of records already withdrawn. |
| IntentControls.SuccessorInferredIff | src/atlas_ros/intent_memory_v760.py:546-565 | A correction's successor may be inferred from exactly under a condition on the correction, the request and the scope; the corrected record's state plays no part. |
| IntentControls.RetiredThenCorrected | src/atlas_ros/intent_memory_v760.py:541-601 | Whatever the record, retired and then corrected: the record is never inferred from again, its successor exactly as any correction's. |
| IntentControls.NothingRevivedIff | src/atlas_ros/intent_memory_v760.py:525-639 | Over any run of controls no withdrawn record gets an active, usable successor exactly when no accepted correction meets a withdrawn record. |
| IntentControls.RevivalForetoldIff | src/atlas_ros/intent_memory_v760.py:525-639 | The same from the starting records and the actions alone: no accepted correction is of a record withdrawn from the start or by an earlier accepted action. |
| IntentControls.RequestStaysIff | src/atlas_ros/intent_memory_v760.py:541-627 | A forgetting request stays pending throughout a run exactly when the record is never retired or corrected in it. |
| IntentIndex.SortedSetSorts | src/atlas_ros/intent_memory_v760.py:479-486 | The sorted tuple of a set is sorted, without repeats, and holds its elements. |
| IntentIndex.IndexIsValid | src/atlas_ros/intent_memory_v760.py:254-262 | A built index always meets its own contract and splits the known ids into active and excluded, each once. |
| IntentEligibility.IndexContents | src/atlas_ros/intent_memory_v760.py:487-500 | The index gives the digest of every id's last record and keeps every decision, in order of id. |
| IntentIndex.IndexExistsIff | src/atlas_ros/intent_memory_v760.py:475-478 | An index exists exactly when records and decisions have the same ids, however often each is listed. |
| IntentIndex.LastRecordDecides | src/atlas_ros/intent_memory_v760.py:467-500 | Whatever ids repeat, with decisions made by the rules an id is active exactly when the last record of that id may be inferred from, and excluded otherwise. |
| IntentIndex.ActiveIffMayInfer | src/atlas_ros/intent_memory_v760.py:467-500 | With decisions made by the rules the index exists, and its active ids are exactly the evidence that may be inferred from if and only if records of one id are judged alike. |
| IntentIndex.WithdrawnStayExcluded | src/atlas_ros/intent_memory_v760.py:467-500 | After any run of controls the id of a withdrawn record is excluded exactly when the last record of that id may not be inferred from; in particular when the record is itself the last. |
| IntentIndex.ExcludedThroughoutIff | src/atlas_ros/intent_memory_v760.py:475-565 | An id whose last record is withdrawn is excluded from every index of a run, for every request, exactly when no accepted correction in the run takes the id. |
| IntentIndex.ReusedIdComesBack | src/atlas_ros/intent_memory_v760.py:541-565 | A withdrawn record corrected under its own id is active in the index exactly when the correction is usable, and excluded otherwise. |
| IntentIndex.IndexIgnoresOrder | src/atlas_ros/intent_memory_v760.py:475-500 | With distinct ids the index does not depend on the order of records and decisions. |
| IntentIndex.OrderFreeIff | src/atlas_ros/intent_memory_v760.py:475-500 | Where an index exists, every order of the inputs gives it exactly when records of one id have one digest and decisions of one id are equal. |
| IntentIndex.RepeatedIdDependsOnOrder | src/atlas_ros/intent_memory_v760.py:475-486 | An eligible and a refused decision for one id: the last of them decides whether the id is active. |
| CommunicationPolicy.BoundedUnique | src/atlas_ros/user_communication_policy_v761.py:180-188 | The early-leaving loop returns the first entries, up to the limit, of the full list of distinct non-blank stripped values. |
| CommunicationPolicy.StrippedDistinctMeaning | src/atlas_ros/user_communication_policy_v761.py:180-188 | That list has no repeats, nothing blank, nothing missing, and keeps the order of first occurrence. |
| CommunicationPolicy.Collect | src/atlas_ros/user_communication_policy_v761.py:88-102 | The loop over preferences gathers the behaviours and ids of exactly the applied preferences, and the ids of the others, in order. |
| CommunicationPolicy.Compile | src/atlas_ros/user_communication_policy_v761.py:53-119 | Compilation yields the specified policy as its own contract accepts or refuses it. |
| CommunicationPolicy.DirectivesStartWithBase | src/atlas_ros/user_communication_policy_v761.py:19-27 | Whatever the profile and the request, the seven base directives come first. |
| CommunicationPolicy.NeverRefused | src/atlas_ros/user_communication_contracts_v761.py:323-334 | On a valid profile the compiled policy always passes its own contract. |
| CommunicationPolicy.IdsPartitionProfile | src/atlas_ros/user_communication_policy_v761.py:88-118 | Every preference of the profile is reported exactly once, as applied exactly when it applies. |
| CommunicationMeaning.AppliedExactly | src/atlas_ros/user_communication_policy_v761.py:79-177 | A preference is applied exactly when mode, version, repository, user, workspace, review date, switch, context, instructions and authority allow it and the preference's own conditions hold, confidence floors as numbers; otherwise it is excluded. |
| CommunicationMeaning.OtherUserMeansBaseline | src/atlas_ros/user_communication_policy_v761.py:135-138 | Another user's or workspace's profile compiles to the profile-free directives. |
| CommunicationMeaning.DirectivesExactly | src/atlas_ros/user_communication_policy_v761.py:88-106 | Directives come only from the base, the applied preferences and the instructions, and all of them unless the limit is reached; avoided patterns likewise. |
| CommunicationMeaning.WithinLimits | src/atlas_ros/user_communication_policy_v761.py:88-106 | At most sixteen directives and twelve avoided patterns, none twice. |
| CommunicationMeaning.PolicyRecords | src/atlas_ros/user_communication_policy_v761.py:107-119 | What the policy records of the request, the mode and the profile. |
| CommunicationPolicy.ClosedGateMeansBaseline | src/atlas_ros/user_communication_policy_v761.py:79-87 | With any gate closed the directives are those compiled without a profile. |
| CommunicationPolicy.AppliedOnlyShrinks | src/atlas_ros/user_communication_policy_v761.py:141-177 | Time passing, or the decision becoming consequential, only takes applied preferences away. |
| CommunicationPolicy.DisabledStaysOutIff | src/atlas_ros/user_communication_policy_v761.py:79-102 | Nothing the bundle itself disables is ever applied, for any request, exactly when no preference and context that some request could apply is disabled in the bundle. |
| CommunicationPolicy.DisabledPreferenceApplied | src/atlas_ros/user_communication_contracts_v761.py:281-286 | A valid bundle whose disabled preference is applied in a disabled context. |
| Substrings.FindMeaning | src/atlas_ros/user_communication_playbooks_v761.py:201-208 | The search returns the first occurrence at or after its start, or none. |
| CareerLanguage.ReplaceCasefold | src/atlas_ros/user_communication_playbooks_v761.py:201-209 | For a nonempty target the rescanning loop terminates and equals the recursion that replaces the leftmost match and goes on behind it, even when the replacement contains the target. |
| CareerLanguage.CutRejoins | src/atlas_ros/user_communication_playbooks_v761.py:201-209 | The input is its gaps with the matched texts between them. |
| CareerLanguage.ReplacementKeepsGaps | src/atlas_ros/user_communication_playbooks_v761.py:201-209 | The result is the same gaps with the replacement between them. |
| CareerLanguage.MatchesAreLeftmost | src/atlas_ros/user_communication_playbooks_v761.py:201-209 | Each match is the target in some case and the first one in its gap and itself; no gap contains the target. |
| CareerLanguage.Strengthen | src/atlas_ros/user_communication_playbooks_v761.py:124-135 | The loop over weak verbs rewrites, records and skips as the recursive playbook does. |
| CareerLanguage.StrengthenCareerLanguage | src/atlas_ros/user_communication_playbooks_v761.py:117-142 | The same for the five weak verbs of the playbook. |
| CareerLanguage.NoEvidenceNoChange | src/atlas_ros/user_communication_playbooks_v761.py:130-135 | Without supporting evidence nothing is rewritten and exactly the verbs that occur are reported. |
| CareerReport.ReportRetells | src/atlas_ros/user_communication_playbooks_v761.py:117-142 | The reported replacements, made in order on the statement, give the revision; each is of a listed verb by its supporting text, and skipped verbs have none. |
| CareerReport.TurnReports | src/atlas_ros/user_communication_playbooks_v761.py:127-135 | Each verb in its turn is reported exactly when the text then contains it, and replaced exactly when evidence supports it. |
| CareerLanguage.OccursAfterTurn | src/atlas_ros/user_communication_playbooks_v761.py:128-133 | When no occurrence of a verb can lie partly in the inserted text, the verb occurs after a turn exactly when it stood between the matches or a match was replaced by a text containing it. |
| CareerLanguage.SurvivesOwnTurnIff | src/atlas_ros/user_communication_playbooks_v761.py:128-133 | When no occurrence of the verb can lie partly in its replacement, it survives its turn exactly when it occurred and its replacement contains it. |
| CareerLanguage.SurvivesOnlyIff | src/atlas_ros/user_communication_playbooks_v761.py:128-133 | For a verb that cannot overlap itself, that holds of every text exactly when the replacement contains the verb or is set apart from it. |
| CareerLanguage.WeakVerbsBorderless | src/atlas_ros/user_communication_playbooks_v761.py:123 | None of the five weak verbs can overlap itself. |
| CareerLanguage.DirectedLeavesSupported | src/atlas_ros/user_communication_playbooks_v761.py:201-209 | A text in which "supported" survives being replaced by "directed". |
| CareerLanguage.LedSetApart | src/atlas_ros/user_communication_playbooks_v761.py:201-209 | "led" is set apart from "helped". |
| CareerLanguage.InsertedVerbRewritten | src/atlas_ros/user_communication_playbooks_v761.py:128-133 | Text inserted for one verb is rewritten again when it is a later supported verb. |

## Left out

- SHA-256 and canonical JSON encoding: digest functions are parameters. The hex format is kept where a branch depends on it (`MigrationLedger`, `DriveRetirement`).
- JSON values of the wrong Python type inside a record, except malformed tree nodes, the kinds of numbers in a ledger and the kinds of Todoist payload fields; Pydantic length limits and message texts.
- Files, command lines, SQLite pragmas, file modes and the write-ahead log; only "a raising call rolls back" is kept of the database.
- Timestamp columns of the journal, which nothing reads, and `snapshot`, which only reads.
- The journal's operations table is grouped by transaction id, which its primary key and foreign key allow; the row order in a group is the order of insertion.
- Unicode case folding that changes a text's length; folding is by character.
- The review's fixed constants (92 folders, exclusion classes, excluded items, detected major versions): closed checks without a deeper property. `ReviewSubtree` keeps the search, the reviewed set, the candidates and the counts.
- `record_verified_forgetting`, receipts and tombstones of the user controls, terminology normalisation, and evidence fields the controls only copy: flat checks.
- The memory that user controls act on: the code returns the changed records and leaves storing them to its caller; `Step` puts a changed record in place of the old one and a successor behind, as `docs/runbooks/V760_INTENT_MEMORY_OPERATOR.md:10-16` asks.
- `adapt_v750_evidence` and `adapt_v752_event` copy fields of earlier record formats; `simulate_retirement_transaction` lists fixed actions behind the same guards; the decision, conflict, delegation, workload and sensitive-discussion playbooks collect reason codes from independent flags.
- `AttendedAuthorizationService` and execution without a journal: the first is a flat gate, the second does less than what is modelled.
- `tools/release/final_controller.py`, `transaction_simulation.py`, rollback evidence and the release compilers: flat conjunctions, or behaviour that rests on rendering modules which are not part of this model.
- ReviewAccounts: leaves out the title, fixed-count, scope, exclusion-class and digest checks that come before and after the search, the candidates and the counts; each compares one field with a constant or a stored digest.
- RaisingCallRollsBack: speaks of the specification functions; that partial inserts are really undone is the contract of `SQLiteExecutionJournal.BeginTransaction`, the only call that can raise after a write.
- BuildMigrationProposal: the snapshot is carried itself instead of its digest.
- OccursAfterTurn: asks that the inserted text be set apart from the verb; for the turn's own verb `SurvivesOnlyIff` shows the condition exact, for another verb the texts on either side decide the rest.
- ExpandAndValidate: the file-inventory validator itself is not part of this model; its answer is a parameter.
- DecideIntentEligibility: reason codes leave as a set of constructors; that the code renders them as a sorted tuple of strings is not modelled.
- ReplaceCasefold: requires a nonempty target, as every caller passes; with an empty one the loop of the code need not end.
