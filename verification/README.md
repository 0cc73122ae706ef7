# Hosq verification

Hosq watches EVM chains for events that ask it to keep IPFS content pinned until a block, pins the
content on its IPFS nodes, and keeps a ledger of what is pinned where. This project models its three
stateful parts in Dafny and proves what they guarantee:

- **The pin lifecycle** (`src/services/ipfs_watcher.rs` over `src/db.rs`). For every chain a pin, a retry
  and an unpin loop share the tables `pinned_cids`, `failed_pins` and `event_update_valid_block`, and
  spawn detached work that calls one node and then runs one SQL statement. `PinMachine` is a step machine
  in which each step is one statement, one node call or one scanned log. The two statements of a tick
  hold the shared connection (`closure`), so that of the other statements only event inserts can land
  between them; node calls can, too. Heads are arbitrary values, and may go backwards. A life of the process
  is a run, and a stop between two lives keeps the tables and loses the spawned work (`Stopped`).
  `Watching.Watcher` is the imperative form, and each of its methods is proved to be a run of the machine;
  its ticks let arriving logs in between their statements, but no node calls.
- **The log scanner** (`get_logs!`, `watch_event!` and `update_valid_block` in
  `src/services/contract_watcher.rs`): `Scanner` holds the paging loop, in `Int64` arithmetic, so that
  overflow is ruled out by the types; `Restart` adds crashes at any point.
- **The guarded registry updates** (the four `update_provider_*` statements): `Registry`.

`Tables` says what each query selects, joins included; `Db.Client` has one method a statement, and `Ticks`
states what each tick, statement and node call comes to, in terms of the rows and events alone. In a run,
a value selected by a tick counts as in flight from the moment it is selected: one that still waits in
the spawning `for` loop and one spawned but not yet sent cannot be told apart by any other step.

## Main results

- `Guarantees.NoPromiseLost`: from any state and in every interleaving, what a selection fans out to a
  node is pinned there at least as long, or recorded as failed, or still on its first attempt, until a
  later unpin or retry tick of that chain uses a head at or past its end block. Heads used before the
  selection do not matter unless an unpin call for the same copy is left over from them.
  `Guarantees.PromiseLostIff` gives the exact condition for that exception in every reachable state, and
  `Witness.StaleUnpinLosesPromise` a run from the empty state that meets it.
- `Guarantees.PermanentPromiseIff`: a permanent obligation is kept exactly until a purge finds only its failure
  or a renewal that meets a live event finds only its row.
- `Ticks.SelectTick`, `Ticks.UnpinTick` and `Ticks.RetryTick`: for every task, how often a tick spawns it, and
  for every row, whether it stays; `Ticks.TickHoldsConnection`: whatever the interleaving, nothing but arriving
  logs and node calls comes between a tick's two statements.
- `Ledger.EveryRowIsTrue` and `Ledger.LedgerEqualsReality`: in serialised runs every ledger row is true,
  whatever the number of chains, and on one chain the ledger equals what the nodes hold. With several
  chains the two agree throughout a run exactly when each multi-chain delete leaves another row for every
  copy it drops (`Ledger.LedgerAgreesIffSparing`); `Witness.SweepCanStrandACopy` is a run where one does not.
- `Truth.RowsBackedIff`: in every interleaving, with retries, failing calls and lost answers, each row stays
  backed by its node exactly if no step is one of three kinds. `Truth.RenewalsNeverFailIff`: no renewal can
  ever break the key exactly if no pin is recorded beside another row of its copy. Retries do both even when
  each tick's work ends before the next tick: a retry after a longer event gives a copy two rows, so that
  every renewal of the chain at a head below the longer end fails (`Witness.RetryBlocksRenewal`), and the
  unpin of the shorter row takes the copy from the longer one (`Witness.RetryUnpinsLiveCid`).
- `Coverage.CoveredIff` and `Coverage.AbandonedIff`: exactly which steps leave a node with no row, failure
  or attempt for a cid that its chain keeps, and that such a node is not tried again as long as the chain
  keeps a row. `Witness.RenewalAbandonsFailedNode`: a renewal followed by a retry tick does this
  to a cid whose event is still live, because the renewal does not touch `failed_pins`.
- `Lives.StopThenPinTick` and `Lives.CoveredInLivesIff`: which of the work that a stop loses the next life
  takes up again, and which node it abandons (`Witness.StopAbandonsNode`).
- `Guarantees.LastHolderNeverDroppedSilently` and `Guarantees.EverythingTraced`: safety of every
  interleaving, through any number of lives.
- `Guarantees.RenewalProtects` and `Guarantees.RenewThenUnpin`: a renewal protects live cids from the unpin tick
  at the same head, up to one kind of step (`Witness.StaleInsertExposesLiveCid`).
- `Renewal.RenewalReachesMaximum`: although each row takes any matching event, the renewal `UPDATE`, repeated
  as often as there are live end blocks, gives every live cid its largest end block.
- `Scanner.RowStoredIffTurn`, `Scanner.InsertedPerWindow` and `Scanner.RetriedIffOnBorder`: exactly which rows
  the observed heads, fetches and inserts leave, and which logs a failed fetch or insert loses.
- `Restart.CrashSafeIngest` and `Restart.CaughtUpAtHead`: after any crashes, one life that sees a head
  beyond its resume block completes the table. Without such a head it adds nothing, and the tail of the
  newest block can be missing (`StandingHeadLosesTail`). From any table at all, `Restart.CaughtUpIff` gives the
  exact condition for completeness, and `Restart.RecoverableIff` the rows that later lives can still store.
- `Registry.AppliedIffRecord` and `Registry.DeliverWritesRecords`: the updates that take effect are
  exactly the strict left-to-right maxima of the block numbers.

Where the code and its comments differ, the code is followed. The comment at
`src/services/contract_watcher.rs:102` says that failed inserts are retried in the next loop. That holds
only for a log in the window's last block, and only if the next window starts there and is fetched
(`Scanner.RetriedIffOnBorder`); any other log is lost to this life (`Scanner.FailedInsertLosesInnerLog`), and
to all later ones unless a restart resumes at or below its block (`Restart.RecoverableIff`,
`Restart.RestartRecoversFailedInsert`). `-1` is treated as "for ever" only where the code does so
(`Guarantees.PermanentRowStaysIff`, `Guarantees.PermanentPromiseIff`, `Guarantees.PermanentFailureForgotten`).

Check the project with `dafny verify dfyconfig.toml`.

## Model

| member | source | states |
|---|---|---|
| Tables.LowerSpec | src/db.rs:12-25 | lower-casing moves each letter from A to Z by 32 places, changes nothing else and leaves no capital letter |
| Db.Client.AddValidBlock | src/db.rs:6-17 | the event is in the table once, with a lower-case donor, however often it is added |
| Db.Client.AddProvider | src/db.rs:19-30 | inserting an existing registry row changes nothing and reports no row |
| Db.Client.UpdateProviderBlockPrice | src/db.rs:32-47 | guarded price update, all or nothing on a key conflict |
| Db.Client.UpdateProviderApiUrl | src/db.rs:49-64 | guarded URL update, all or nothing on a key conflict |
| Db.Client.UpdateProviderOwner | src/db.rs:66-81 | guarded owner update, all or nothing on a key conflict |
| Db.Client.UpdateProviderName | src/db.rs:83-98 | guarded name update, all or nothing on a key conflict |
| Tables.MaxUpdateBlock | src/db.rs:115-129 | the largest update block of the chain, and no value exactly when it has no event |
| Db.Client.DeleteCid | src/db.rs:131-141 | removes the row with exactly this end block and no other |
| Db.Client.AddCid | src/db.rs:143-155 | a plain insert: an existing key is an error that changes nothing |
| Db.Client.AddFailedPin | src/db.rs:157-170 | records a failure once |
| Db.Client.DeleteMultichainExpiredCids | src/db.rs:172-183 | drops exactly the chain's rows that end at or before the head, are not -1, and whose cid another chain has |
| Db.Client.GetSingleChainExpiredCids | src/db.rs:185-209 | lists each of the chain's rows that end at or before the head and are not -1 once |
| Selection.JoinFiltersNothing | src/db.rs:190-194 | the left join of that query excludes no expired row |
| Selection.UnpinPartition | src/services/ipfs_watcher.rs:164-174 | the two unpin statements split the rows past their end and not permanent by whether another chain has the cid, and leave all others alone |
| Ticks.TickHoldsConnection | src/services/ipfs_watcher.rs:33-164 | in any interleaving only arriving logs and node calls come between the two statements of a tick, and both ledger tables stay as the first left them |
| Ticks.UnpinTick | src/services/ipfs_watcher.rs:145-196 | a whole unpin tick drops the past rows whose cid another chain has and spawns one unpin for each other past row on a configured node, and nothing else |
| Ticks.RetryTick | src/services/ipfs_watcher.rs:95-143 | a whole retry tick drops the failures that end at or before the head and spawns one retry for each other failure of the chain, and nothing else |
| Ticks.RenewTick | src/db.rs:211-222 | a row is renewed iff an event of its chain and cid ends after the head and after the row, and takes the end of such an event |
| Ticks.RenewCanTake | src/db.rs:211-222 | any of those events may be the one whose end the row takes |
| Ticks.SelectTick | src/services/ipfs_watcher.rs:43-85 | a selection spawns one first attempt a configured node for exactly the cids without a row that have a permanent or live event, with the largest such end |
| Ticks.WantedIsFannedOut | src/db.rs:230-240 | at every head each permanent or live event of a cid without a row gets that cid to every configured node |
| Ticks.NodeAnswers | src/services/ipfs_watcher.rs:231-299 | a node can be called at any time and may succeed, succeed without an answer, or fail |
| Ticks.TaskRuns | src/services/ipfs_watcher.rs:224-323 | what one spawned call and its statement do to the node, the rows and the failures |
| Db.Client.UpdateExistingCidsEndBlock | src/db.rs:211-222 | each matched row takes some matching end block; an error means two rows of one copy could meet, and changes nothing |
| Db.Client.GetNewCids | src/db.rs:224-249 | lists each cid without a row on the chain that has a permanent or live event there, with the largest such end block |
| Selection.NewCidsSpec | src/db.rs:224-249 | a cid is returned once, with its largest active end block, iff the chain has no row for it |
| Db.Client.DeleteExpiredFailedCids | src/db.rs:251-260 | drops exactly the chain's failures ending at or before the head, permanent ones included |
| Db.Client.GetFailedCids | src/db.rs:262-285 | lists exactly the chain's failures ending after the head |
| Renewal.RenewalKeepsKey | src/db.rs:211-222 | with one row per copy the update cannot fail and keeps one row per copy |
| Renewal.ConflictIff | src/db.rs:211-222 | the renewal can fail at a head iff some copy of the chain has two rows and a live event ending at or past the longer one |
| Renewal.ConflictAtSomeHeadIff | src/db.rs:211-222 | over a table written from events it can fail at some head iff some copy of the chain has two rows |
| Renewal.TwinBlocksRenewal | src/db.rs:211-222 | a row whose only live end block is that of another row of its copy makes every renewal at that head fail |
| Renewal.RenewalShrinksChoices | src/db.rs:216-220 | a changed row has strictly fewer live end blocks above it, and a row changes iff it has any |
| Renewal.ChoicesRunOut | src/db.rs:211-222 | after k renewals no row has more than the number of live end blocks minus k choices |
| Renewal.RenewalConverges | src/db.rs:211-222 | as many renewals as there are live end blocks settle the table, whatever is chosen |
| Renewal.SettledIsFixedPoint | src/db.rs:211-222 | a settled table is exactly one that the update leaves alone |
| Renewal.SettledCarriesMaximum | src/db.rs:211-222 | in a settled table a row whose cid has a live event carries the largest live end block |
| Renewal.RenewalReachesMaximum | src/db.rs:211-222 | whatever each row takes, as many renewals as live end blocks give every row of a live cid the chain's largest end block for it |
| Renewal.RenewalProtectsLive | src/services/ipfs_watcher.rs:33-46 | after a renewal at a head, no row whose cid had a live event counts as expired there |
| Renewal.PermanentSurvivesRenewal | src/db.rs:216-220 | a permanent row leaves the table iff its cid has a live event on the chain |
| Guarantees.NoPromiseLost | src/services/ipfs_watcher.rs:72-279 | from any state a fanned-out pin obligation is kept in every interleaving until a later tick of its chain reaches its end block, if no unpin call for the same copy and an end as late is left over |
| Guarantees.StepKeepsPromise | src/services/ipfs_watcher.rs:13-323 | every single statement, node call or arrival but such a tick keeps the obligation and lets no unpin work reach it |
| Guarantees.PromiseLostIff | src/services/ipfs_watcher.rs:164-196 | in every reachable state a freshly selected obligation with a real end block can be lost early iff an unpin call for the very same row is left over and no failure is on record for it |
| Guarantees.NoPromiseLostBeforeExpiry | src/services/ipfs_watcher.rs:72-279 | in a life none of whose unpin and retry ticks reached the end block no obligation is lost |
| Witness.StaleUnpinLosesPromise | src/services/ipfs_watcher.rs:281-323 | a run from the empty state after which a leftover rm call can delete the row of a new obligation |
| Guarantees.HistoryIsExact | src/services/ipfs_watcher.rs:281-306 | over any run, exactly the scanned logs and the acknowledged rm calls among its steps are remembered |
| Guarantees.LiveFailureIsRetried | src/services/ipfs_watcher.rs:109-132 | each retry tick tries every live failure again, and a failure leaves its table only by expiry |
| Guarantees.EverythingTraced | src/services/contract_watcher.rs:200-236 | from empty tables, through any number of lives, every row, failure and in-flight call comes from an event, and that from a scanned log for a configured provider of the chain |
| Guarantees.EventsAreTheLogs | src/services/contract_watcher.rs:177-243 | through any number of lives the event table holds exactly the rows that scanned logs describe for their providers |
| Guarantees.LastHolderNeverDroppedSilently | src/services/ipfs_watcher.rs:281-323 | over any number of lives the ledger loses a cid only in a step that deletes its last row after that node acknowledged rm |
| Selection.MultichainKeepsAHolder | src/db.rs:172-183 | the multi-chain delete leaves a row of another chain for every cid it touches |
| Guarantees.PermanentRowLostOnlyByRenewal | src/db.rs:172-222 | the step that takes a permanent row out of the ledger is a renewal of its chain that sees a live event for its cid, and each such renewal does |
| Guarantees.PermanentRowStaysIff | src/db.rs:172-222 | a permanent row stays through a whole run iff no renewal in it sees a live event for its cid |
| Guarantees.PermanentPromiseIff | src/services/ipfs_watcher.rs:33-143 | from its fan-out a permanent obligation has a row, a failure or a first attempt throughout a run iff no purge finds only its failure and no renewal with a live event only its row |
| Guarantees.PermanentFailureForgotten | src/db.rs:251-285 | in every life a permanent pin that failed is never retried |
| Guarantees.StepKeepsProtection | src/services/ipfs_watcher.rs:224-252 | the protection of live cids ends exactly with an insert whose end block is past for a cid with a live event |
| Guarantees.RenewalProtects | src/services/ipfs_watcher.rs:33-252 | live cids stay protected throughout a run of any loops iff no step is such an insert |
| Guarantees.RenewThenUnpin | src/services/ipfs_watcher.rs:33-174 | from a renewal to an unpin tick at the same head, without such an insert, no selected row had a live event at the renewal |
| Witness.StaleInsertExposesLiveCid | src/services/ipfs_watcher.rs:33-252 | a run in which such an insert makes the unpin tick select a cid with a live event |
| Guarantees.SelectedIffUnpinned | src/services/ipfs_watcher.rs:43-58 | a first attempt is fanned out to a node iff the cid is actively wanted and has no row on that chain |
| Truth.FalsifiesIff | src/services/ipfs_watcher.rs:33-323 | a step makes a row false iff it is an rm that takes a copy another row claims or whose answer is lost, a renewal of a row about to be deleted, or the insert of a pin whose copy is gone |
| Truth.RowsBackedIff | src/services/ipfs_watcher.rs:13-323 | in every interleaving, retries and lost answers included, rows are backed by their nodes throughout iff no such step occurs |
| Truth.StopFalsifiesIff | src/services/ipfs_watcher.rs:281-323 | a stop makes a row false iff its copy is gone and only its delete was still to come |
| Truth.OneRowPerCopyIff | src/services/ipfs_watcher.rs:224-252 | a copy never has two rows in a run of any loops iff no pin is recorded beside another row of its copy |
| Truth.RenewalCanFailIff | src/services/ipfs_watcher.rs:33-46 | in every reachable state the renewal of a chain can fail at some head iff some copy there has two rows |
| Truth.RenewalsNeverFailIff | src/services/ipfs_watcher.rs:33-46 | at no point of a run can any renewal fail iff no pin is recorded beside another row of its copy |
| Ledger.StepKeepsSound | src/services/ipfs_watcher.rs:33-323 | every serialised step keeps rows unique and true up to the half-done calls |
| Ledger.EveryRowIsTrue | src/services/ipfs_watcher.rs:145-323 | with any number of chains every ledger row is true at rest, with one row per chain, node and cid |
| Ledger.LedgerEqualsReality | src/services/ipfs_watcher.rs:13-323 | on one chain a node holds a cid at rest iff the ledger has a row for that node and cid |
| Ledger.RenewalNeverFails | src/services/ipfs_watcher.rs:33-46 | in serialised runs no renewal breaks the key, at any head |
| Ledger.StepKeepsNothingExtra | src/services/ipfs_watcher.rs:224-323 | no step but such a delete leaves a node with a copy that the ledger does not list or is about to list |
| Ledger.LedgerAgreesIffSparing | src/services/ipfs_watcher.rs:13-323 | with any number of chains ledger and nodes agree at every quiescent state of a serialised run iff each multi-chain delete leaves another row for every copy it drops |
| Ledger.SweepStrandsCopies | src/db.rs:172-183 | a multi-chain delete at rest parts ledger and nodes iff some dropped row has no surviving row of its node and cid |
| Witness.SweepCanStrandACopy | src/db.rs:172-183 | a serialised run whose multi-chain delete leaves a node with a copy no row lists, because the other chain's pin on that node had failed |
| Witness.FreshLogGetsPinned | src/services/ipfs_watcher.rs:13-93 | for any nodes and any set of them that is up, a log can end as a true row on each node that is up and a failure on each other |
| Witness.RetryBlocksRenewal | src/services/ipfs_watcher.rs:109-132 | an orderly run after which every pin tick of the chain at a head below 200 fails, because a retry gave a copy a second row |
| Witness.RetryUnpinsLiveCid | src/services/ipfs_watcher.rs:95-323 | an orderly run, each tick waiting for the work of the one before, that ends with a row of a live cid whose copy was unpinned for another row |
| Coverage.DropsIff | src/services/ipfs_watcher.rs:95-323 | exactly which step, in which state of the tables, leaves a node with no row, failure or first attempt for a cid its chain keeps |
| Coverage.CoveredIff | src/services/ipfs_watcher.rs:13-323 | over whole runs every node keeps a stake in each cid its chain keeps iff no such step occurs |
| Coverage.AbandonedIff | src/db.rs:224-285 | a node dropped with no retry under way gets no attempt, failure or row for the cid exactly as long as the chain has a row for it |
| Witness.RenewalAbandonsFailedNode | src/db.rs:211-260 | a run in which a renewal and then a retry tick abandon a node although the cid's event is live |
| Lives.CoveredInLivesIff | src/services/ipfs_watcher.rs:13-323 | over any number of lives no share of a kept cid is dropped iff no step and no stop drops it |
| Lives.StopThenPinTick | src/services/ipfs_watcher.rs:13-93 | after a stop one pin tick puts a wanted cid back in hand on a node iff the chain has no row for it or the node has a row or failure; otherwise the node is abandoned |
| Witness.StopAbandonsNode | src/services/ipfs_watcher.rs:224-279 | a run at whose end a stop abandons the second node of a live cid |
| PinMachine.FanOutSpec | src/services/ipfs_watcher.rs:72-93 | first attempts go to every configured node and nowhere else |
| PinMachine.UnpinTasksSpec | src/services/ipfs_watcher.rs:86-91 | a row is unpinned iff its node is still configured |
| Watching.Watcher.PinChainCids | src/services/ipfs_watcher.rs:13-70 | one turn of the pin loop is a run of the machine: renewal, the arriving logs in order, selection |
| Watching.Watcher.UnpinCids | src/services/ipfs_watcher.rs:145-196 | one turn of the unpin loop is a run of the machine: sweep, the arriving logs in order, selection |
| Watching.Watcher.RetryFailedCids | src/services/ipfs_watcher.rs:95-143 | one turn of the retry loop is a run of the machine: purge, the arriving logs in order, selection |
| Watching.Watcher.RunTask | src/services/ipfs_watcher.rs:198-323 | a spawned call and its statement are the machine's two steps; failed retries and rm calls leave no statement |
| Watching.Watcher.PinAll | src/services/ipfs_watcher.rs:55-85 | the nested loops over cids and nodes spawn exactly the fan-out |
| Watching.Watcher.UnpinFromItsNode | src/services/ipfs_watcher.rs:78-92 | one unpin is spawned for the first node with the row's URL, none if it is gone |
| Scanner.TurnSpec | src/services/contract_watcher.rs:22-99 | for every cursor and observation: where a turn leaves the cursor, which blocks it asks for, and that its attempt reports the turn's own outcome |
| Scanner.RowStoredIffTurn | src/services/contract_watcher.rs:19-134 | over any turns a row is stored iff some turn whose fetch succeeds asks for the block of a log that describes it and whose insert does not fail |
| Scanner.TakeTurn | src/services/contract_watcher.rs:22-131 | one turn of the loop moves the cursor and stores the window's matching logs whose inserts succeed, without i64 overflow |
| Scanner.GetLogs | src/services/contract_watcher.rs:19-134 | the loop stores exactly the rows whose inserts succeed in the windows that are fetched |
| Scanner.WatchEvent | src/services/contract_watcher.rs:136-175 | scanning resumes from the table's maximum or the configured start, whichever is later |
| Logs.HandleSpec | src/services/contract_watcher.rs:183-236 | short data, other providers' logs and stored logs, in terms of the log's fields |
| Scanner.UpdateValidBlock | src/services/contract_watcher.rs:177-243 | a log is stored iff its data is long enough, it is for this provider and the database takes it; the answer is an error iff the data is short or the database refuses a log for this provider |
| Logs.AsI64Spec | src/services/contract_watcher.rs:201-209 | the cast from u64 keeps all 64 bits: one to one into the i64 range, the largest value to -1 |
| Scanner.WindowsTile | src/services/contract_watcher.rs:41-87 | windows stay within head and batch size and share one endpoint each, or with skipping reach their head after a gap; the cursor never goes back |
| Scanner.UnattemptedIsGaps | src/services/contract_watcher.rs:41-87 | the blocks never attempted up to the cursor are exactly those in the gaps, and none without skipping |
| Scanner.BlockInAtMostTwoWindows | src/services/contract_watcher.rs:65-87 | two windows meet only as neighbours, in their common endpoint |
| Scanner.LossIsPerWindow | src/services/contract_watcher.rs:65-99 | without skipping a block is unfetched iff its window failed, on a border iff both did |
| Scanner.StoredIffSomeInsertSucceeded | src/services/contract_watcher.rs:88-111 | a matching log's row is stored iff in some fetched window holding its block an insert of that row succeeded |
| Scanner.InsertedPerWindow | src/services/contract_watcher.rs:65-111 | without skipping a log gets past its insert iff it does so in its window or, on a border, in the neighbour |
| Scanner.RetriedIffOnBorder | src/services/contract_watcher.rs:65-111 | a log is handed to the handler again iff its block is its window's last, the next window starts there and that window is fetched |
| Scanner.FailedInsertLosesInnerLog | src/services/contract_watcher.rs:100-111 | of two logs whose inserts fail in one window the next window stores the border one and never the other |
| Scanner.PagedScanRefinesOnePass | src/services/contract_watcher.rs:65-111 | without failed fetches, failed inserts and skipping, paging stores what one query from start to cursor would |
| Scanner.CatchUp | src/services/contract_watcher.rs:50-87 | against a fixed head the cursor gains one batch a fetch and arrives after exactly the rounded-up number of batches |
| Restart.FeedAscending | src/services/contract_watcher.rs:65-111 | overlapping windows still hand logs to the handler in ascending block order |
| Restart.LifeKeepsResumable | src/services/contract_watcher.rs:141-153 | whatever the point of a crash, everything below the resume block is stored and nothing unexpected is |
| Restart.CrashSafeIngest | src/services/contract_watcher.rs:136-175 | after any crashes, a life that sees a head beyond its resume block leaves exactly the expected rows up to its cursor |
| Restart.CaughtUpAtHead | src/services/contract_watcher.rs:136-175 | after any crashes, enough turns at one such head leave exactly the expected rows up to that head |
| Restart.CaughtUpIff | src/services/contract_watcher.rs:141-153 | from any table: a complete life without failures ends with every expected row iff all below its resume block was stored and it saw a head beyond that block or the block itself was stored in full; and with nothing else iff nothing else was there |
| Restart.RecoverableIff | src/services/contract_watcher.rs:136-175 | a missing row can still be stored by later lives iff a log says it and its block is not below the resume block |
| Restart.RestartRecoversFailedInsert | src/services/contract_watcher.rs:100-153 | a log whose insert fails in one life is stored by the next while nothing later is stored |
| Restart.OtherProviderHidesLog | src/services/contract_watcher.rs:141-153 | after another provider of the chain stored a later block no lives store an earlier unscanned log |
| Restart.FetchesIffHeadBeyond | src/services/contract_watcher.rs:50-58 | a life fetches at all iff it observes a head beyond its start |
| Restart.NoFetchAddsNothing | src/services/contract_watcher.rs:50-58 | without such a head the table stays as the crash left it |
| Restart.StandingHeadLosesTail | src/services/contract_watcher.rs:141-153 | a crash between two logs of the newest block loses the second while the head stays there |
| Registry.StatementSpec | src/db.rs:32-98 | a statement fails, changing nothing, iff two rows would meet; else each row of the provider below its block gets the one column and the block |
| Registry.UpdateConflictIff | tables.sql:16-26 | the key breaks iff two rows of the table would end up equal |
| Registry.OneUpdate | src/db.rs:32-98 | with one row for the provider, the update touches that row only and cannot break the key |
| Registry.DeliveryTouchesOneRow | src/db.rs:32-98 | the same for a whole delivery |
| Registry.AppliedIffRecord | src/db.rs:43-43 | an update passes the guard iff its block is a strict left-to-right maximum |
| Registry.DeliverWritesRecords | src/db.rs:32-98 | the row ends as if only those maxima had been written, unguarded |
| Registry.LastWriterPerColumn | src/db.rs:42-94 | each column ends with its last applied write, or as it was |
| Registry.IncreasingDeliveryFoldsLog | src/db.rs:32-98 | strictly increasing delivery applies every update |
| Registry.RedeliveryIsIdempotent | src/db.rs:32-98 | sending delivered updates again, in any order, changes nothing |

## Left out

- Guarantees.PromiseLostIff: not for permanent (-1) pins, whose end a tick at any real head has reached; Guarantees.PermanentPromiseIff gives the exact condition for those.
- Ledger.LedgerEqualsReality: serialised runs of one chain without retries and with distinct node URLs, in which a node call that fails has no effect; what every other run keeps is said by Truth.RowsBackedIff, and Witness.RetryUnpinsLiveCid is an orderly run with a retry that breaks the agreement.
- Restart.CrashSafeIngest: one provider per chain and no failed fetch or insert; Restart.CaughtUpIff covers the tables those leave, and Restart.OtherProviderHidesLog shows what a second provider can cost.
- Configurations with a batch size below 1 or a negative start block, where the loop stalls or panics; heads from 2^63 on, and ABI numbers from 2^64 on, where `as_u64` panics.
- Guarantees.HistoryIsExact: within one life of the process; a stop adds nothing to the history.
- A stop between the two statements of a tick is modelled as a stop, not as a rollback; each statement commits on its own.
- HTTP, websocket and web3 transport, reconnects, sleeps and logging: a fetch or node call is a nondeterministic success or failure, a head an arbitrary value, an unknown head a turn that does nothing.
- Database connection errors, panics and chain reorganisations.
- ABI decoding and event topics: a log arrives with its fields decoded; handlers for registry events are represented by the statements they run.
- The optional fields and credentials of `CIDInfo`: each query has its own row type instead.
- Duplicate registry rows left by a replayed AddProvider, and restarts of the five watchers that share `event_add_provider`.
- The monitoring list of the last 30 events, the HTTP routes, the proxy and configuration parsing.
